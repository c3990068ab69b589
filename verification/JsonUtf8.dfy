/**
 * `codePointToUTF8`, against the UTF-8 syntax of RFC 3629. A byte is a character below 256; the masks and shifts of
 * the source select disjoint bit fields, so they are written as remainders, quotients and sums.
 */
module JsonUtf8 {
  import opened JsonValue

  function Byte(n: nat): (c: char)
    requires n < 256
    ensures c as int == n
  {
    n as char
  }

  function Continuation(n: nat): (c: char)
    ensures 0x80 <= c as int <= 0xBF
  {
    Byte(0x80 + n % 0x40)
  }

  function CodePointToUTF8(cp: nat): string {
    if cp <= 0x7F then [Byte(cp)]
    else if cp <= 0x7FF then [Byte(0xC0 + cp / 0x40 % 0x20), Continuation(cp)]
    else if cp <= 0xFFFF then
      [Byte(0xE0 + cp / 0x1000 % 0x10), Continuation(cp / 0x40), Continuation(cp)]
    else if cp <= 0x10FFFF then
      [Byte(0xF0 + cp / 0x40000 % 8), Continuation(cp / 0x1000), Continuation(cp / 0x40), Continuation(cp)]
    else []
  }

  /** Unicode scalar values: code points that are no surrogates. */
  predicate IsScalar(cp: nat) {
    cp <= 0x10FFFF && !(0xD800 <= cp <= 0xDFFF)
  }

  // ---- The reference: section 4 of RFC 3629 ----

  predicate IsTail(s: string, i: nat) {
    i < |s| && 0x80 <= s[i] as int <= 0xBF
  }

  /** How long the well-formed sequence at the head of `s` is; 0 when there is none. */
  function HeadLength(s: string): (n: nat)
    ensures n <= 4 && n <= |s|
  {
    if s == [] then 0
    else
      var b := s[0] as int;
      if b <= 0x7F then 1
      else if !IsTail(s, 1) then 0
      else
        var t := s[1] as int;
        if 0xC2 <= b <= 0xDF then 2
        else if !IsTail(s, 2) then 0
        else if (b == 0xE0 && 0xA0 <= t) || 0xE1 <= b <= 0xEC || (b == 0xED && t <= 0x9F) || 0xEE <= b <= 0xEF then 3
        else if !IsTail(s, 3) then 0
        else if (b == 0xF0 && 0x90 <= t) || 0xF1 <= b <= 0xF3 || (b == 0xF4 && t <= 0x8F) then 4
        else 0
  }

  /** The scalar value that a well-formed sequence of `n` bytes encodes (section 3 of RFC 3629). */
  function HeadValue(s: string, n: nat): int
    requires 1 <= n <= 4 && n <= |s|
  {
    if n == 1 then s[0] as int
    else if n == 2 then (s[0] as int - 0xC0) * 0x40 + (s[1] as int - 0x80)
    else if n == 3 then (s[0] as int - 0xE0) * 0x1000 + (s[1] as int - 0x80) * 0x40 + (s[2] as int - 0x80)
    else (s[0] as int - 0xF0) * 0x40000 + (s[1] as int - 0x80) * 0x1000 + (s[2] as int - 0x80) * 0x40
         + (s[3] as int - 0x80)
  }

  function Head(s: string): Option<(int, nat)> {
    var n := HeadLength(s);
    if n == 0 then None else Some((HeadValue(s, n), n))
  }

  lemma EncodesUpTo7FF(cp: nat, rest: string)
    requires cp <= 0x7FF
    ensures Head(CodePointToUTF8(cp) + rest) == Some((cp, |CodePointToUTF8(cp)|))
  {
    var s := CodePointToUTF8(cp) + rest;
    if cp > 0x7F {
      var y, x := cp / 0x40, cp % 0x40;
      assert s[0] as int == 0xC0 + y && s[1] as int == 0x80 + x;
    }
  }

  lemma ThreeParts(cp: nat) returns (z: nat, y: nat, x: nat)
    requires cp <= 0xFFFF
    ensures z == cp / 0x1000 % 0x10 && y == cp / 0x40 % 0x40 && x == cp % 0x40
    ensures cp == z * 0x1000 + y * 0x40 + x && z < 0x10
  {
    z, y, x := cp / 0x1000, cp / 0x40 % 0x40, cp % 0x40;
    assert cp / 0x1000 == cp / 0x40 / 0x40;
  }

  lemma EncodesUpToFFFF(cp: nat, rest: string)
    requires 0x7FF < cp <= 0xFFFF
    ensures IsScalar(cp) ==> Head(CodePointToUTF8(cp) + rest) == Some((cp, 3))
    ensures !IsScalar(cp) ==> Head(CodePointToUTF8(cp) + rest).None?
  {
    var s := CodePointToUTF8(cp) + rest;
    var z, y, x := ThreeParts(cp);
    assert s[0] as int == 0xE0 + z && s[1] as int == 0x80 + y && s[2] as int == 0x80 + x;
  }

  lemma FourParts(cp: nat) returns (u: nat, z: nat, y: nat, x: nat)
    requires 0xFFFF < cp <= 0x10FFFF
    ensures u == cp / 0x40000 % 8 && z == cp / 0x1000 % 0x40 && y == cp / 0x40 % 0x40 && x == cp % 0x40
    ensures cp == u * 0x40000 + z * 0x1000 + y * 0x40 + x
    ensures u <= 4 && (u == 0 ==> z >= 0x10) && (u == 4 ==> z <= 0xF)
  {
    u, z, y, x := cp / 0x40000, cp / 0x1000 % 0x40, cp / 0x40 % 0x40, cp % 0x40;
    assert cp / 0x1000 == cp / 0x40 / 0x40 && cp / 0x40000 == cp / 0x1000 / 0x40;
  }

  lemma EncodesUpTo10FFFF(cp: nat, rest: string)
    requires 0xFFFF < cp <= 0x10FFFF
    ensures Head(CodePointToUTF8(cp) + rest) == Some((cp, 4))
  {
    var s := CodePointToUTF8(cp) + rest;
    var u, z, y, x := FourParts(cp);
    assert s[0] as int == 0xF0 + u && s[1] as int == 0x80 + z;
    assert s[2] as int == 0x80 + y && s[3] as int == 0x80 + x;
  }

  /**
   * The encoder writes the well-formed sequence of exactly the scalar values: what it writes for any other code
   * point is not well formed.
   */
  lemma EncodesScalars(cp: nat, rest: string)
    ensures IsScalar(cp) ==> Head(CodePointToUTF8(cp) + rest) == Some((cp, |CodePointToUTF8(cp)|))
    ensures !IsScalar(cp) ==> Head(CodePointToUTF8(cp)).None?
  {
    if cp <= 0x7FF {
      EncodesUpTo7FF(cp, rest);
    } else if cp <= 0xFFFF {
      EncodesUpToFFFF(cp, rest);
      EncodesUpToFFFF(cp, []);
      assert CodePointToUTF8(cp) + [] == CodePointToUTF8(cp);
    } else if cp <= 0x10FFFF {
      EncodesUpTo10FFFF(cp, rest);
    }
  }

  lemma SixBits(hi: nat, lo: nat, n: nat)
    requires lo < 0x40 && n == hi * 0x40 + lo
    ensures n / 0x40 == hi && n % 0x40 == lo
  {
  }

  /** Every well-formed sequence is the encoding of the value read from it. */
  lemma DecodedIsEncoded(s: string)
    requires HeadLength(s) > 0
    ensures IsScalar(HeadValue(s, HeadLength(s)))
    ensures CodePointToUTF8(HeadValue(s, HeadLength(s))) == s[..HeadLength(s)]
  {
    var n := HeadLength(s);
    var v := HeadValue(s, n);
    if n == 2 {
      SixBits(s[0] as int - 0xC0, s[1] as int - 0x80, v);
    } else if n == 3 {
      DecodedIsEncoded3(s, v);
    } else if n == 4 {
      DecodedIsEncoded4(s, v);
    }
  }

  lemma DecodedIsEncoded3(s: string, v: int)
    requires HeadLength(s) == 3 && v == HeadValue(s, 3)
    ensures IsScalar(v) && CodePointToUTF8(v) == s[..3]
  {
    var hi, mid, lo := s[0] as int - 0xE0, s[1] as int - 0x80, s[2] as int - 0x80;
    SixBits(hi * 0x40 + mid, lo, v);
    SixBits(hi, mid, v / 0x40);
    assert v / 0x1000 == hi;
  }

  lemma DecodedIsEncoded4(s: string, v: int)
    requires HeadLength(s) == 4 && v == HeadValue(s, 4)
    ensures IsScalar(v) && CodePointToUTF8(v) == s[..4]
  {
    var top, hi, mid, lo := s[0] as int - 0xF0, s[1] as int - 0x80, s[2] as int - 0x80, s[3] as int - 0x80;
    SixBits((top * 0x40 + hi) * 0x40 + mid, lo, v);
    SixBits(top * 0x40 + hi, mid, v / 0x40);
    SixBits(top, hi, v / 0x1000);
    assert v / 0x40000 == top;
  }

  /** No encoding is a prefix of another one: equal prefixes come from equal scalar values. */
  lemma EncodingIsPrefixFree(a: nat, b: nat, rest: string)
    requires IsScalar(a) && IsScalar(b)
    requires CodePointToUTF8(b) == CodePointToUTF8(a) + rest
    ensures a == b && rest == []
  {
    EncodesScalars(a, rest);
    EncodesScalars(b, []);
    assert CodePointToUTF8(b) + [] == CodePointToUTF8(b);
  }
}
