/** `b64_encode` and `b64_decode` of bin2ascii.h, and `base64url_encode` of the Google Sheets client. */
module Base64 {

  type Byte = c: char | (c as int) < 256
  type Bytes = seq<Byte>

  const UPPER := "ABCDEFGHIJKLMNOPQRSTUVWXYZ"
  const LOWER := "abcdefghijklmnopqrstuvwxyz"
  const DIGITS := "0123456789"
  const ALPHABET := UPPER + LOWER + DIGITS + "+/"
  const URL_ALPHABET := UPPER + LOWER + DIGITS + "-_"

  /** A result, or the text of the exception thrown. */
  datatype Decoding = Decoded(data: Bytes) | Failed(what: string)

  const BAD_SIZE := "Invalid base64 data size"
  const BAD_DATA := "Invalid hex data: "
  const INVALID := 0x80

  function ByteAt(s: Bytes, i: nat): (n: nat)
    ensures n < 256
  {
    if i < |s| then s[i] as int else 0
  }

  function Min(a: nat, b: nat): nat {
    if a < b then a else b
  }

  /** The letter for a 6-bit digit. */
  function Letter(n: nat): char
    requires n < 64
  {
    ALPHABET[n]
  }

  // ---- The encoding ----

  /** The `k`-th of the four 6-bit digits of three bytes. */
  function Digit(a: nat, b: nat, c: nat, k: nat): (n: nat)
    requires a < 256 && b < 256 && c < 256 && k < 4
    ensures n < 64
  {
    if k == 0 then a / 4
    else if k == 1 then a % 4 * 16 + b / 16
    else if k == 2 then b % 16 * 4 + c / 64
    else c % 64
  }

  /** The letters of a group of one to three bytes: one more than there are bytes. */
  function Group(s: Bytes): (r: string)
    requires 0 < |s|
    ensures |r| == Min(|s|, 3) + 1
  {
    var a, b, c := ByteAt(s, 0), ByteAt(s, 1), ByteAt(s, 2);
    [Letter(Digit(a, b, c, 0)), Letter(Digit(a, b, c, 1))]
    + (if |s| > 1 then [Letter(Digit(a, b, c, 2))] else [])
    + (if |s| > 2 then [Letter(Digit(a, b, c, 3))] else [])
  }

  /** The letters of a text, without padding. */
  function Letters(s: Bytes): string {
    if s == [] then "" else Group(s) + Letters(s[Min(3, |s|)..])
  }

  /** How many padding characters follow. */
  function PadCount(n: nat): (p: nat)
    ensures p < 3 && (n + p) % 3 == 0
  {
    (3 - n % 3) % 3
  }

  function Padding(n: nat): string
    requires n < 3
  {
    if n == 0 then "" else if n == 1 then "=" else "=="
  }

  /** Section 4 of RFC 4648. */
  function Encoded(s: Bytes): string {
    Letters(s) + Padding(PadCount(|s|))
  }

  /** Four digits packed into 24 bits and taken apart again. */
  lemma DigitsOfNumber(n0: nat, n1: nat, n2: nat, n3: nat)
    requires n0 < 64 && n1 < 64 && n2 < 64 && n3 < 64
    ensures var n := n0 * 0x40000 + n1 * 0x1000 + n2 * 0x40 + n3;
            n / 0x40000 % 64 == n0 && n / 0x1000 % 64 == n1 && n / 0x40 % 64 == n2 && n % 64 == n3
  {
    var n := n0 * 0x40000 + n1 * 0x1000 + n2 * 0x40 + n3;
    assert n / 0x40000 == n0;
    assert n / 0x1000 == n0 * 64 + n1;
    assert n / 0x40 == (n0 * 64 + n1) * 64 + n2;
  }

  /** Three bytes packed into 24 bits hold the four digits. */
  lemma DigitsOfBytes(a: nat, b: nat, c: nat)
    requires a < 256 && b < 256 && c < 256
    ensures a * 0x10000 + b * 0x100 + c ==
            Digit(a, b, c, 0) * 0x40000 + Digit(a, b, c, 1) * 0x1000 + Digit(a, b, c, 2) * 0x40 + Digit(a, b, c, 3)
  {
  }

  method Encode(s: Bytes) returns (r: string)
    ensures r == Encoded(s)
  {
    hide Letters;
    r := "";
    var i := 0;
    assert s[0..] == s;
    while i < |s|
      invariant i <= |s| + 2
      invariant r + Letters(s[Min(i, |s|)..]) == Letters(s)
    {
      var group := EncodeGroup(s, i);
      LettersStep(s, i);
      assert r + (group + Letters(s[Min(i + 3, |s|)..])) == r + group + Letters(s[Min(i + 3, |s|)..]);
      r := r + group;
      i := i + 3;
    }
    NoLetters(s[|s|..]);
    var pad := (3 - |s| % 3) % 3;
    ghost var letters := r;
    for k := 0 to pad
      invariant r == letters + Padding(k)
    {
      r := r + "=";
    }
  }

  /** The body of the loop of `Encode`. */
  method EncodeGroup(s: Bytes, i: nat) returns (r: string)
    requires i < |s|
    ensures r == Group(s[i..])
  {
    hide Group, Digit, Letter;
    var n := s[i] as int * 0x10000;
    if i + 1 < |s| { n := n + s[i + 1] as int * 0x100; }
    if i + 2 < |s| { n := n + s[i + 2] as int; }
    GroupLetters(s, i, n);
    var n0, n1, n2, n3 := n / 0x40000 % 64, n / 0x1000 % 64, n / 0x40 % 64, n % 64;
    r := [Letter(n0)] + [Letter(n1)];
    if i + 1 < |s| { r := r + [Letter(n2)]; }
    if i + 2 < |s| { r := r + [Letter(n3)]; }
  }

  lemma NoLetters(s: Bytes)
    requires s == []
    ensures Letters(s) == ""
  {
  }

  lemma LettersStep(s: Bytes, i: nat)
    requires i < |s|
    ensures Letters(s[i..]) == Group(s[i..]) + Letters(s[Min(i + 3, |s|)..])
  {
    assert s[i..][Min(3, |s| - i)..] == s[Min(i + 3, |s|)..];
  }

  lemma GroupLetters(s: Bytes, i: nat, n: nat)
    requires i < |s| && n == ByteAt(s, i) * 0x10000 + ByteAt(s, i + 1) * 0x100 + ByteAt(s, i + 2)
    ensures Group(s[i..]) ==
            [Letter(n / 0x40000 % 64), Letter(n / 0x1000 % 64)]
            + (if i + 1 < |s| then [Letter(n / 0x40 % 64)] else [])
            + (if i + 2 < |s| then [Letter(n % 64)] else [])
  {
    hide Digit, Letter;
    var a, b, c := ByteAt(s, i), ByteAt(s, i + 1), ByteAt(s, i + 2);
    DigitsOfBytes(a, b, c);
    DigitsOfNumber(Digit(a, b, c, 0), Digit(a, b, c, 1), Digit(a, b, c, 2), Digit(a, b, c, 3));
  }

  // ---- The decoding ----

  /** The lookup table of `b64_decode`: padding counts as 0. */
  function Lookup(c: char): (n: nat)
    ensures n < 64 || n == INVALID
  {
    if 'A' <= c <= 'Z' then c as int - 'A' as int
    else if 'a' <= c <= 'z' then c as int - 'a' as int + 26
    else if '0' <= c <= '9' then c as int - '0' as int + 52
    else if c == '+' then 62
    else if c == '/' then 63
    else if c == '=' then 0
    else INVALID
  }

  predicate Accepted(t: string) {
    |t| % 4 == 0 && forall i :: 0 <= i < |t| ==> Lookup(t[i]) < 64
  }

  /** The bytes of one group of four characters. Padding drops a byte, wherever it stands. */
  function Ungroup(c0: char, c1: char, c2: char, c3: char): Bytes
    requires Lookup(c0) < 64 && Lookup(c1) < 64 && Lookup(c2) < 64 && Lookup(c3) < 64
  {
    [(Lookup(c0) * 4 + Lookup(c1) / 16) as char]
    + (if c2 != '=' then [(Lookup(c1) % 16 * 16 + Lookup(c2) / 4) as char] else [])
    + (if c3 != '=' then [(Lookup(c2) % 4 * 64 + Lookup(c3)) as char] else [])
  }

  function Unlettered(t: string): Bytes
    requires Accepted(t)
  {
    if t == "" then [] else Ungroup(t[0], t[1], t[2], t[3]) + Unlettered(t[4..])
  }

  predicate GroupAccepted(t: string)
    requires |t| >= 4
  {
    Lookup(t[0]) < 64 && Lookup(t[1]) < 64 && Lookup(t[2]) < 64 && Lookup(t[3]) < 64
  }

  /** What is decoded from a whole number of groups, or the first group that is not accepted. */
  function GroupsDecoded(t: string): Decoding
    requires |t| % 4 == 0
  {
    if t == "" then Decoded([])
    else if !GroupAccepted(t) then Failed(BAD_DATA + t[..4])
    else
      match GroupsDecoded(t[4..])
      case Decoded(rest) => Decoded(Ungroup(t[0], t[1], t[2], t[3]) + rest)
      case Failed(what) => Failed(what)
  }

  function TextDecoded(t: string): Decoding {
    if |t| % 4 != 0 then Failed(BAD_SIZE) else GroupsDecoded(t)
  }

  /** A text of whole groups that is refused: the exception names the first group with a character that is no letter. */
  lemma {:induction false} RefusesFirstBadGroup(t: string, k: nat)
    requires |t| % 4 == 0 && 4 * k + 4 <= |t|
    requires forall i :: 0 <= i < 4 * k ==> Lookup(t[i]) < 64
    requires !(Lookup(t[4 * k]) < 64 && Lookup(t[4 * k + 1]) < 64 && Lookup(t[4 * k + 2]) < 64 &&
               Lookup(t[4 * k + 3]) < 64)
    ensures TextDecoded(t) == Failed("Invalid hex data: " + t[4 * k..4 * k + 4])
    decreases k
  {
    if k > 0 {
      var u := t[4..];
      assert forall i :: 0 <= i < |u| ==> u[i] == t[i + 4];
      RefusesFirstBadGroup(u, k - 1);
      assert u[4 * (k - 1)..4 * (k - 1) + 4] == t[4 * k..4 * k + 4];
    }
  }

  /** Decoding succeeds exactly on accepted texts. */
  lemma {:induction false} DecodesAccepted(t: string)
    ensures Accepted(t) ==> TextDecoded(t) == Decoded(Unlettered(t))
    ensures TextDecoded(t).Decoded? ==> Accepted(t)
  {
    hide Lookup, Ungroup;
    if |t| % 4 == 0 && t != "" {
      DecodesAccepted(t[4..]);
      assert forall i :: 4 <= i < |t| ==> t[i] == t[4..][i - 4];
    }
  }

  /** Three bytes packed into 24 bits and taken apart again. */
  lemma BytesOfNumber(a: nat, b: nat, c: nat)
    requires a < 256 && b < 256 && c < 256
    ensures var n := a * 0x10000 + b * 0x100 + c;
            n / 0x10000 % 256 == a && n / 0x100 % 256 == b && n % 256 == c
  {
    var n := a * 0x10000 + b * 0x100 + c;
    assert n / 0x10000 == a;
    assert n / 0x100 == a * 256 + b;
  }

  method Decode(t: string) returns (r: Decoding)
    ensures r == TextDecoded(t)
  {
    hide Lookup, Ungroup, GroupsDecoded;
    GroupsStep("");
    var data: Bytes := [];
    if |t| == 0 {
      return Decoded(data);
    }
    if |t| % 4 != 0 {
      return Failed(BAD_SIZE);
    }
    var i := 0;
    assert t[0..] == t;
    while i < |t|
      invariant i <= |t| && i % 4 == 0
      invariant GroupsDecoded(t) ==
                match GroupsDecoded(t[i..])
                case Decoded(rest) => Decoded(data + rest)
                case Failed(what) => Failed(what)
    {
      GroupsStep(t[i..]);
      assert t[i..][4..] == t[i + 4..] && t[i..][..4] == t[i..i + 4];
      var ok, group := DecodeGroup(t[i], t[i + 1], t[i + 2], t[i + 3]);
      if !ok {
        return Failed(BAD_DATA + t[i..i + 4]);
      }
      assert forall rest: Bytes :: data + (group + rest) == data + group + rest;
      data := data + group;
      i := i + 4;
    }
    assert t[i..] == "";
    assert data + [] == data;
    r := Decoded(data);
  }

  lemma GroupsStep(t: string)
    requires |t| % 4 == 0
    ensures GroupsDecoded(t) ==
            if t == "" then Decoded([])
            else if !GroupAccepted(t) then Failed(BAD_DATA + t[..4])
            else
              match GroupsDecoded(t[4..])
              case Decoded(rest) => Decoded(Ungroup(t[0], t[1], t[2], t[3]) + rest)
              case Failed(what) => Failed(what)
  {
  }

  /** The body of the loop of `Decode`. */
  method DecodeGroup(c0: char, c1: char, c2: char, c3: char) returns (ok: bool, group: Bytes)
    ensures ok <==> Lookup(c0) < 64 && Lookup(c1) < 64 && Lookup(c2) < 64 && Lookup(c3) < 64
    ensures ok ==> group == Ungroup(c0, c1, c2, c3)
  {
    hide Lookup, Ungroup;
    var n0, n1, n2, n3 := Lookup(c0), Lookup(c1), Lookup(c2), Lookup(c3);
    if n0 == INVALID || n1 == INVALID || n2 == INVALID || n3 == INVALID {
      return false, [];
    }
    var n := n0 * 0x40000 + n1 * 0x1000 + n2 * 0x40 + n3;
    UngroupBytes(c0, c1, c2, c3, n);
    group := [(n / 0x10000 % 256) as char];
    if c2 != '=' { group := group + [(n / 0x100 % 256) as char]; }
    if c3 != '=' { group := group + [(n % 256) as char]; }
    ok := true;
  }

  lemma NothingLettered()
    ensures Unlettered("") == []
  {
  }

  lemma UngroupBytes(c0: char, c1: char, c2: char, c3: char, n: nat)
    requires Lookup(c0) < 64 && Lookup(c1) < 64 && Lookup(c2) < 64 && Lookup(c3) < 64
    requires n == Lookup(c0) * 0x40000 + Lookup(c1) * 0x1000 + Lookup(c2) * 0x40 + Lookup(c3)
    ensures Ungroup(c0, c1, c2, c3) ==
            [(n / 0x10000 % 256) as char]
            + (if c2 != '=' then [(n / 0x100 % 256) as char] else [])
            + (if c3 != '=' then [(n % 256) as char] else [])
  {
    hide Lookup;
    var n0, n1, n2, n3 := Lookup(c0), Lookup(c1), Lookup(c2), Lookup(c3);
    BytesOfNumber(n0 * 4 + n1 / 16, n1 % 16 * 16 + n2 / 4, n2 % 4 * 64 + n3);
  }

  // ---- Round trips ----

  lemma UpperLetter(n: nat)
    requires n < 26
    ensures UPPER[n] as int == 'A' as int + n
  {
  }

  lemma LowerLetter(n: nat)
    requires n < 26
    ensures LOWER[n] as int == 'a' as int + n
  {
  }

  lemma DigitLetter(n: nat)
    requires n < 10
    ensures DIGITS[n] as int == '0' as int + n
  {
  }

  /** Tables 1 and 2 of RFC 4648. */
  lemma LettersAre(n: nat)
    requires n < 64
    ensures n < 26 ==> Letter(n) as int == UrlLetter(n) as int == 'A' as int + n
    ensures 26 <= n < 52 ==> Letter(n) as int == UrlLetter(n) as int == 'a' as int + n - 26
    ensures 52 <= n < 62 ==> Letter(n) as int == UrlLetter(n) as int == '0' as int + n - 52
    ensures n >= 62 ==> Letter(n) == "+/"[n - 62] && UrlLetter(n) == "-_"[n - 62]
  {
    AlphabetParts();
    if n < 26 {
      UpperLetter(n);
    } else if n < 52 {
      LowerLetter(n - 26);
    } else if n < 62 {
      DigitLetter(n - 52);
    }
  }

  lemma LetterLookup(n: nat)
    requires n < 64
    ensures Lookup(Letter(n)) == n && Letter(n) != '='
  {
    hide UPPER, LOWER, DIGITS;
    AlphabetParts();
    if n < 26 {
      UpperLetter(n);
    } else if n < 52 {
      LowerLetter(n - 26);
    } else if n < 62 {
      DigitLetter(n - 52);
    }
  }

  lemma AlphabetParts()
    ensures |UPPER| == 26 && |LOWER| == 26 && |DIGITS| == 10
  {
  }

  /** The letter of a digit is the one that denotes it. */
  lemma LookupLetter(c: char)
    requires Lookup(c) < 64 && c != '='
    ensures Letter(Lookup(c)) == c
  {
    hide Letter;
    LetterLookup(Lookup(c));
  }

  /** Six-bit digits and bytes hold the same bits. */
  lemma BytesOfDigits(a: nat, b: nat, c: nat)
    requires a < 256 && b < 256 && c < 256
    ensures Digit(a, b, c, 0) * 4 + Digit(a, b, c, 1) / 16 == a
    ensures Digit(a, b, c, 1) % 16 * 16 + Digit(a, b, c, 2) / 4 == b
    ensures Digit(a, b, c, 2) % 4 * 64 + Digit(a, b, c, 3) == c
  {
  }

  /** A group with its padding decodes to the bytes it was made from. */
  lemma GroupReadsBack(s: Bytes)
    requires 0 < |s| <= 3
    ensures var t := Group(s) + Padding(3 - |s|);
            |t| == 4 && Accepted(t) && Ungroup(t[0], t[1], t[2], t[3]) == s
  {
    hide Lookup, Digit, Letter;
    var a, b, c := ByteAt(s, 0), ByteAt(s, 1), ByteAt(s, 2);
    LetterLookup(Digit(a, b, c, 0));
    LetterLookup(Digit(a, b, c, 1));
    LetterLookup(Digit(a, b, c, 2));
    LetterLookup(Digit(a, b, c, 3));
    PaddingLookup();
    BytesOfDigits(a, b, c);
    ShortDigits(a, b, c);
  }

  lemma PaddingLookup()
    ensures Lookup('=') == 0
  {
  }

  /** Where bytes are missing, the bits of a digit that belong to them are zero. */
  lemma ShortDigits(a: nat, b: nat, c: nat)
    requires a < 256 && b < 256 && c < 256
    ensures b == 0 ==> Digit(a, b, c, 1) % 16 == 0
    ensures c == 0 ==> Digit(a, b, c, 2) % 4 == 0
    ensures b == 0 && c == 0 ==> Digit(a, b, c, 2) == 0
  {
  }

  lemma ThreeMore(n: nat)
    ensures PadCount(n + 3) == PadCount(n) && (n + 3 + 2) / 3 * 4 == (n + 2) / 3 * 4 + 4
  {
  }

  lemma {:induction false} LetterCount(s: Bytes)
    ensures |Letters(s)| + PadCount(|s|) == (|s| + 2) / 3 * 4
  {
    hide Group, Letters;
    if |s| == 0 {
      NoLetters(s);
    } else if |s| <= 3 {
      LettersStep(s, 0);
      assert s[0..] == s;
      assert s[Min(3, |s|)..] == [];
      NoLetters([]);
    } else {
      LetterCount(s[3..]);
      ThreeMore(|s| - 3);
      LettersStep(s, 0);
      assert s[0..] == s;
    }
  }

  /** A group of three bytes and the rest are encoded one after the other. */
  lemma EncodedStep(s: Bytes)
    requires |s| > 3
    ensures Encoded(s) == Group(s[..3]) + Encoded(s[3..])
  {
    hide Letters, Digit, Letter;
    assert s[Min(3, |s|)..] == s[3..];
    LettersStep(s, 0);
    assert s[0..] == s;
    assert Group(s) == Group(s[..3]);
  }

  lemma EncodedLast(s: Bytes)
    requires 0 < |s| <= 3
    ensures Encoded(s) == Group(s) + Padding(3 - |s|)
  {
    hide Group;
    assert s[Min(3, |s|)..] == [];
    NoLetters([]);
  }

  /** Every text of bytes survives being encoded and decoded. */
  lemma {:induction false} DecodeUndoesEncode(s: Bytes)
    ensures Accepted(Encoded(s)) && Unlettered(Encoded(s)) == s && TextDecoded(Encoded(s)) == Decoded(s)
    ensures |Encoded(s)| == (|s| + 2) / 3 * 4
  {
    hide Lookup, Group, Ungroup, Letters, Encoded, Padding, TextDecoded;
    EncodedLength(s);
    DecodesAccepted(Encoded(s));
    if s == [] {
      EncodedNothing();
    } else if |s| <= 3 {
      EncodedLast(s);
      GroupReadsBack(s);
      OneGroup(Encoded(s));
    } else {
      var first, rest := s[..3], s[3..];
      EncodedStep(s);
      DecodeUndoesEncode(rest);
      GroupReadsBack(first);
      NoPadding();
      assert Group(first) + "" == Group(first);
      assert Encoded(s)[4..] == Encoded(rest);
      assert s == first + rest;
    }
  }

  lemma EncodedLength(s: Bytes)
    ensures |Encoded(s)| == (|s| + 2) / 3 * 4
  {
    LetterCount(s);
  }

  lemma EncodedNothing()
    ensures Encoded([]) == ""
  {
  }

  lemma NoPadding()
    ensures Padding(0) == ""
  {
  }

  lemma OneGroup(t: string)
    requires |t| == 4 && Accepted(t)
    ensures Unlettered(t) == Ungroup(t[0], t[1], t[2], t[3])
  {
    hide Lookup, Ungroup;
    NothingLettered();
    assert t[4..] == "";
  }

  // ---- Canonical texts ----

  /**
   * Section 3.5 of RFC 4648: padding stands only at the end, at most twice, and the bits that it leaves unused are
   * zero.
   */
  ghost predicate Canonical(t: string) {
    |t| % 4 == 0 && (forall i :: 0 <= i < |t| - 2 ==> t[i] != '=') &&
    (t != "" ==>
       var n := |t|;
       (t[n - 2] == '=' ==> t[n - 1] == '=' && Lookup(t[n - 3]) % 16 == 0) &&
       (t[n - 1] == '=' ==> Lookup(t[n - 2]) % 4 == 0))
  }

  /** What the encoder writes is canonical. */
  lemma {:induction false} EncodedIsCanonical(s: Bytes)
    ensures Canonical(Encoded(s))
  {
    hide Lookup, Group, Letters, Encoded, Padding;
    EncodedLength(s);
    if s == [] {
      EncodedNothing();
    } else if |s| <= 3 {
      EncodedLast(s);
      GroupIsCanonical(s);
    } else {
      var first, rest := s[..3], s[3..];
      EncodedStep(s);
      EncodedLength(rest);
      EncodedIsCanonical(rest);
      GroupIsCanonical(first);
      NoPadding();
      CanonicalAfter(Group(first), Encoded(rest));
    }
  }

  lemma GroupIsCanonical(s: Bytes)
    requires 0 < |s| <= 3
    ensures |Group(s) + Padding(3 - |s|)| == 4 && Canonical(Group(s) + Padding(3 - |s|))
    ensures |s| == 3 ==> forall i :: 0 <= i < 4 ==> Group(s)[i] != '='
  {
    hide Lookup, Digit, Letter;
    var a, b, c := ByteAt(s, 0), ByteAt(s, 1), ByteAt(s, 2);
    LetterLookup(Digit(a, b, c, 0));
    LetterLookup(Digit(a, b, c, 1));
    LetterLookup(Digit(a, b, c, 2));
    LetterLookup(Digit(a, b, c, 3));
    PaddingLookup();
    ShortDigits(a, b, c);
  }

  lemma CanonicalAfter(g: string, t: string)
    requires |g| == 4 && t != "" && |t| % 4 == 0
    ensures Canonical(g + t) <==> (forall i :: 0 <= i < 4 ==> g[i] != '=') && Canonical(t)
  {
    hide Lookup;
    var u, n := g + t, |g + t|;
    assert u[n - 1] == t[|t| - 1] && u[n - 2] == t[|t| - 2] && u[n - 3] == t[|t| - 3];
    assert forall i :: 0 <= i < 4 ==> u[i] == g[i];
    assert forall i :: 0 <= i < |t| ==> u[4 + i] == t[i];
    if Canonical(u) {
      forall i | 0 <= i < |t| - 2
        ensures t[i] != '='
      {
        assert u[4 + i] != '=';
      }
    }
  }

  /** A canonical group encodes back to itself. */
  lemma GroupWritesBack(t: string)
    requires |t| == 4 && Accepted(t) && Canonical(t)
    ensures var s := Ungroup(t[0], t[1], t[2], t[3]); 0 < |s| <= 3 && Group(s) + Padding(3 - |s|) == t
    ensures t[2] != '=' && t[3] != '=' ==> |Ungroup(t[0], t[1], t[2], t[3])| == 3
  {
    hide Lookup, Letter, Digit;
    var n0, n1, n2, n3 := Lookup(t[0]), Lookup(t[1]), Lookup(t[2]), Lookup(t[3]);
    assert t[0] != '=' && t[1] != '=';
    LookupLetter(t[0]);
    LookupLetter(t[1]);
    PaddingLookup();
    DigitsOfDigits(n0, n1, n2, n3);
    var s := Ungroup(t[0], t[1], t[2], t[3]);
    if t[2] == '=' {
      assert s == [(n0 * 4 + n1 / 16) as char];
      assert n1 % 16 == 0 && n2 == 0 && n3 == 0;
    } else {
      LookupLetter(t[2]);
      if t[3] == '=' {
        assert s == [(n0 * 4 + n1 / 16) as char, (n1 % 16 * 16 + n2 / 4) as char];
        assert n2 % 4 == 0 && n3 == 0;
      } else {
        LookupLetter(t[3]);
        assert s == [(n0 * 4 + n1 / 16) as char, (n1 % 16 * 16 + n2 / 4) as char, (n2 % 4 * 64 + n3) as char];
      }
    }
  }

  /** Bytes made of four digits hold these digits. */
  lemma DigitsOfDigits(n0: nat, n1: nat, n2: nat, n3: nat)
    requires n0 < 64 && n1 < 64 && n2 < 64 && n3 < 64
    ensures var a, b, c := n0 * 4 + n1 / 16, n1 % 16 * 16 + n2 / 4, n2 % 4 * 64 + n3;
            a < 256 && b < 256 && c < 256 &&
            Digit(a, b, c, 0) == n0 && Digit(a, b, c, 1) == n1 && Digit(a, b, c, 2) == n2 && Digit(a, b, c, 3) == n3
  {
  }

  /** An accepted text is what its bytes are encoded to exactly when it is canonical. */
  lemma {:induction false} EncodeUndoesDecode(t: string)
    requires Accepted(t)
    ensures Encoded(Unlettered(t)) == t <==> Canonical(t)
  {
    EncodedIsCanonical(Unlettered(t));
    if Canonical(t) {
      CanonicalWritesBack(t);
    }
  }

  lemma {:induction false} CanonicalWritesBack(t: string)
    requires Accepted(t) && Canonical(t)
    ensures Encoded(Unlettered(t)) == t
  {
    hide Lookup, Group, Ungroup, Letters, Encoded, Padding;
    if t == "" {
      EncodedNothing();
    } else if |t| == 4 {
      OneGroup(t);
      GroupWritesBack(t);
      EncodedLast(Unlettered(t));
    } else {
      var g, rest := t[..4], t[4..];
      assert t == g + rest;
      CanonicalAfter(g, rest);
      LettersAreCanonical(g);
      GroupWritesBack(g);
      CanonicalWritesBack(rest);
      var s := Ungroup(g[0], g[1], g[2], g[3]);
      NoPadding();
      UnletteredNotEmpty(rest);
      assert (s + Unlettered(rest))[..3] == s && (s + Unlettered(rest))[3..] == Unlettered(rest);
      EncodedStep(s + Unlettered(rest));
      assert Group(s) + "" == Group(s);
    }
  }

  lemma LettersAreCanonical(g: string)
    requires |g| == 4 && forall i :: 0 <= i < 4 ==> g[i] != '='
    ensures Canonical(g)
  {
  }

  lemma UnletteredNotEmpty(t: string)
    requires Accepted(t) && t != ""
    ensures Unlettered(t) != []
  {
  }

  // ---- base64url ----

  function Translated(c: char): char {
    if c == '+' then '-' else if c == '/' then '_' else c
  }

  function TranslatedText(t: string): (r: string)
    ensures |r| == |t|
  {
    seq(|t|, i requires 0 <= i < |t| => Translated(t[i]))
  }

  /** A text without the padding at its end. */
  function Stripped(t: string): string {
    if t != "" && t[|t| - 1] == '=' then Stripped(t[..|t| - 1]) else t
  }

  lemma StrippedStep(t: string)
    ensures Stripped(t) == if t != "" && t[|t| - 1] == '=' then Stripped(t[..|t| - 1]) else t
  {
  }

  lemma {:induction false} StripPadding(t: string, n: nat)
    requires n < 3 && (t != "" ==> t[|t| - 1] != '=')
    ensures Stripped(t + Padding(n)) == t
  {
    hide Stripped;
    StrippedStep(t + Padding(n));
    if n == 0 {
      assert t + "" == t;
    } else {
      assert (t + Padding(n))[..|t| + n - 1] == t + Padding(n - 1);
      StripPadding(t, n - 1);
    }
  }

  lemma {:induction false} LettersArePlain(s: Bytes)
    ensures forall i :: 0 <= i < |Letters(s)| ==> Letters(s)[i] != '='
  {
    hide Group;
    if s != [] {
      GroupIsPlain(s);
      LettersArePlain(s[Min(3, |s|)..]);
    }
  }

  lemma GroupIsPlain(s: Bytes)
    requires s != []
    ensures forall i :: 0 <= i < |Group(s)| ==> Group(s)[i] != '='
  {
    hide Digit, Letter;
    var a, b, c := ByteAt(s, 0), ByteAt(s, 1), ByteAt(s, 2);
    LetterLookup(Digit(a, b, c, 0));
    LetterLookup(Digit(a, b, c, 1));
    LetterLookup(Digit(a, b, c, 2));
    LetterLookup(Digit(a, b, c, 3));
  }

  /** The letters alone are the encoding without its padding. */
  lemma LettersAreStripped(s: Bytes)
    ensures Letters(s) == Stripped(Encoded(s))
  {
    hide Letters;
    LettersArePlain(s);
    StripPadding(Letters(s), PadCount(|s|));
  }

  /** The letter for a 6-bit digit in base64url. */
  function UrlLetter(n: nat): char
    requires n < 64
  {
    URL_ALPHABET[n]
  }

  lemma UrlLetterIsTranslated(n: nat)
    requires n < 64
    ensures UrlLetter(n) == Translated(Letter(n))
  {
    hide UPPER, LOWER, DIGITS;
    AlphabetParts();
    if n < 26 {
      UpperLetter(n);
    } else if n < 52 {
      LowerLetter(n - 26);
    } else if n < 62 {
      DigitLetter(n - 52);
    }
  }

  /** The translated letters of a group. */
  function UrlGroup(s: Bytes): string
    requires s != []
  {
    var a, b, c := ByteAt(s, 0), ByteAt(s, 1), ByteAt(s, 2);
    [UrlLetter(Digit(a, b, c, 0)), UrlLetter(Digit(a, b, c, 1))]
    + (if |s| > 1 then [UrlLetter(Digit(a, b, c, 2))] else [])
    + (if |s| > 2 then [UrlLetter(Digit(a, b, c, 3))] else [])
  }

  lemma UrlGroupIsTranslated(s: Bytes)
    requires s != []
    ensures UrlGroup(s) == TranslatedText(Group(s))
  {
    hide Digit, Letter, UrlLetter, Translated;
    var a, b, c := ByteAt(s, 0), ByteAt(s, 1), ByteAt(s, 2);
    UrlLetterIsTranslated(Digit(a, b, c, 0));
    UrlLetterIsTranslated(Digit(a, b, c, 1));
    UrlLetterIsTranslated(Digit(a, b, c, 2));
    UrlLetterIsTranslated(Digit(a, b, c, 3));
  }

  lemma TranslatedConcat(a: string, b: string)
    ensures TranslatedText(a + b) == TranslatedText(a) + TranslatedText(b)
  {
  }

  /** One group more of the translated text. */
  lemma UrlStep(s: Bytes, i: nat, done: string)
    requires i < |s| && done + TranslatedText(Letters(s[i..])) == TranslatedText(Letters(s))
    ensures done + UrlGroup(s[i..]) + TranslatedText(Letters(s[Min(i + 3, |s|)..])) == TranslatedText(Letters(s))
  {
    hide Letters, Group, UrlGroup, TranslatedText;
    LettersStep(s, i);
    UrlGroupIsTranslated(s[i..]);
    TranslatedConcat(Group(s[i..]), Letters(s[Min(i + 3, |s|)..]));
  }

  lemma NothingTranslated()
    ensures TranslatedText("") == ""
  {
  }

  /** `result[rc++] = c` */
  method Store(result: array<char>, rc: nat, c: char) returns (next: nat)
    requires rc < result.Length
    modifies result
    ensures next == rc + 1 && result[..next] == old(result[..rc]) + [c]
  {
    result[rc] := c;
    next := rc + 1;
  }

  /** With padding there are whole groups only. */
  lemma PaddedLength(dataLen: nat, n: nat, pad: nat)
    requires dataLen + pad == 3 * n && pad < 3
    ensures 4 * (dataLen + pad) / 3 == 4 * n && (dataLen + 2) / 3 == n
  {
  }

  /** The length computed for the buffer, and how many bytes the last group lacks. */
  method UrlLength(dataLen: nat) returns (resultLen: nat, pad: nat)
    ensures pad == PadCount(dataLen) && resultLen + pad == (dataLen + 2) / 3 * 4
  {
    var modulusLen := dataLen % 3;
    pad := modulusLen % 2 * 2 + modulusLen / 2;
    PaddedLength(dataLen, if modulusLen == 0 then dataLen / 3 else dataLen / 3 + 1, pad);
    resultLen := 4 * (dataLen + pad) / 3;
    if pad == 2 {
      resultLen := resultLen - 2;
    } else if pad == 1 {
      resultLen := resultLen - 1;
    }
  }

  /** The body of the loop: four letters for three bytes. */
  method StoreGroup(result: array<char>, rc: nat, data: Bytes) returns (next: nat)
    requires |data| >= 3 && rc + 4 <= result.Length
    modifies result
    ensures next == rc + 4 && result[..next] == old(result[..rc]) + UrlGroup(data)
  {
    hide UrlLetter;
    var byte0, byte1, byte2 := data[0] as int, data[1] as int, data[2] as int;
    next := Store(result, rc, UrlLetter(byte0 / 4));
    next := Store(result, next, UrlLetter(byte0 % 4 * 16 + byte1 / 16));
    next := Store(result, next, UrlLetter(byte1 % 16 * 4 + byte2 / 64));
    next := Store(result, next, UrlLetter(byte2 % 64));
  }

  /** The letters for the one or two bytes left over. */
  method StoreTail(result: array<char>, rc: nat, data: Bytes, pad: nat) returns (next: nat)
    requires (pad == 2 && |data| == 1) || (pad == 1 && |data| == 2)
    requires rc + 4 - pad <= result.Length
    modifies result
    ensures next == rc + 4 - pad && result[..next] == old(result[..rc]) + UrlGroup(data)
  {
    hide UrlLetter;
    var byte0 := data[0] as int;
    next := Store(result, rc, UrlLetter(byte0 / 4));
    if pad == 2 {
      next := Store(result, next, UrlLetter(byte0 % 4 * 16));
    } else if pad == 1 {
      var byte1 := data[1] as int;
      next := Store(result, next, UrlLetter(byte0 % 4 * 16 + byte1 / 16));
      next := Store(result, next, UrlLetter(byte1 % 16 * 4));
    }
  }

  /**
   * `base64url_encode`. It fills a buffer of a length computed beforehand, exactly and in bounds. The text is the
   * base64 text with two letters exchanged and the padding stripped: section 5 of RFC 4648.
   */
  method UrlEncode(data: Bytes) returns (text: string)
    ensures text == TranslatedText(Stripped(Encoded(data)))
  {
    hide Letters, UrlGroup, TranslatedText, Encoded, Stripped;
    var resultLen, pad := UrlLength(|data|);
    LettersAreStripped(data);
    LetterCount(data);
    var result := new char[resultLen](_ => '\0');
    var rc, byteNo := 0, 0;
    assert data[0..] == data && result[..0] == "";
    NothingTranslated();
    while byteNo + 3 <= |data|
      invariant byteNo % 3 == 0 && byteNo <= |data|
      invariant rc == byteNo / 3 * 4 && rc + |Letters(data[byteNo..])| == result.Length
      invariant result[..rc] + TranslatedText(Letters(data[byteNo..])) == TranslatedText(Letters(data))
    {
      UrlStep(data, byteNo, result[..rc]);
      LetterCounts(data, byteNo);
      rc := StoreGroup(result, rc, data[byteNo..]);
      byteNo := byteNo + 3;
    }
    LetterCounts(data, byteNo);
    if pad != 0 {
      UrlStep(data, byteNo, result[..rc]);
      rc := StoreTail(result, rc, data[byteNo..], pad);
    }
    NoLetters(data[|data|..]);
    text := result[..];
    assert result[..rc] == text;
  }

  /** How many letters are left at a group. */
  lemma LetterCounts(s: Bytes, i: nat)
    requires i <= |s| && i % 3 == 0
    ensures i + 3 <= |s| ==> |Letters(s[i..])| == 4 + |Letters(s[i + 3..])|
    ensures i + 3 > |s| ==> |s| - i == (3 - PadCount(|s|)) % 3
    ensures i + 3 > |s| ==> |Letters(s[i..])| == if i == |s| then 0 else 4 - PadCount(|s|)
  {
    hide Group, Letters;
    if i < |s| {
      LettersStep(s, i);
    }
    NoLetters(s[|s|..]);
  }
}
