/**
 * What the tokenizer of `Json::Reader` does to a document `d` from a position `p`: the specification that the
 * methods of class `Reader` are proved against. Reading at the end of the document gives the terminating NUL.
 */
module JsonScan {
  import opened JsonValue

  datatype TokenType =
    | EndOfStream
    | ObjectBegin
    | ObjectEnd
    | ArrayBegin
    | ArrayEnd
    | StringToken
    | NumberToken
    | TrueToken
    | FalseToken
    | NullToken
    | ArraySeparator
    | MemberSeparator
    | CommentToken
    | ErrorToken

  datatype Token = Token(kind: TokenType, start: nat, end: nat)

  /** `Reader::ErrorInfo`. */
  datatype ErrorInfo = ErrorInfo(token: Token, message: string, extra: Option<nat>)

  /** `*current_`. */
  function CharAt(d: string, p: nat): char {
    if p < |d| then d[p] else '\0'
  }

  /** Where `getNextChar` leaves `current_`. */
  function After(d: string, p: nat): (q: nat)
    requires p <= |d|
    ensures p <= q <= |d|
  {
    if p < |d| then p + 1 else p
  }

  predicate IsSpace(c: char) {
    c == ' ' || c == '\t' || c == '\r' || c == '\n'
  }

  function SkipSpaces(d: string, p: nat): (q: nat)
    requires p <= |d|
    ensures p <= q <= |d|
    ensures forall i :: p <= i < q ==> IsSpace(d[i])
    ensures q < |d| ==> !IsSpace(d[q])
    decreases |d| - p
  {
    if p < |d| && IsSpace(d[p]) then SkipSpaces(d, p + 1) else p
  }

  /** The word `w` stands at `p`. */
  predicate Matches(d: string, p: nat, w: string) {
    p + |w| <= |d| && forall i :: 0 <= i < |w| ==> d[p + i] == w[i]
  }

  lemma MatchesSplit(d: string, p: nat, a: string, b: string)
    ensures Matches(d, p, a + b) <==> Matches(d, p, a) && Matches(d, p + |a|, b)
  {
    var w := a + b;
    assert forall i :: 0 <= i < |a| ==> w[i] == a[i];
    assert forall i :: 0 <= i < |b| ==> w[|a| + i] == b[i];
    if Matches(d, p, w) {
      forall i | 0 <= i < |b|
        ensures d[p + |a| + i] == b[i]
      {
        assert d[p + (|a| + i)] == w[|a| + i];
      }
    }
    if Matches(d, p, a) && Matches(d, p + |a|, b) {
      forall i | 0 <= i < |w|
        ensures d[p + i] == w[i]
      {
        assert i >= |a| ==> d[p + |a| + (i - |a|)] == b[i - |a|];
      }
    }
  }

  function SkipDigits(d: string, p: nat): (q: nat)
    requires p <= |d|
    ensures p <= q <= |d|
    decreases |d| - p
  {
    if p < |d| && '0' <= d[p] <= '9' then SkipDigits(d, p + 1) else p
  }

  /** The end of the optional fraction at `p`. */
  function FractionEnd(d: string, p: nat): (q: nat)
    requires p <= |d|
    ensures p <= q <= |d|
  {
    if CharAt(d, p) == '.' then SkipDigits(d, p + 1) else p
  }

  /** The end of the optional exponent at `p`. */
  function ExponentEnd(d: string, p: nat): (q: nat)
    requires p <= |d|
    ensures p <= q <= |d|
  {
    if CharAt(d, p) == 'e' || CharAt(d, p) == 'E' then
      if CharAt(d, p + 1) == '+' || CharAt(d, p + 1) == '-' then SkipDigits(d, p + 2) else SkipDigits(d, p + 1)
    else p
  }

  /** The end of the number whose first character stands before `p`. */
  function NumberEnd(d: string, p: nat): (q: nat)
    requires p <= |d|
    ensures p <= q <= |d|
  {
    ExponentEnd(d, FractionEnd(d, SkipDigits(d, p)))
  }

  /** The position after the closing quote, when there is one. */
  function ClosingQuote(d: string, p: nat): (q: Option<nat>)
    requires p <= |d|
    ensures q.Some? ==> p < q.value <= |d|
    decreases |d| - p
  {
    if p == |d| then None
    else if d[p] == '\\' then ClosingQuote(d, After(d, p + 1))
    else if d[p] == '"' then Some(p + 1)
    else ClosingQuote(d, p + 1)
  }

  /** The position after the closing star and slash, when there is one. */
  function CStyleCommentEnd(d: string, p: nat): (q: Option<nat>)
    requires p <= |d|
    ensures q.Some? ==> p < q.value <= |d|
    decreases |d| - p
  {
    if p == |d| then None
    else if d[p] == '*' && CharAt(d, p + 1) == '/' then Some(p + 2)
    else CStyleCommentEnd(d, p + 1)
  }

  /** The position after the end of the line. */
  function CppStyleCommentEnd(d: string, p: nat): (q: nat)
    requires p <= |d|
    ensures p <= q <= |d|
    decreases |d| - p
  {
    if p == |d| then p
    else if d[p] == '\n' then p + 1
    else if d[p] == '\r' then (if CharAt(d, p + 1) == '\n' then p + 2 else p + 1)
    else CppStyleCommentEnd(d, p + 1)
  }

  /** A scanned piece of text: whether it is well formed, and where scanning stopped. */
  datatype Scan = Scan(ok: bool, end: nat)

  function Found(d: string, q: Option<nat>): Scan {
    match q
    case Some(e) => Scan(true, e)
    case None => Scan(false, |d|)
  }

  /** `readComment`, entered after the first slash. */
  function CommentScan(d: string, p: nat): (s: Scan)
    requires p <= |d|
    ensures p <= s.end <= |d|
  {
    var c, q := CharAt(d, p), After(d, p);
    if c == '*' then Found(d, CStyleCommentEnd(d, q))
    else if c == '/' then Scan(true, CppStyleCommentEnd(d, q))
    else Scan(false, q)
  }

  /** `match`: the rest of a literal. */
  function WordScan(d: string, p: nat, w: string): (s: Scan)
    requires p <= |d|
    ensures p <= s.end <= |d|
  {
    if Matches(d, p, w) then Scan(true, p + |w|) else Scan(false, p)
  }

  /** A token of the given kind, or an error token when the text is ill formed. */
  function Make(kind: TokenType, start: nat, s: Scan): Token {
    Token(if s.ok then kind else ErrorToken, start, s.end)
  }

  /** The token whose first character is the one before `e`; `c` is that character. */
  function TokenFrom(d: string, start: nat, c: char, e: nat): (t: Token)
    requires e <= |d|
    ensures t.start == start && e <= t.end <= |d|
    ensures t.kind == EndOfStream <==> c == '\0'
    ensures t.kind == StringToken ==> e < t.end
  {
    if c == '{' then Token(ObjectBegin, start, e)
    else if c == '}' then Token(ObjectEnd, start, e)
    else if c == '[' then Token(ArrayBegin, start, e)
    else if c == ']' then Token(ArrayEnd, start, e)
    else if c == '"' then Make(StringToken, start, Found(d, ClosingQuote(d, e)))
    else if c == '/' then Make(CommentToken, start, CommentScan(d, e))
    else if '0' <= c <= '9' || c == '-' then Token(NumberToken, start, NumberEnd(d, e))
    else if c == 't' then Make(TrueToken, start, WordScan(d, e, "rue"))
    else if c == 'f' then Make(FalseToken, start, WordScan(d, e, "alse"))
    else if c == 'n' then Make(NullToken, start, WordScan(d, e, "ull"))
    else if c == ',' then Token(ArraySeparator, start, e)
    else if c == ':' then Token(MemberSeparator, start, e)
    else if c == '\0' then Token(EndOfStream, start, e)
    else Token(ErrorToken, start, e)
  }

  /** `readToken`: the next token. It advances, or the end of the document has been reached. */
  function TokenAt(d: string, p: nat): (t: Token)
    requires p <= |d|
    ensures p <= t.start <= t.end <= |d|
    ensures t.kind != EndOfStream ==> p < t.end && t.start < t.end
    ensures t.kind == EndOfStream && t.end == p ==> p == |d|
    ensures t.kind == StringToken ==> t.start + 2 <= t.end
  {
    var s := SkipSpaces(d, p);
    TokenFrom(d, s, CharAt(d, s), After(d, s))
  }

  /** Where `recoverFromError` stops: after the first token of the wanted kind, or at the end of the stream. */
  function Recovered(d: string, p: nat, wanted: TokenType): (q: nat)
    requires p <= |d|
    ensures p <= q <= |d|
    decreases |d| - p
  {
    var t := TokenAt(d, p);
    if t.kind == wanted || t.kind == EndOfStream then t.end else Recovered(d, t.end, wanted)
  }
}
