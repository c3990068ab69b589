/**
 * What the recursive-descent half of `Json::Reader` makes of a document: the specification that `ReadValue`,
 * `ReadObject`, `ReadArray` and `Parse` of class `Reader` are proved against.
 */
module JsonGrammar {
  import opened JsonValue
  import opened JsonNumber
  import opened JsonScan
  import opened JsonString

  /** The features that `Features::all()` and `Features::strictMode()` set differently. */
  datatype Features = Features(allowComments: bool, strictRoot: bool)

  /** A document, the reader's features, and how a number that is no 64-bit integer becomes a double. */
  datatype Input = Input(doc: string, features: Features, toDouble: string -> Option<real>)

  const STACK_LIMIT := 1000

  const SYNTAX_ERROR := "Syntax error: value, object or array expected."
  const MISSING_COLON := "Missing ':' after object member name"
  const MISSING_COMMA_IN_OBJECT := "Missing ',' or '}' in object declaration"
  const MISSING_NAME := "Missing '}' or object member name"
  const MISSING_COMMA_IN_ARRAY := "Missing ',' or ']' in array declaration"
  const BAD_ROOT := "A valid JSON document must be either an array or an object value."

  /**
   * The outcome of reading one value into a node of the tree: the node's new content and the position reached.
   * A failure has recorded one error and may have left the depth counter one too high (`leak`). `Overflow` is the
   * exception thrown at the stack limit.
   */
  datatype Parsed =
    | Read(value: Value, next: nat)
    | Failed(value: Value, next: nat, error: ErrorInfo, leak: nat)
    | Overflow

  function TokenText(x: Input, t: Token): string
    requires t.start <= t.end <= |x.doc|
  {
    x.doc[t.start..t.end]
  }

  /** `decodeNumber`, with `decodeDouble` for what does not fit 64 bits. */
  function NumberOf(x: Input, t: Token): Option<Value>
    requires t.start <= t.end <= |x.doc|
  {
    match DecodedInteger(TokenText(x, t))
    case Some(v) => Some(v)
    case None =>
      match x.toDouble(TokenText(x, t))
      case Some(r) => Some(Real(r))
      case None => None
  }

  function NotANumber(x: Input, t: Token): ErrorInfo
    requires t.start <= t.end <= |x.doc|
  {
    ErrorInfo(t, "'" + TokenText(x, t) + "' is not a number.", None)
  }

  /** The token `skipCommentTokens` stops at. */
  function SkippedTo(x: Input, p: nat): (t: Token)
    requires p <= |x.doc|
    ensures p <= t.end <= |x.doc| && t.start <= t.end
    ensures t.kind != EndOfStream ==> p < t.end
    ensures t.kind == StringToken ==> t.start + 2 <= t.end
  {
    if x.features.allowComments then NextToken(x, p) else TokenAt(x.doc, p)
  }

  /** The first token from `p` on that is no comment. */
  function NextToken(x: Input, p: nat): (t: Token)
    requires p <= |x.doc|
    ensures p <= t.end <= |x.doc| && t.start <= t.end && t.kind != CommentToken
    ensures t.kind != EndOfStream ==> p < t.end
    ensures t.kind == StringToken ==> t.start + 2 <= t.end
    decreases |x.doc| - p
  {
    var t := TokenAt(x.doc, p);
    if t.kind == CommentToken then NextToken(x, t.end) else t
  }

  /** A failure inside a container: the container keeps what was stored, and the reader skips to its closing token. */
  function Abandon(x: Input, v: Value, p: nat, e: ErrorInfo, leak: nat, closing: TokenType): (r: Parsed)
    requires p <= |x.doc|
    ensures r.Failed? && r.next <= |x.doc|
  {
    Failed(v, Recovered(x.doc, p, closing), e, leak)
  }

  /** The cases of `readValue` for a token that opens no container. Only the last one leaves the depth counter high. */
  function ScalarAt(x: Input, t: Token, prior: Value): (r: Parsed)
    requires t.start <= t.end <= |x.doc| && (t.kind == StringToken ==> t.start + 2 <= t.end)
    ensures r.Read? ==> r.next == t.end && t.kind != EndOfStream
    ensures r.Failed? ==> r.next == t.end && r.leak <= 1
    ensures !r.Overflow?
  {
    match t.kind
    case NumberToken =>
      (match NumberOf(x, t)
       case Some(v) => Read(v, t.end)
       case None => Failed(prior, t.end, NotANumber(x, t), 0))
    case StringToken =>
      (match StringAt(x.doc, t)
       case Text(s) => Read(Str(s), t.end)
       case BadText(e) => Failed(prior, t.end, e, 0))
    case TrueToken => Read(Bool(true), t.end)
    case FalseToken => Read(Bool(false), t.end)
    case NullToken => Read(Null, t.end)
    case _ => Failed(prior, t.end, ErrorInfo(t, SYNTAX_ERROR, None), 1)
  }

  /** `readValue` at `p`, with `depth` values open, into a node that holds `prior`. */
  function ValueAt(x: Input, p: nat, depth: nat, prior: Value): (r: Parsed)
    requires p <= |x.doc|
    ensures r.Read? ==> p < r.next <= |x.doc|
    ensures r.Failed? ==> r.next <= |x.doc| && r.leak <= 1
    decreases |x.doc| - p, 1
  {
    if depth >= STACK_LIMIT then Overflow
    else
      var t := SkippedTo(x, p);
      match t.kind
      case ObjectBegin => MembersAt(x, t.end, depth + 1, [], "")
      case ArrayBegin => ArrayAt(x, t.end, depth + 1)
      case _ => ScalarAt(x, t, prior)
  }

  /** The loop of `readObject` at `p`: `m` has been read so far, the last member under `name`. */
  function MembersAt(x: Input, p: nat, depth: nat, m: seq<Entry>, name: string): (r: Parsed)
    requires p <= |x.doc|
    ensures r.Read? ==> p < r.next <= |x.doc|
    ensures r.Failed? ==> r.next <= |x.doc| && r.leak <= 1
    decreases |x.doc| - p, 0
  {
    var t := NextToken(x, p);
    if t.kind == ObjectEnd && name == "" then Read(Object(m), t.end)
    else if t.kind != StringToken then
      Abandon(x, Object(m), t.end, ErrorInfo(t, MISSING_NAME, None), 0, ObjectEnd)
    else
      match StringAt(x.doc, t)
      case BadText(e) => Abandon(x, Object(m), t.end, e, 0, ObjectEnd)
      case Text(newName) =>
        var colon := TokenAt(x.doc, t.end);
        if colon.kind != MemberSeparator then
          Abandon(x, Object(m), colon.end, ErrorInfo(colon, MISSING_COLON, None), 0, ObjectEnd)
        else
          MemberValueAt(x, colon.end, depth, m, newName)
  }

  /** The rest of a member, after its colon: the value, what separates it from the next member, and that member. */
  function MemberValueAt(x: Input, p: nat, depth: nat, m: seq<Entry>, name: string): (r: Parsed)
    requires p <= |x.doc|
    ensures r.Read? ==> p < r.next <= |x.doc|
    ensures r.Failed? ==> r.next <= |x.doc| && r.leak <= 1
    decreases |x.doc| - p, 2
  {
    var k := Name(name);
    match ValueAt(x, p, depth, Current(m, k))
    case Overflow => Overflow
    case Failed(v, q, e, leak) => Abandon(x, Object(Put(m, k, v)), q, e, leak, ObjectEnd)
    case Read(v, q) =>
      var comma := TokenAt(x.doc, q);
      if comma.kind !in {ObjectEnd, ArraySeparator, CommentToken} then
        Abandon(x, Object(Put(m, k, v)), comma.end, ErrorInfo(comma, MISSING_COMMA_IN_OBJECT, None), 0, ObjectEnd)
      else
        var next := NextToken(x, q);
        if next.kind == ObjectEnd then Read(Object(Put(m, k, v)), next.end)
        else MembersAt(x, next.end, depth, Put(m, k, v), name)
  }

  /** `readArray` after the opening bracket. */
  function ArrayAt(x: Input, p: nat, depth: nat): (r: Parsed)
    requires p <= |x.doc|
    ensures r.Read? ==> p < r.next <= |x.doc|
    ensures r.Failed? ==> r.next <= |x.doc| && r.leak <= 1
    decreases |x.doc| - p, 3
  {
    var q := SkipSpaces(x.doc, p);
    if CharAt(x.doc, q) == ']' then Read(Array([]), TokenAt(x.doc, q).end)
    else ElementsAt(x, q, depth, [], 0)
  }

  /** The loop of `readArray` at `p`: `m` holds the elements below `index`. */
  function ElementsAt(x: Input, p: nat, depth: nat, m: seq<Entry>, index: nat): (r: Parsed)
    requires p <= |x.doc|
    ensures r.Read? ==> p < r.next <= |x.doc|
    ensures r.Failed? ==> r.next <= |x.doc| && r.leak <= 1
    decreases |x.doc| - p, 2
  {
    var k := Index(index);
    match ValueAt(x, p, depth, Current(m, k))
    case Overflow => Overflow
    case Failed(v, q, e, leak) => Abandon(x, Array(Put(m, k, v)), q, e, leak, ArrayEnd)
    case Read(v, q) =>
      var t := NextToken(x, q);
      if t.kind == ArrayEnd then Read(Array(Put(m, k, v)), t.end)
      else if t.kind != ArraySeparator then
        Abandon(x, Array(Put(m, k, v)), t.end, ErrorInfo(t, MISSING_COMMA_IN_ARRAY, None), 0, ArrayEnd)
      else ElementsAt(x, t.end, depth, Put(m, k, v), index + 1)
  }

  /** How the first token decides what is read. */
  lemma ValueStep(x: Input, p: nat, depth: nat, prior: Value)
    requires p <= |x.doc|
    ensures var t := SkippedTo(x, p);
            ValueAt(x, p, depth, prior) ==
            if depth >= STACK_LIMIT then Overflow
            else if t.kind == ObjectBegin then MembersAt(x, t.end, depth + 1, [], "")
            else if t.kind == ArrayBegin then ArrayAt(x, t.end, depth + 1)
            else ScalarAt(x, t, prior)
  {
  }

  /** After the opening bracket: the empty array, or the first element. */
  lemma ArrayStep(x: Input, p: nat, depth: nat)
    requires p <= |x.doc|
    ensures var q := SkipSpaces(x.doc, p);
            ArrayAt(x, p, depth) ==
            if CharAt(x.doc, q) == ']' then Read(Array([]), TokenAt(x.doc, q).end) else ElementsAt(x, q, depth, [], 0)
  {
  }

  /** One round of the loop of `readArray`, with the element's outcome `r`. */
  lemma ElementsStep(x: Input, p: nat, depth: nat, m: seq<Entry>, index: nat, r: Parsed)
    requires p <= |x.doc| && r == ValueAt(x, p, depth, Current(m, Index(index)))
    ensures var k := Index(index);
            match r
            case Overflow => ElementsAt(x, p, depth, m, index) == Overflow
            case Failed(v, q, e, leak) =>
              q <= |x.doc| && ElementsAt(x, p, depth, m, index) == Abandon(x, Array(Put(m, k, v)), q, e, leak, ArrayEnd)
            case Read(v, q) =>
              p < q <= |x.doc| &&
              var t := NextToken(x, q);
              ElementsAt(x, p, depth, m, index) ==
              if t.kind == ArrayEnd then Read(Array(Put(m, k, v)), t.end)
              else if t.kind != ArraySeparator then
                Abandon(x, Array(Put(m, k, v)), t.end, ErrorInfo(t, MISSING_COMMA_IN_ARRAY, None), 0, ArrayEnd)
              else ElementsAt(x, t.end, depth, Put(m, k, v), index + 1)
  {
  }

  /** The first half of a round of `readObject`: the token of the name, and the colon. */
  lemma MembersStep(x: Input, p: nat, depth: nat, m: seq<Entry>, name: string)
    requires p <= |x.doc|
    ensures var t := NextToken(x, p);
            if t.kind == ObjectEnd && name == "" then MembersAt(x, p, depth, m, name) == Read(Object(m), t.end)
            else if t.kind != StringToken then
              MembersAt(x, p, depth, m, name) ==
              Abandon(x, Object(m), t.end, ErrorInfo(t, MISSING_NAME, None), 0, ObjectEnd)
            else
              match StringAt(x.doc, t)
              case BadText(e) => MembersAt(x, p, depth, m, name) == Abandon(x, Object(m), t.end, e, 0, ObjectEnd)
              case Text(newName) =>
                var colon := TokenAt(x.doc, t.end);
                MembersAt(x, p, depth, m, name) ==
                if colon.kind != MemberSeparator
                then Abandon(x, Object(m), colon.end, ErrorInfo(colon, MISSING_COLON, None), 0, ObjectEnd)
                else MemberValueAt(x, colon.end, depth, m, newName)
  {
  }

  /** The second half of a round of `readObject`, with the member's outcome `r`. */
  lemma MemberValueStep(x: Input, p: nat, depth: nat, m: seq<Entry>, name: string, r: Parsed)
    requires p <= |x.doc| && r == ValueAt(x, p, depth, Current(m, Name(name)))
    ensures var k := Name(name);
            match r
            case Overflow => MemberValueAt(x, p, depth, m, name) == Overflow
            case Failed(v, q, e, leak) =>
              q <= |x.doc| &&
              MemberValueAt(x, p, depth, m, name) == Abandon(x, Object(Put(m, k, v)), q, e, leak, ObjectEnd)
            case Read(v, q) =>
              p < q <= |x.doc| &&
              var comma, next := TokenAt(x.doc, q), NextToken(x, q);
              MemberValueAt(x, p, depth, m, name) ==
              if comma.kind != ObjectEnd && comma.kind != ArraySeparator && comma.kind != CommentToken then
                Abandon(x, Object(Put(m, k, v)), comma.end, ErrorInfo(comma, MISSING_COMMA_IN_OBJECT, None), 0,
                        ObjectEnd)
              else if next.kind == ObjectEnd then Read(Object(Put(m, k, v)), next.end)
              else MembersAt(x, next.end, depth, Put(m, k, v), name)
  {
  }

  /** What `parse` leaves behind: its answer, the tree and the errors; or the exception at the stack limit. */
  datatype Outcome =
    | Finished(ok: bool, root: Value, errors: seq<ErrorInfo>)
    | Aborted

  /** The error of a strict reader about a root that is neither array nor object. */
  function RootErrors(x: Input, root: Value): seq<ErrorInfo> {
    if x.features.strictRoot && !root.Array? && !root.Object?
    then [ErrorInfo(Token(ErrorToken, 0, |x.doc|), BAD_ROOT, None)]
    else []
  }

  /** `parse` of a whole document into a root that holds `prior`. What follows the root value is ignored. */
  function DocumentOf(x: Input, prior: Value): Outcome {
    match ValueAt(x, 0, 0, prior)
    case Overflow => Aborted
    case Failed(v, _, e, _) => Finished(false, v, [e] + RootErrors(x, v))
    case Read(v, _) => Finished(RootErrors(x, v) == [], v, RootErrors(x, v))
  }
}
