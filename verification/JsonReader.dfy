/**
 * Class `Json::Reader`. The document is NUL-terminated, as `std::string::c_str` gives it; a `Location` is an index
 * into it, and a `Value*` is a path into the tree that is being built. Comments are read but not attached to values.
 */
module JsonReader {
  import opened JsonValue
  import opened JsonNumber
  import opened JsonScan
  import opened JsonString
  import opened JsonUtf8
  import opened JsonGrammar
  import opened JsonPath
  import JsonSyntax
  import JsonAccept

  /** How a call ends: it returns, or the exception of the stack limit passes through it. */
  datatype Exit = Returned(ok: bool) | Threw

  /** The fields that reading a value changes. */
  datatype State = State(current: nat, nodes: seq<Path>, root: Value, errors: seq<ErrorInfo>, depth: nat)

  /**
   * Reading a value into the node on top of the stack, from state `a` to state `b`, did what the outcome `r` says,
   * and nothing else: one node of the tree has changed, the stack is as before, a failure has added one error.
   */
  ghost predicate Did(r: Parsed, exit: Exit, a: State, b: State)
    requires a.nodes != []
  {
    match r
    case Read(v, q) =>
      Resolves(a.root, a.nodes[|a.nodes| - 1]) &&
      exit == Returned(true) && b == a.(current := q, root := Set(a.root, a.nodes[|a.nodes| - 1], v))
    case Failed(v, q, e, leak) =>
      Resolves(a.root, a.nodes[|a.nodes| - 1]) &&
      exit == Returned(false) &&
      b == a.(current := q, root := Set(a.root, a.nodes[|a.nodes| - 1], v), errors := a.errors + [e],
              depth := a.depth + leak)
    case Overflow =>
      exit == Threw && b.errors == a.errors && b.depth == STACK_LIMIT
  }

  /** The same for a scalar, which never throws; a failure leaves the node alone. */
  ghost predicate DidScalar(r: Parsed, successful: bool, known: bool, a: State, b: State)
    requires a.nodes != []
  {
    Resolves(a.root, a.nodes[|a.nodes| - 1]) &&
    match r
    case Read(v, _) => successful && known && b == a.(root := Set(a.root, a.nodes[|a.nodes| - 1], v))
    case Failed(v, _, e, leak) =>
      !successful && (known <==> leak == 0) && b == a.(errors := a.errors + [e]) &&
      v == Get(a.root, a.nodes[|a.nodes| - 1])
    case Overflow => false
  }

  class Reader {
    const features_: Features
    const toDouble: string -> Option<real>

    var document_: string
    var current_: nat
    var nodes_: seq<Path>
    var root_: Value
    var errors_: seq<ErrorInfo>
    var stackDepth_: nat

    constructor (features: Features, toDouble: string -> Option<real>)
      ensures features_ == features && this.toDouble == toDouble && errors_ == []
    {
      features_, this.toDouble := features, toDouble;
      document_, current_, nodes_, root_, errors_, stackDepth_ := "", 0, [], Null, [], 0;
    }

    ghost function In(): Input
      reads this`document_
    {
      Input(document_, features_, toDouble)
    }

    ghost function Now(): State
      reads this
    {
      State(current_, nodes_, root_, errors_, stackDepth_)
    }

    /** The position lies in the document. */
    ghost predicate InDocument()
      reads this`document_, this`current_
    {
      current_ <= |document_|
    }

    /** There is a current value. */
    ghost predicate HasNode()
      reads this`nodes_, this`root_
    {
      nodes_ != [] && Resolves(root_, nodes_[|nodes_| - 1])
    }

    ghost function CurrentValue(): Value
      requires HasNode()
      reads this`nodes_, this`root_
    {
      Get(root_, nodes_[|nodes_| - 1])
    }

    // ---- Characters and tokens ----

    method GetNextChar() returns (c: char)
      requires InDocument()
      modifies this`current_
      ensures c == CharAt(document_, old(current_)) && current_ == After(document_, old(current_))
    {
      if current_ == |document_| {
        return '\0';
      }
      c := document_[current_];
      current_ := current_ + 1;
    }

    method SkipSpaces()
      requires InDocument()
      modifies this`current_
      ensures current_ == JsonScan.SkipSpaces(document_, old(current_))
    {
      while current_ != |document_|
        invariant current_ <= |document_|
        invariant JsonScan.SkipSpaces(document_, current_) == JsonScan.SkipSpaces(document_, old(current_))
      {
        if !IsSpace(document_[current_]) {
          break;
        }
        current_ := current_ + 1;
      }
    }

    method Match(pattern: string) returns (ok: bool)
      requires InDocument()
      modifies this`current_
      ensures Scan(ok, current_) == WordScan(document_, old(current_), pattern)
    {
      if |document_| - current_ < |pattern| {
        return false;
      }
      var index := |pattern|;
      while index > 0
        invariant 0 <= index <= |pattern| <= |document_| - current_
        invariant forall i :: index <= i < |pattern| ==> document_[current_ + i] == pattern[i]
      {
        index := index - 1;
        if document_[current_ + index] != pattern[index] {
          return false;
        }
      }
      current_ := current_ + |pattern|;
      ok := true;
    }

    method ReadComment() returns (ok: bool)
      requires InDocument()
      modifies this`current_
      ensures Scan(ok, current_) == CommentScan(document_, old(current_))
    {
      var c := GetNextChar();
      ok := false;
      if c == '*' {
        ok := ReadCStyleComment();
      } else if c == '/' {
        ReadCppStyleComment();
        ok := true;
      }
    }

    method ReadCStyleComment() returns (ok: bool)
      requires InDocument()
      modifies this`current_
      ensures Scan(ok, current_) == Found(document_, CStyleCommentEnd(document_, old(current_)))
    {
      while current_ != |document_|
        invariant current_ <= |document_|
        invariant CStyleCommentEnd(document_, current_) == CStyleCommentEnd(document_, old(current_))
      {
        var c := GetNextChar();
        if c == '*' && CharAt(document_, current_) == '/' {
          break;
        }
      }
      var last := GetNextChar();
      ok := last == '/';
    }

    method ReadCppStyleComment()
      requires InDocument()
      modifies this`current_
      ensures current_ == CppStyleCommentEnd(document_, old(current_))
    {
      while current_ != |document_|
        invariant current_ <= |document_|
        invariant CppStyleCommentEnd(document_, current_) == CppStyleCommentEnd(document_, old(current_))
      {
        var c := GetNextChar();
        if c == '\n' {
          break;
        }
        if c == '\r' {
          if current_ != |document_| && document_[current_] == '\n' {
            var _ := GetNextChar();
          }
          break;
        }
      }
    }

    /** `c = (current_ = p) < end_ ? *p++ : 0` */
    method NextNumberChar(p: nat) returns (c: char, q: nat)
      requires p <= |document_|
      modifies this`current_
      ensures current_ == p && c == CharAt(document_, p) && q == After(document_, p)
    {
      current_ := p;
      if current_ < |document_| {
        c, q := document_[p], p + 1;
      } else {
        c, q := '\0', p;
      }
    }

    /** `c`, before position `p`, is a digit in the run that starts at `from`, or the character that ends the run. */
    ghost predicate InDigits(from: nat, c: char, p: nat)
      reads this`document_, this`current_
    {
      from <= |document_| && p <= |document_| &&
      if IsDigit(c) then SkipDigits(document_, p) == SkipDigits(document_, from)
      else
        current_ == SkipDigits(document_, from) && c == CharAt(document_, current_) && p == After(document_, current_)
    }

    /** One of the loops over digits: `c` is the last character read, `p` the position after it. */
    method ReadDigits(ghost from: nat, c: char, p: nat) returns (d: char, q: nat)
      requires InDigits(from, c, p)
      modifies this`current_
      ensures current_ == SkipDigits(document_, from)
      ensures d == CharAt(document_, current_) && q == After(document_, current_)
    {
      d, q := c, p;
      while '0' <= d <= '9'
        invariant InDigits(from, d, q)
        decreases |document_| - q, if IsDigit(d) then 1 else 0
      {
        d, q := NextNumberChar(q);
      }
    }

    method ReadNumber()
      requires InDocument()
      modifies this`current_
      ensures current_ == NumberEnd(document_, old(current_))
    {
      var c, p := ReadDigits(current_, '0', current_);
      c, p := ReadFraction(c, p);
      ReadExponent(c, p);
    }

    method ReadFraction(c: char, p: nat) returns (d: char, q: nat)
      requires InDocument() && c == CharAt(document_, current_) && p == After(document_, current_)
      modifies this`current_
      ensures current_ == FractionEnd(document_, old(current_))
      ensures d == CharAt(document_, current_) && q == After(document_, current_)
    {
      d, q := c, p;
      if c == '.' {
        d, q := NextNumberChar(p);
        d, q := ReadDigits(p, d, q);
      }
    }

    method ReadExponent(c: char, p: nat)
      requires InDocument() && c == CharAt(document_, current_) && p == After(document_, current_)
      modifies this`current_
      ensures current_ == ExponentEnd(document_, old(current_))
    {
      if c == 'e' || c == 'E' {
        var d, q := NextNumberChar(p);
        if d == '+' || d == '-' {
          d, q := NextNumberChar(q);
        }
        d, q := ReadDigits(current_, d, q);
      }
    }

    method ReadString() returns (ok: bool)
      requires InDocument()
      modifies this`current_
      ensures Scan(ok, current_) == Found(document_, ClosingQuote(document_, old(current_)))
    {
      var c := '\0';
      while current_ != |document_|
        invariant current_ <= |document_| && c != '"'
        invariant ClosingQuote(document_, current_) == ClosingQuote(document_, old(current_))
      {
        c := GetNextChar();
        if c == '\\' {
          var _ := GetNextChar();
        } else if c == '"' {
          break;
        }
      }
      ok := c == '"';
    }

    /** `readToken` always answers true, so it has no answer here; an ill-formed token has the kind `ErrorToken`. */
    method ReadToken() returns (token: Token)
      requires InDocument()
      modifies this`current_
      ensures token == TokenAt(document_, old(current_)) && current_ == token.end
    {
      SkipSpaces();
      var start := current_;
      var c := GetNextChar();
      var kind := ErrorToken;
      var fine := true;
      if c == '{' {
        kind := ObjectBegin;
      } else if c == '}' {
        kind := ObjectEnd;
      } else if c == '[' {
        kind := ArrayBegin;
      } else if c == ']' {
        kind := ArrayEnd;
      } else if c == '"' {
        kind := StringToken;
        fine := ReadString();
      } else if c == '/' {
        kind := CommentToken;
        fine := ReadComment();
      } else if '0' <= c <= '9' || c == '-' {
        kind := NumberToken;
        ReadNumber();
      } else if c == 't' {
        kind := TrueToken;
        fine := Match("rue");
      } else if c == 'f' {
        kind := FalseToken;
        fine := Match("alse");
      } else if c == 'n' {
        kind := NullToken;
        fine := Match("ull");
      } else if c == ',' {
        kind := ArraySeparator;
      } else if c == ':' {
        kind := MemberSeparator;
      } else if c == '\0' {
        kind := EndOfStream;
      } else {
        fine := false;
      }
      if !fine {
        kind := ErrorToken;
      }
      token := Token(kind, start, current_);
    }

    method SkipCommentTokens() returns (token: Token)
      requires InDocument()
      modifies this`current_
      ensures token == SkippedTo(In(), old(current_)) && current_ == token.end
    {
      token := ReadToken();
      if features_.allowComments {
        token := SkipComments(old(current_), token);
      }
    }

    /** The loop that reads on while the token, which was read at `from`, is a comment. */
    method SkipComments(ghost from: nat, first: Token) returns (token: Token)
      requires from <= |document_| && first == TokenAt(document_, from) && current_ == first.end
      modifies this`current_
      ensures token == NextToken(In(), from) && current_ == token.end
    {
      token := first;
      ghost var p := from;
      while token.kind == CommentToken
        invariant p <= |document_| && token == TokenAt(document_, p) && current_ == token.end
        invariant NextToken(In(), from) == NextToken(In(), p)
        decreases |document_| - p
      {
        p := current_;
        token := ReadToken();
      }
    }

    // ---- Errors ----

    method AddError(message: string, token: Token, extra: Option<nat>) returns (ok: bool)
      modifies this`errors_
      ensures !ok && errors_ == old(errors_) + [ErrorInfo(token, message, extra)]
    {
      errors_ := errors_ + [ErrorInfo(token, message, extra)];
      ok := false;
    }

    /** Skips to a token of the given kind. The errors recorded before are all kept. */
    method RecoverFromError(skipUntilToken: TokenType) returns (ok: bool)
      requires InDocument()
      modifies this`current_, this`errors_
      ensures !ok && current_ == Recovered(document_, old(current_), skipUntilToken) && errors_ == old(errors_)
    {
      var errorCount := |errors_|;
      while true
        invariant InDocument() && errors_ == old(errors_)
        invariant Recovered(document_, current_, skipUntilToken) ==
                  Recovered(document_, old(current_), skipUntilToken)
        decreases |document_| - current_
      {
        var skip := ReadToken();
        if skip.kind == skipUntilToken || skip.kind == EndOfStream {
          break;
        }
      }
      errors_ := errors_[..errorCount];
      ok := false;
    }

    method AddErrorAndRecover(message: string, token: Token, skipUntilToken: TokenType) returns (ok: bool)
      requires InDocument()
      modifies this`current_, this`errors_
      ensures !ok && current_ == Recovered(document_, old(current_), skipUntilToken)
      ensures errors_ == old(errors_) + [ErrorInfo(token, message, None)]
    {
      ok := AddError(message, token, None);
      ok := RecoverFromError(skipUntilToken);
    }

    // ---- Numbers and strings ----

    /** `decodeNumber` into a value, with `decodeDouble` for what is no 64-bit integer. */
    method DecodeNumber(token: Token) returns (ok: bool, decoded: Value)
      requires token.start <= token.end <= |document_|
      modifies this`errors_
      ensures ok <==> NumberOf(In(), token).Some?
      ensures ok ==> decoded == NumberOf(In(), token).value && errors_ == old(errors_)
      ensures !ok ==> errors_ == old(errors_) + [NotANumber(In(), token)]
    {
      var text := document_[token.start..token.end];
      var integer := DecodeInteger(text);
      if integer.Some? {
        return true, integer.value;
      }
      var value := toDouble(text);
      if value.None? {
        ok := AddError("'" + text + "' is not a number.", token, None);
        decoded := Null;
      } else {
        ok, decoded := true, Real(value.value);
      }
    }

    /** Four hexadecimal digits at `p`. */
    method DecodeUnicodeEscapeSequence(token: Token, p: nat, end: nat) returns (ok: bool, unicode: nat, q: nat)
      requires p <= end <= |document_|
      modifies this`errors_
      ensures match EscapeSequenceAt(document_, token, p, end)
              case Code(n, next) => ok && unicode == n && q == next && errors_ == old(errors_)
              case BadCode(e) => !ok && errors_ == old(errors_) + [e]
    {
      hide HexDigits;
      unicode, q := 0, p;
      if end - p < 4 {
        ok := AddError(FOUR_DIGITS, token, Some(p));
        return;
      }
      for index := 0 to 4
        invariant q == p + index && errors_ == old(errors_)
        invariant HexDigits(document_, token, q, 4 - index, unicode) == HexDigits(document_, token, p, 4, 0)
      {
        var c := document_[q];
        HexDigitsStep(document_, token, q, 4 - index, unicode);
        q := q + 1;
        unicode := unicode * 16;
        if '0' <= c <= '9' {
          unicode := unicode + (c as int - '0' as int);
        } else if 'a' <= c <= 'f' {
          unicode := unicode + (c as int - 'a' as int + 10);
        } else if 'A' <= c <= 'F' {
          unicode := unicode + (c as int - 'A' as int + 10);
        } else {
          ok := AddError(HEX_DIGIT, token, Some(q));
          return;
        }
      }
      HexDigitsStep(document_, token, q, 0, unicode);
      ok := true;
    }

    /** One escape, or two for a surrogate pair. */
    method DecodeUnicodeCodePoint(token: Token, p: nat, end: nat) returns (ok: bool, unicode: nat, q: nat)
      requires p <= end <= |document_|
      modifies this`errors_
      ensures match CodePointAt(document_, token, p, end)
              case Code(n, next) => ok && unicode == n && q == next && errors_ == old(errors_)
              case BadCode(e) => !ok && errors_ == old(errors_) + [e]
    {
      ok, unicode, q := DecodeUnicodeEscapeSequence(token, p, end);
      if !ok {
        return;
      }
      if 0xD800 <= unicode <= 0xDBFF {
        if end - q < 6 {
          ok := AddError(SIX_CHARACTERS, token, Some(q));
          return;
        }
        var another := false;
        q := q + 1;
        if document_[q - 1] == '\\' {
          q := q + 1;
          another := document_[q - 1] == 'u';
        }
        if another {
          var surrogatePair;
          ok, surrogatePair, q := DecodeUnicodeEscapeSequence(token, q, end);
          if ok {
            unicode := 0x10000 + unicode % 0x400 * 0x400 + surrogatePair % 0x400;
          }
        } else {
          ok := AddError(ANOTHER_ESCAPE, token, Some(q));
        }
      }
    }

    method DecodeString(token: Token) returns (ok: bool, decoded: string)
      requires token.start + 2 <= token.end <= |document_|
      modifies this`errors_
      ensures match StringAt(document_, token)
              case Text(s) => ok && decoded == s && errors_ == old(errors_)
              case BadText(e) => !ok && errors_ == old(errors_) + [e]
    {
      hide CodePointAt, CodePointToUTF8;
      var current, end := token.start + 1, token.end - 1;
      decoded := "";
      while current != end
        invariant current <= end && errors_ == old(errors_)
        invariant StringFrom(document_, token, current, end, decoded) == StringAt(document_, token)
      {
        var c := document_[current];
        current := current + 1;
        if c == '"' {
          break;
        } else if c == '\\' {
          if current == end {
            ok := AddError(EMPTY_ESCAPE, token, Some(current));
            return;
          }
          var escape := document_[current];
          current := current + 1;
          if escape == 'u' {
            var unicode;
            ok, unicode, current := DecodeUnicodeCodePoint(token, current, end);
            if !ok {
              return;
            }
            decoded := decoded + CodePointToUTF8(unicode);
          } else if Unescaped(escape).Some? {
            decoded := decoded + [Unescaped(escape).value];
          } else {
            ok := AddError(BAD_ESCAPE, token, Some(current));
            return;
          }
        } else {
          decoded := decoded + [c];
        }
      }
      ok := true;
    }

    // ---- Values ----

    /** `currentValue().swapPayload(v)` */
    method SwapPayload(v: Value)
      requires HasNode()
      modifies this`root_
      ensures HasNode() && CurrentValue() == v
      ensures root_ == Set(old(root_), nodes_[|nodes_| - 1], v)
    {
      GetSet(root_, nodes_[|nodes_| - 1], v);
      root_ := Set(root_, nodes_[|nodes_| - 1], v);
    }

    /** `currentValue()[key]`: a pointer to the entry, which is null when it was missing. */
    method Subscript(key: CZString) returns (pointer: Path)
      requires HasNode() && IsContainer(CurrentValue()) && Sorted(CurrentValue().entries)
      modifies this`root_
      ensures HasNode() && pointer == nodes_[|nodes_| - 1] + [key]
      ensures Resolves(root_, pointer) && Get(root_, pointer) == Current(old(CurrentValue()).entries, key)
      ensures CurrentValue() == Stored(old(CurrentValue()), key, Current(old(CurrentValue()).entries, key))
      ensures root_ == Set(old(root_), nodes_[|nodes_| - 1], CurrentValue())
    {
      hide Put, Find, LowerBound, KeyLess, Set, Resolves;
      var container := Get(root_, nodes_[|nodes_| - 1]);
      var value := Current(container.entries, key);
      PutSorted(container.entries, key, value);
      FindPut(container.entries, key, value, key);
      SwapPayload(Stored(container, key, value));
      pointer := nodes_[|nodes_| - 1] + [key];
      ExtendPath(root_, nodes_[|nodes_| - 1], key);
    }

    /** `decodeNumber` into the current node, which a failure leaves alone. */
    method DecodeNumberValue(token: Token) returns (ok: bool)
      requires HasNode() && token.start <= token.end <= |document_|
      modifies this`root_, this`errors_
      ensures match NumberOf(In(), token)
              case Some(v) => ok && errors_ == old(errors_) && root_ == Set(old(root_), nodes_[|nodes_| - 1], v)
              case None => !ok && errors_ == old(errors_) + [NotANumber(In(), token)] && root_ == old(root_)
    {
      var decoded;
      ok, decoded := DecodeNumber(token);
      if !ok {
        return;
      }
      SwapPayload(decoded);
    }

    /** `decodeString` into the current node, which a failure leaves alone. */
    method DecodeStringValue(token: Token) returns (ok: bool)
      requires HasNode() && token.start + 2 <= token.end <= |document_|
      modifies this`root_, this`errors_
      ensures match StringAt(document_, token)
              case Text(s) => ok && errors_ == old(errors_) && root_ == Set(old(root_), nodes_[|nodes_| - 1], Str(s))
              case BadText(e) => !ok && errors_ == old(errors_) + [e] && root_ == old(root_)
    {
      var decoded;
      ok, decoded := DecodeString(token);
      if !ok {
        return;
      }
      SwapPayload(Str(decoded));
    }

    /** Reads one value into the current node. */
    method ReadValue() returns (exit: Exit)
      requires InDocument() && HasNode() && stackDepth_ <= STACK_LIMIT
      modifies this`current_, this`nodes_, this`root_, this`errors_, this`stackDepth_
      ensures InDocument() && stackDepth_ <= STACK_LIMIT
      ensures Did(ValueAt(In(), old(current_), old(stackDepth_), old(CurrentValue())), exit, old(Now()), Now())
      decreases |document_| - current_, 1
    {
      hide ValueAt, MembersAt, ArrayAt, ScalarAt, Set, Get, Resolves, SkippedTo, TokenAt, Did, DidScalar;
      ValueStep(In(), current_, stackDepth_, CurrentValue());
      if stackDepth_ >= STACK_LIMIT {
        ThrowsAtOnce(Now());
        return Threw;
      }
      ghost var before := Now();
      stackDepth_ := stackDepth_ + 1;
      var token := SkipCommentTokens();
      assert Now() == before.(current := token.end, depth := before.depth + 1) && HasNode();
      if token.kind == ObjectBegin {
        exit := ReadObject();
        DidInside(before, token.end, Now(), MembersAt(In(), token.end, before.depth + 1, [], ""), exit);
      } else if token.kind == ArrayBegin {
        exit := ReadArray();
        DidInside(before, token.end, Now(), ArrayAt(In(), token.end, before.depth + 1), exit);
      } else {
        var successful, known := ReadScalar(token);
        exit := Returned(successful);
        ScalarInside(before, token.end, Now(), ScalarAt(In(), token, old(CurrentValue())), successful, known);
        if !known {
          return;
        }
      }
      if exit.Threw? {
        return;
      }
      stackDepth_ := stackDepth_ - 1;
    }

    /** The cases of `readValue` for a token that opens no container; `known` is false in the default case. */
    method ReadScalar(token: Token) returns (successful: bool, known: bool)
      requires HasNode() && token.start <= token.end <= |document_|
      requires token.kind == StringToken ==> token.start + 2 <= token.end
      modifies this`root_, this`errors_
      ensures DidScalar(ScalarAt(In(), token, old(CurrentValue())), successful, known, old(Now()), Now())
    {
      hide Set, Get, Resolves, TokenAt, StringAt, NumberOf, NotANumber;
      successful, known := true, true;
      match token.kind {
        case NumberToken =>
          successful := DecodeNumberValue(token);
        case StringToken =>
          successful := DecodeStringValue(token);
        case TrueToken =>
          SwapPayload(Bool(true));
        case FalseToken =>
          SwapPayload(Bool(false));
        case NullToken =>
          SwapPayload(Null);
        case _ =>
          successful := AddError(SYNTAX_ERROR, token, None);
          known := false;
      }
    }

    method ReadObject() returns (exit: Exit)
      requires InDocument() && HasNode() && stackDepth_ <= STACK_LIMIT
      modifies this`current_, this`nodes_, this`root_, this`errors_, this`stackDepth_
      ensures InDocument() && stackDepth_ <= STACK_LIMIT
      ensures Did(MembersAt(In(), old(current_), old(stackDepth_), [], ""), exit, old(Now()), Now())
      decreases |document_| - current_, 0
    {
      hide ValueAt, MembersAt, MemberValueAt, Set, Get, Resolves, Put, Find, LowerBound, Current, KeyLess, NextToken,
        TokenAt, Recovered, StringAt;
      ghost var before := Now();
      SwapPayload(Object([]));
      ghost var m: seq<Entry> := [];
      var name := "";
      while true
        invariant old(current_) <= current_ <= |document_| && Sorted(m)
        invariant Did(Read(Object(m), current_), Returned(true), before, Now())
        invariant MembersAt(In(), current_, stackDepth_, m, name) ==
                  MembersAt(In(), old(current_), stackDepth_, [], "")
        decreases |document_| - current_
      {
        ghost var middle, was := Now(), m;
        NodeAfter(before, middle, Object(m), current_);
        ghost var rest := MembersAt(In(), current_, stackDepth_, m, name);
        var more;
        exit, more, name := ReadMemberName(name, m);
        if !more {
          DidTwice(before, middle, Now(), Object(m), rest, exit);
          return;
        }
        DidTwice(before, middle, Now(), Object(m), Read(Object(m), current_), exit);
        middle := Now();
        NodeAfter(before, middle, Object(m), current_);
        exit, more, m := ReadMemberValue(name, m);
        DidTwice(before, middle, Now(), Object(was), if more then Read(Object(m), current_) else rest, exit);
        if !more {
          return;
        }
      }
    }

    /** The first half of the loop of `readObject`: the name and the colon, or the end of the object. */
    method ReadMemberName(name: string, ghost m: seq<Entry>) returns (exit: Exit, more: bool, newName: string)
      requires InDocument() && HasNode() && CurrentValue() == Object(m)
      modifies this`current_, this`errors_
      ensures InDocument()
      ensures var r := MembersAt(In(), old(current_), stackDepth_, m, name);
              if !more then Did(r, exit, old(Now()), Now())
              else
                exit == Returned(true) && old(current_) < current_ <= |document_| &&
                r == MemberValueAt(In(), current_, stackDepth_, m, newName) &&
                Did(Read(Object(m), current_), exit, old(Now()), Now())
    {
      hide ValueAt, MembersAt, MemberValueAt, Set, Get, Resolves, NextToken, TokenAt, Recovered, StringAt;
      SetSame(root_, nodes_[|nodes_| - 1]);
      MembersStep(In(), current_, stackDepth_, m, name);
      exit, more, newName := Returned(false), false, "";
      ghost var from := current_;
      var tokenName := ReadToken();
      tokenName := SkipComments(from, tokenName);
      if tokenName.kind == ObjectEnd && name == "" {
        exit := Returned(true);
        return;
      }
      if tokenName.kind != StringToken {
        var _ := AddErrorAndRecover(MISSING_NAME, tokenName, ObjectEnd);
        return;
      }
      var ok;
      ok, newName := DecodeString(tokenName);
      if !ok {
        var _ := RecoverFromError(ObjectEnd);
        return;
      }
      more := ReadColon();
      exit := Returned(more);
    }

    method ReadColon() returns (ok: bool)
      requires InDocument()
      modifies this`current_, this`errors_
      ensures InDocument()
      ensures var colon := TokenAt(document_, old(current_));
              if colon.kind == MemberSeparator then ok && current_ == colon.end && errors_ == old(errors_)
              else
                !ok && current_ == Recovered(document_, colon.end, ObjectEnd) &&
                errors_ == old(errors_) + [ErrorInfo(colon, MISSING_COLON, None)]
    {
      hide TokenAt, Recovered;
      var colon := ReadToken();
      ok := colon.kind == MemberSeparator;
      if !ok {
        var _ := AddErrorAndRecover(MISSING_COLON, colon, ObjectEnd);
      }
    }

    /**
     * The second half of the loop of `readObject`: the member's value and what separates it from the next member.
     * `m` is the content of the object before it, `n` the content after it when there is more to read.
     */
    method ReadMemberValue(name: string, ghost m: seq<Entry>) returns (exit: Exit, more: bool, ghost n: seq<Entry>)
      requires InDocument() && HasNode() && CurrentValue() == Object(m) && Sorted(m) && stackDepth_ <= STACK_LIMIT
      modifies this`current_, this`nodes_, this`root_, this`errors_, this`stackDepth_
      ensures InDocument() && stackDepth_ <= STACK_LIMIT
      ensures var r := MemberValueAt(In(), old(current_), old(stackDepth_), m, name);
              if !more then Did(r, exit, old(Now()), Now())
              else
                Sorted(n) && old(current_) < current_ <= |document_| &&
                r == MembersAt(In(), current_, stackDepth_, n, name) &&
                exit == Returned(true) && Did(Read(Object(n), current_), exit, old(Now()), Now())
      decreases |document_| - current_, 3
    {
      hide ValueAt, MembersAt, MemberValueAt, Set, Get, Resolves, Put, Find, LowerBound, Current, KeyLess, NextToken,
        TokenAt, Recovered;
      more, n := false, [];
      ghost var entry := ValueAt(In(), current_, stackDepth_, Current(m, Name(name)));
      MemberValueStep(In(), current_, stackDepth_, m, name, entry);
      exit := ReadEntry(Name(name));
      if exit.Threw? {
        return;
      }
      if !exit.ok {
        var _ := RecoverFromError(ObjectEnd);
        return;
      }
      PutSorted(m, Name(name), entry.value);
      n := Put(m, Name(name), entry.value);
      exit, more := ReadObjectSeparator();
    }

    /** What follows a member: a comma, the end of the object, or an error. */
    method ReadObjectSeparator() returns (exit: Exit, more: bool)
      requires InDocument()
      modifies this`current_, this`errors_
      ensures InDocument() && exit.Returned?
      ensures var comma, next := TokenAt(document_, old(current_)), NextToken(In(), old(current_));
              if comma.kind != ObjectEnd && comma.kind != ArraySeparator && comma.kind != CommentToken then
                !exit.ok && !more && current_ == Recovered(document_, comma.end, ObjectEnd) &&
                errors_ == old(errors_) + [ErrorInfo(comma, MISSING_COMMA_IN_OBJECT, None)]
              else exit.ok && (more <==> next.kind != ObjectEnd) && current_ == next.end && errors_ == old(errors_)
    {
      hide TokenAt, NextToken, Recovered;
      ghost var from := current_;
      var comma := ReadToken();
      if comma.kind != ObjectEnd && comma.kind != ArraySeparator && comma.kind != CommentToken {
        var _ := AddErrorAndRecover(MISSING_COMMA_IN_OBJECT, comma, ObjectEnd);
        return Returned(false), false;
      }
      comma := SkipComments(from, comma);
      exit, more := Returned(true), comma.kind != ObjectEnd;
    }

    method ReadArray() returns (exit: Exit)
      requires InDocument() && HasNode() && stackDepth_ <= STACK_LIMIT
      modifies this`current_, this`nodes_, this`root_, this`errors_, this`stackDepth_
      ensures InDocument() && stackDepth_ <= STACK_LIMIT
      ensures Did(ArrayAt(In(), old(current_), old(stackDepth_)), exit, old(Now()), Now())
      decreases |document_| - current_, 4
    {
      hide ValueAt, ArrayAt, ElementsAt, Set, Get, Resolves, Put, Find, LowerBound, Current, KeyLess, NextToken,
        TokenAt, Recovered;
      ghost var before := Now();
      ArrayStep(In(), current_, stackDepth_);
      SwapPayload(Array([]));
      SkipSpaces();
      if CharAt(document_, current_) == ']' {
        var endArray := ReadToken();
        return Returned(true);
      }
      ghost var m: seq<Entry> := [];
      var index := 0;
      while true
        invariant old(current_) <= current_ <= |document_| && Sorted(m)
        invariant Did(Read(Array(m), current_), Returned(true), before, Now())
        invariant ElementsAt(In(), current_, stackDepth_, m, index) == ArrayAt(In(), old(current_), stackDepth_)
        decreases |document_| - current_
      {
        ghost var middle, was := Now(), m;
        ghost var rest := ElementsAt(In(), current_, stackDepth_, m, index);
        NodeAfter(before, middle, Array(m), current_);
        var more;
        exit, more, m := ReadElement(index, m);
        DidTwice(before, middle, Now(), Array(was), if more then Read(Array(m), current_) else rest, exit);
        index := index + 1;
        if !more {
          return;
        }
      }
    }

    /**
     * One round of the loop of `readArray`: an element and what separates it from the next one. `m` is the content of
     * the array before it, `n` the content after it when there is more to read.
     */
    method ReadElement(index: nat, ghost m: seq<Entry>) returns (exit: Exit, more: bool, ghost n: seq<Entry>)
      requires InDocument() && HasNode() && CurrentValue() == Array(m) && Sorted(m) && stackDepth_ <= STACK_LIMIT
      modifies this`current_, this`nodes_, this`root_, this`errors_, this`stackDepth_
      ensures InDocument() && stackDepth_ <= STACK_LIMIT
      ensures var r := ElementsAt(In(), old(current_), old(stackDepth_), m, index);
              if !more then Did(r, exit, old(Now()), Now())
              else
                Sorted(n) && old(current_) < current_ <= |document_| &&
                r == ElementsAt(In(), current_, stackDepth_, n, index + 1) &&
                exit == Returned(true) && Did(Read(Array(n), current_), exit, old(Now()), Now())
      decreases |document_| - current_, 3
    {
      hide ValueAt, ElementsAt, Set, Get, Resolves, Put, Find, LowerBound, Current, KeyLess, NextToken, TokenAt,
        Recovered;
      more, n := false, [];
      ghost var entry := ValueAt(In(), current_, stackDepth_, Current(m, Index(index)));
      ElementsStep(In(), current_, stackDepth_, m, index, entry);
      exit := ReadEntry(Index(index));
      if exit.Threw? {
        return;
      }
      if !exit.ok {
        var _ := RecoverFromError(ArrayEnd);
        return;
      }
      PutSorted(m, Index(index), entry.value);
      n := Put(m, Index(index), entry.value);
      exit, more := ReadArraySeparator();
    }

    /** What follows an element: a comma, the end of the array, or an error. */
    method ReadArraySeparator() returns (exit: Exit, more: bool)
      requires InDocument()
      modifies this`current_, this`errors_
      ensures InDocument() && exit.Returned?
      ensures var t := NextToken(In(), old(current_));
              if t.kind == ArraySeparator || t.kind == ArrayEnd then
                exit.ok && (more <==> t.kind == ArraySeparator) && current_ == t.end && errors_ == old(errors_)
              else
                !exit.ok && !more && current_ == Recovered(document_, t.end, ArrayEnd) &&
                errors_ == old(errors_) + [ErrorInfo(t, MISSING_COMMA_IN_ARRAY, None)]
    {
      hide TokenAt, NextToken, Recovered;
      ghost var from := current_;
      var token := ReadToken();
      token := SkipComments(from, token);
      if token.kind != ArraySeparator && token.kind != ArrayEnd {
        var _ := AddErrorAndRecover(MISSING_COMMA_IN_ARRAY, token, ArrayEnd);
        return Returned(false), false;
      }
      exit, more := Returned(true), token.kind != ArrayEnd;
    }

    /** The lines that `readObject` and `readArray` share: push the entry under `key`, read a value into it, pop. */
    method ReadEntry(key: CZString) returns (exit: Exit)
      requires InDocument() && HasNode() && IsContainer(CurrentValue()) && Sorted(CurrentValue().entries)
      requires stackDepth_ <= STACK_LIMIT
      modifies this`current_, this`nodes_, this`root_, this`errors_, this`stackDepth_
      ensures InDocument() && stackDepth_ <= STACK_LIMIT
      ensures var r := ValueAt(In(), old(current_), old(stackDepth_), Current(old(CurrentValue()).entries, key));
              Did(InEntry(old(CurrentValue()), key, r), exit, old(Now()), Now())
      decreases |document_| - current_, 2
    {
      hide ValueAt, Set, Get, Resolves, Put, Find, Sorted, Current;
      ghost var before := Now();
      ghost var top := nodes_[|nodes_| - 1];
      ghost var r := ValueAt(In(), current_, stackDepth_, Current(CurrentValue().entries, key));
      if !r.Overflow? {
        StoreTouched(root_, top, key, r.value);
      }
      var pointer := Subscript(key);
      nodes_ := nodes_ + [pointer];
      exit := ReadValue();
      if exit.Threw? {
        return;
      }
      nodes_ := nodes_[..|nodes_| - 1];
      assert nodes_ == before.nodes;
    }

    /**
     * Parses a whole document into `root_`. Its answer is true exactly when no error was recorded. The depth counter
     * ends at 0 or, after a syntax error in place of a value, at 1; the stack holds the root alone again.
     */
    method Parse(document: string) returns (exit: Exit)
      modifies this
      ensures document_ == document
      ensures InDocument() && stackDepth_ <= STACK_LIMIT
      ensures match DocumentOf(In(), old(root_))
              case Aborted => exit == Threw && errors_ == []
              case Finished(ok, root, errors) =>
                exit == Returned(ok) && root_ == root && errors_ == errors && nodes_ == [[]] && stackDepth_ <= 1
      ensures exit == Returned(true) ==> stackDepth_ == 0
      ensures exit.Returned? ==> (exit.ok <==> errors_ == [])
      ensures forall v :: JsonSyntax.Accepts(In(), v) <==> exit == Returned(true) && v == root_
    {
      hide ValueAt, SkippedTo, JsonSyntax.Accepts;
      document_ := document;
      current_ := 0;
      errors_ := [];
      nodes_ := [[]];
      stackDepth_ := 0;
      ghost var r := ValueAt(In(), 0, 0, root_);
      assert r.Failed? ==> r.leak <= 1;
      AcceptedValues(In(), root_);
      exit := ReadValue();
      if exit.Threw? {
        return;
      }
      var token := SkipCommentTokens();
      if features_.strictRoot {
        if !root_.Array? && !root_.Object? {
          token := Token(ErrorToken, 0, |document_|);
          var ok := AddError(BAD_ROOT, token, None);
          return Returned(ok);
        }
      }
    }
  }

  lemma AcceptedValues(x: Input, prior: Value)
    ensures forall v :: JsonSyntax.Accepts(x, v) <==> DocumentOf(x, prior) == Finished(true, v, [])
  {
    hide DocumentOf, JsonSyntax.Accepts;
    forall v
      ensures JsonSyntax.Accepts(x, v) <==> DocumentOf(x, prior) == Finished(true, v, [])
    {
      JsonAccept.AcceptedExactly(x, prior, v);
    }
  }

  /** Storing into an entry that was touched before leaves no trace of the touch. */
  lemma StoreTouched(root: Value, top: Path, key: CZString, v: Value)
    requires Resolves(root, top) && IsContainer(Get(root, top)) && Sorted(Get(root, top).entries)
    ensures var container := Get(root, top);
            var touched := Set(root, top, Stored(container, key, Current(container.entries, key)));
            Resolves(touched, top + [key]) &&
            Set(touched, top + [key], v) == Set(root, top, Stored(container, key, v))
  {
    var container := Get(root, top);
    var m := container.entries;
    var w := Current(m, key);
    GetSet(root, top, Stored(container, key, w));
    PutSorted(m, key, w);
    FindPut(m, key, w, key);
    var touched := Set(root, top, Stored(container, key, w));
    SetEntry(touched, top, key, v);
    PutTwice(m, key, w, v);
    SetSet(root, top, Stored(container, key, w), Stored(container, key, v));
  }

  // ---- Stacked outcomes ----

  lemma ThrowsAtOnce(a: State)
    requires a.nodes != [] && a.depth == STACK_LIMIT
    ensures Did(Overflow, Threw, a, a)
  {
  }

  /** What was done one level deeper, after the opening token, is done when the depth counter is set back. */
  lemma DidInside(a: State, q: nat, b: State, r: Parsed, exit: Exit)
    requires a.nodes != [] && Did(r, exit, a.(current := q, depth := a.depth + 1), b)
    ensures exit.Threw? ==> Did(r, exit, a, b)
    ensures exit.Returned? ==> b.depth > 0 && Did(r, exit, a, b.(depth := b.depth - 1))
  {
  }

  /** The same for a scalar. A syntax error in its place leaves the depth counter as it is. */
  lemma ScalarInside(a: State, q: nat, b: State, r: Parsed, successful: bool, known: bool)
    requires a.nodes != [] && Resolves(a.root, a.nodes[|a.nodes| - 1])
    requires !r.Overflow? && r.next == q && (r.Failed? ==> r.leak <= 1)
    requires DidScalar(r, successful, known, a.(current := q, depth := a.depth + 1), b)
    ensures Did(r, Returned(successful), a, if known then b.(depth := a.depth) else b)
  {
    SetSame(a.root, a.nodes[|a.nodes| - 1]);
  }

  /** After a value was read, its node holds it. */
  lemma NodeAfter(a: State, b: State, v: Value, q: nat)
    requires a.nodes != [] && Did(Read(v, q), Returned(true), a, b)
    ensures Resolves(b.root, b.nodes[|b.nodes| - 1]) && Get(b.root, b.nodes[|b.nodes| - 1]) == v
  {
    GetSet(a.root, a.nodes[|a.nodes| - 1], v);
  }

  /** Reading into a node and then again into the same node: only the second outcome shows. */
  lemma DidTwice(a: State, b: State, c: State, v: Value, r: Parsed, exit: Exit)
    requires a.nodes != [] && b.nodes != []
    requires Did(Read(v, b.current), Returned(true), a, b) && Did(r, exit, b, c)
    ensures Did(r, exit, a, c)
  {
    if !r.Overflow? {
      SetSet(a.root, a.nodes[|a.nodes| - 1], v, r.value);
    }
  }

  /** The container with `v` stored under `key`. */
  function Stored(container: Value, key: CZString, v: Value): Value
    requires IsContainer(container)
  {
    WithEntries(container, Put(container.entries, key, v))
  }

  /** The outcome for a container of reading one of its entries. */
  function InEntry(container: Value, key: CZString, r: Parsed): Parsed
    requires IsContainer(container)
  {
    match r
    case Read(v, q) => Read(Stored(container, key, v), q)
    case Failed(v, q, e, leak) => Failed(Stored(container, key, v), q, e, leak)
    case Overflow => Overflow
  }
}
