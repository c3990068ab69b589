/** The pieces SQL statements are made of: aliases, literals, type names and comma-separated lists. */
module SqlText {
  import opened JsonValue

  datatype Dialect = PostgreSql | MySql | Firebird | Sqlite

  /** `FieldDescriptor::CppType`, in its order. */
  datatype CppType =
    | Int32Type
    | Int64Type
    | UInt32Type
    | UInt64Type
    | DoubleType
    | FloatType
    | BoolType
    | EnumType
    | StringType
    | MessageType

  /** `FieldNameValueString` */
  datatype FieldValue = FieldValue(index: int, fieldType: CppType, sqlString: bool, field: string, value: string)

  /** An entry of a `std::map<std::string, std::string>`; a map is the sequence of its entries in key order. */
  datatype Property = Property(name: string, value: string)

  type Aliases = Option<map<string, string>>

  const PROPERTY_INT_TIME := "received"

  /** `findAlias` */
  function FindAlias(aliases: Aliases, name: string): string {
    if aliases.Some? && name in aliases.value then aliases.value[name] else name
  }

  /** `isNumber` */
  predicate IsNumber(s: string) {
    s != "" && forall i :: 0 <= i < |s| ==> '0' <= s[i] <= '9' || s[i] == '.' || s[i] == '-'
  }

  /** `replace(str, ".", "_")`: only the first dot. */
  function WithoutFirstDot(s: string): string {
    if s == "" then "" else if s[0] == '.' then "_" + s[1..] else [s[0]] + WithoutFirstDot(s[1..])
  }

  /** The quote around names. */
  function NameQuote(d: Dialect): string {
    if d == MySql then "`" else "\""
  }

  function InQuotes(q: string, s: string): string {
    q + s + q
  }

  /** Types from `CPPTYPE_STRING` on. */
  predicate IsText(t: CppType) {
    t == StringType || t == MessageType
  }

  /** `getSqlDialectTypeName` */
  function TypeName(t: CppType, d: Dialect): string {
    match d
    case Sqlite =>
      (match t
       case FloatType => "double"
       case DoubleType => "double"
       case StringType => "TEXT"
       case MessageType => "TEXT"
       case _ => "integer")
    case MySql =>
      (match t
       case Int32Type => "int"
       case Int64Type => "bigint"
       case UInt32Type => "int unsigned"
       case UInt64Type => "bigint unsigned"
       case FloatType => "float"
       case DoubleType => "double"
       case BoolType => "int"
       case EnumType => "int"
       case _ => "TEXT")
    case PostgreSql =>
      (match t
       case Int32Type => "integer"
       case Int64Type => "bigint"
       case UInt32Type => "bigint"
       case UInt64Type => "numeric(20)"
       case FloatType => "float"
       case DoubleType => "double precision"
       case BoolType => "integer"
       case EnumType => "integer"
       case _ => "TEXT")
    case Firebird =>
      (match t
       case Int32Type => "integer"
       case Int64Type => "bigint"
       case UInt32Type => "bigint"
       case UInt64Type => "bigint"
       case FloatType => "float"
       case DoubleType => "double precision"
       case BoolType => "integer"
       case EnumType => "integer"
       case _ => "BLOB sub_type 1")
  }

  // ---- Lists ----

  function Join(parts: seq<string>, sep: string): string {
    if parts == [] then "" else if |parts| == 1 then parts[0] else parts[0] + sep + Join(parts[1..], sep)
  }

  lemma {:induction false} JoinMore(parts: seq<string>, more: string, sep: string)
    ensures Join(parts + [more], sep) == if parts == [] then more else Join(parts, sep) + sep + more
    decreases |parts|
  {
    if parts != [] {
      assert (parts + [more])[1..] == parts[1..] + [more];
      JoinMore(parts[1..], more, sep);
      if |parts| == 1 {
        assert parts[1..] == [];
      }
    }
  }

  lemma {:induction false} JoinConcat(a: seq<string>, b: seq<string>, sep: string)
    requires a != [] && b != []
    ensures Join(a + b, sep) == Join(a, sep) + sep + Join(b, sep)
    decreases |a|
  {
    if |a| == 1 {
      assert (a + b)[1..] == b;
    } else {
      assert (a + b)[1..] == a[1..] + b;
      JoinConcat(a[1..], b, sep);
    }
  }

  /** A list with a comma after every part. */
  function Trailed(parts: seq<string>): string {
    if parts == [] then "" else Trailed(parts[..|parts| - 1]) + parts[|parts| - 1] + ","
  }

  lemma {:induction false} TrailedIsJoined(parts: seq<string>)
    ensures Trailed(parts) == if parts == [] then "" else Join(parts, ",") + ","
    decreases |parts|
  {
    if parts != [] {
      var front, last := parts[..|parts| - 1], parts[|parts| - 1];
      assert parts == front + [last];
      TrailedIsJoined(front);
      JoinMore(front, last, ",");
      hide Join;
      if front == [] {
        assert Trailed(front) == "";
      }
    }
  }
}
