# Converters of pkt2

pkt2 moves data between binary packets, protocol buffer messages, JSON, CSV and SQL. This project models the code that
does the converting and proves what it promises.

| files | what they model |
|---|---|
| `JsonValue`, `JsonOrder`, `JsonArray` | `Json::Value`: keys, the maps behind arrays and objects, comparison, array operations |
| `JsonScan`, `JsonNumber`, `JsonUtf8`, `JsonString`, `JsonGrammar`, `JsonPath`, `JsonReader` | `Json::Reader` as a class with `current_`, `nodes_`, `errors_` and the depth counter, and the functions its methods are proved against |
| `JsonSyntax`, `JsonAccept`, `JsonRefusal` | a grammar of documents in terms of their characters, and the theorem that the reader accepts exactly what it derives; what it reports about other documents |
| `JsonLayout`, `JsonWeave` | syntax trees, their lexemes, and the theorem that the reader gives every layout of a tree its meaning |
| `JsonFastWriter`, `JsonStyledWriter`, `JsonTree`, `JsonNormal`, `JsonRoundTrip`, `JsonReparse` | the two printers, printing followed by parsing, and parsing followed by both |
| `Base64` | base64 both ways, and base64url into its exactly sized buffer |
| `ProtoMessage`, `ProtoJson`, `ProtoConvert`, `ProtoRoundTrip`, `ProtoReading` | messages over an arbitrary schema, to JSON trees and back, and what JSON values mean for fields |
| `Ieee754` | packing and unpacking of floating-point numbers |
| `ColumnNames`, `Csv` | spreadsheet column names, and the CSV automaton |
| `SqlText`, `SqlStatements`, `SqlReading` | the SQL statements made from the fields of a message, and a reader that they are read back with |
| `PacketOverlay` | writing field values over a packet and the packets embedded in it |
| `Supervisor` | the process supervisor as a state machine |

Bytes and characters of C++ strings are Dafny characters. A `std::map` is the sequence of its entries in key order. An
exception or a failed assertion is a value that the method returns. A `Json::Value*` on the parser's stack is a path into
the tree that is being built. Doubles are real numbers.

## What holds only under a condition

Where the code does not keep a promise on all inputs, the exact condition is proved:

- Of two different JSON values exactly one is less than the other, unless the sizes of the containers where their
  comparison ends differ by 2^31 modulo 2^32; then each is less. Of `a < b < c`, where not both steps are of that kind,
  `a < c` follows unless the sizes where the three differ first grow by more than 2^31 over both steps.
- Printing and parsing keeps a value up to integer tags exactly when its arrays have no gaps. The styled printer takes
  member names as C strings, so that the two printers agree exactly when no name contains a NUL.
- Beyond RFC 8259 with comments the reader accepts documents that go on after their root, numbers without digits, lone
  low surrogates, a closing brace after a comma when the last member's name is empty, and behind a comment any lexeme in
  place of the comma between members. It accepts nothing else.
- A value nested more than 1000 deep is printed, but parsing it ends in an exception.
- `Value::append` overwrites element 0 once the highest 32-bit index is in use; `resize` and `removeIndex` leave too short
  an array when the element that should become the last one is missing.
- `b64_decode` accepts padding anywhere and ignores unused bits; only canonical texts are encoded to themselves again.
- A message does not survive its JSON when a required field is absent, a single unsigned 64-bit integer is 2^63 or more
  (it is printed through a signed cast), or an enum number has no name.
- `pack754` loses the fraction when the significand overflows and the exponent is odd, because the overflowing bit is
  joined with `|`; this needs fewer than 23 significand bits. The least positive number has the pattern of 0.
- `readCSV` cuts lines before it looks at quotes, so that a quoted line feed breaks a row; a last row without a line feed
  is lost. With CR LF as the line end, the last field of a row keeps the CR unless it is quoted.
- `toStringInsert2` takes the message id for the position of a field, and the position 0 for every index without a field.
  With more than two key indexes its statements name a column twice.
- A column holds all values of its field, but for unsigned 64-bit integers in Firebird and SQLite.
- A CREATE TABLE breaks off after its parenthesis when every field is skipped, although properties may be inserted.
- Of the stop and reload requests that arrive before stopping begins, only those in the main loop are honoured; those
  that arrive while children are started are forgotten. A child that cannot execute its program kills its process group,
  the supervisor included. A descriptor whose fork failed makes the next stop signal every process.
- The supervisor knows its children by process id alone. Checks restart, and stopping signals, each descriptor's own
  child as long as no other process gets an id that a descriptor still names. A child of another descriptor under such an
  id leaves the one that died unstarted; so does a process outside the supervisor, which is then also sent SIGINT.

## Model

| member | source | states |
|---|---|---|
| JsonValue.KeyLessTrichotomy | jsoncpp.cpp:2682-2704 | of two different keys exactly one is less than the other, and no key is less than itself |
| JsonValue.KeyLessTransitive | jsoncpp.cpp:2682-2693 | the order of keys is transitive |
| JsonValue.KeyOrder | jsoncpp.cpp:2682-2693 | indexes are ordered by size; a name comes before another exactly when it is a proper prefix of it or has the smaller character where they first differ |
| JsonValue.FindPut | jsoncpp.cpp:3340-3354 | a value stored under a key is found there again, and no other lookup changes |
| JsonValue.FindErase | jsoncpp.cpp:3332-3336 | after erasing a key only the lookup of that key changes |
| JsonValue.SameLookups | jsoncpp.cpp:3363-3374 | two maps with the same lookups are the same map |
| JsonOrder.EqualsIsEquality | jsoncpp.cpp:2971-3013 | `==` holds exactly between identical values, through all nesting |
| JsonOrder.KindsAscend | jsoncpp.cpp:2919-2926 | whatever they hold, null is less than int, uint, real, string, bool, array and object, in this order |
| JsonOrder.ScalarsAscend | jsoncpp.cpp:2927-2950 | numbers are ordered by size, strings as names are, false before true |
| JsonOrder.ContainersAscend | jsoncpp.cpp:2951-2962 | below 2^31 entries the smaller container is less, and of two of one size the first entries that differ decide |
| JsonOrder.LessTrichotomy | jsoncpp.cpp:2919-2963 | neither of two values is less exactly when they are equal, and each is less than the other exactly when the sizes of the containers where the comparison ends are 2^31 apart |
| JsonOrder.NarrowIsNotHalfApart | jsoncpp.cpp:2953-2962 | that never happens while containers have fewer than 2^31 entries |
| JsonOrder.LessUnlessTurned | jsoncpp.cpp:2919-2963 | `a < b < c` gives `a < c` exactly when the wrapped size differences, where the three first differ, do not turn the order around, provided not both steps are half apart |
| JsonOrder.LessTransitive | jsoncpp.cpp:2919-2963 | hence `<` is transitive through nested arrays and objects of fewer than 2^31 entries |
| JsonOrder.CompareAgrees | jsoncpp.cpp:2911-2917 | `compare` is negative exactly when the first value is less, and 0 exactly for equal values, and its sign flips with the arguments exactly when the values are not half apart |
| JsonOrder.WideArraysBreakTheOrder | jsoncpp.cpp:2953-2962 | the cast of the size difference to int makes two arrays each less than the other, and three arrays, no two of them half apart, each less than the next in a circle |
| JsonNumber.UintToString | jsoncpp.cpp:149-155 | writes the shortest decimal text and a terminator at the end of the 25-character buffer, leaves the rest unchanged and room for a sign |
| JsonNumber.ValueToString | jsoncpp.cpp:4080-4094 | the decimal text of every 64-bit signed integer |
| JsonNumber.ValueToStringUnsigned | jsoncpp.cpp:4096-4102 | the decimal text of every 64-bit unsigned integer |
| JsonNumber.DecodeInteger | jsoncpp.cpp:752-792 | a number token is decoded as an integer exactly when it is an optional minus sign and digits whose value lies in [-2^63, 2^64-1]; the accumulator stays within 64 bits |
| JsonNumber.DecodeUndoesPrint | jsoncpp.cpp:752-792 | decoding the printed text of an integer gives the integer, tagged int up to 2^31-1 and uint above |
| JsonUtf8.EncodesScalars | jsoncpp.cpp:104-130 | reading the bytes written for a Unicode scalar value by the table of section 3 of RFC 3629 gives that value |
| JsonUtf8.DecodedIsEncoded | jsoncpp.cpp:104-130 | the encoding is the only one: what reads as a scalar value is what is written for it |
| JsonUtf8.EncodingIsPrefixFree | jsoncpp.cpp:104-130 | no encoding begins with the encoding of another scalar value |
| JsonString.Strnpbrk | jsoncpp.cpp:4213-4226 | whether some character of the text is one of those accepted |
| JsonString.ContainsControlCharacter0 | jsoncpp.cpp:4070-4078 | whether some character of the text is a control character or NUL |
| JsonString.ContainsControlCharacter | jsoncpp.cpp:4062-4068 | the same without NUL, up to the first NUL |
| JsonString.ValueToQuotedStringN | jsoncpp.cpp:4227-4288 | the quoted text of any string, NUL included; the fast path and the escaping loop give the same text |
| JsonString.ValueToQuotedString | jsoncpp.cpp:4150-4210 | the quoted text of a C string |
| JsonString.ShortEscapes | jsoncpp.cpp:4235-4262 | quote, backslash, backspace, form feed, line feed, carriage return and tab are written with their letter |
| JsonString.OtherEscapes | jsoncpp.cpp:4263-4283 | other characters below 32 are written by their code in four upper-case digits, all others as they are, the slash and bytes from 127 on included |
| JsonString.CodePointReadsBack | jsoncpp.cpp:880-936 | every Unicode scalar value written as one escape or as a surrogate pair is decoded to itself, and exactly its text is consumed |
| JsonAccept.ScalarReadsBack | jsoncpp.cpp:880-936 | the same for hexadecimal digits of either case or both, each of which counts by its place among the digits |
| JsonString.QuotedStringReadsBack | jsoncpp.cpp:636-646 | wherever the quoted text of a string stands, the token there is exactly that text and decoding gives the string |
| JsonReader.Reader.GetNextChar | jsoncpp.cpp:970-974 | the next character, or NUL at the end, where the position stays |
| JsonReader.Reader.SkipSpaces | jsoncpp.cpp:514-522 | moves to the first character that is no white space |
| JsonReader.Reader.Match | jsoncpp.cpp:524-533 | compares backwards; moves over the pattern exactly when it stands here |
| JsonReader.Reader.ReadComment | jsoncpp.cpp:535-556 | reads a comment after its first slash |
| JsonReader.Reader.ReadCStyleComment | jsoncpp.cpp:589-596 | moves behind the first star and slash, or to the end |
| JsonReader.Reader.ReadCppStyleComment | jsoncpp.cpp:598-612 | moves behind the end of the line, written in any of three ways |
| JsonReader.Reader.ReadNumber | jsoncpp.cpp:614-634 | moves over digits, an optional fraction and an optional exponent |
| JsonReader.Reader.ReadString | jsoncpp.cpp:636-646 | moves behind the first quote that is not escaped, or to the end |
| JsonScan.TokenAt | jsoncpp.cpp:443-512 | a token lies in the document and advances the position unless the end is reached; a string token has both quotes |
| JsonReader.Reader.ReadToken | jsoncpp.cpp:443-512 | the token that starts after white space, and the position behind it |
| JsonReader.Reader.SkipCommentTokens | jsoncpp.cpp:433-441 | the next token that is no comment, where comments are allowed |
| JsonAccept.GapFound | jsoncpp.cpp:433-441 | what is skipped before a token is white space and comments and nothing else, and the token begins at the first other character |
| JsonReader.Reader.AddError | jsoncpp.cpp:937-946 | records one error and answers false |
| JsonReader.Reader.RecoverFromError | jsoncpp.cpp:948-959 | skips to a token of the given kind or the end, and keeps all errors recorded before |
| JsonReader.Reader.AddErrorAndRecover | jsoncpp.cpp:961-966 | records exactly one error, and skips |
| JsonReader.Reader.DecodeNumber | jsoncpp.cpp:752-792 | the integer, or the double, or one error |
| JsonReader.Reader.DecodeUnicodeEscapeSequence | jsoncpp.cpp:909-936 | the value of four hexadecimal digits, or one error with the place where it was found |
| JsonReader.Reader.DecodeUnicodeCodePoint | jsoncpp.cpp:880-907 | the code point of one escape or of a pair, or one error |
| JsonReader.Reader.DecodeString | jsoncpp.cpp:827-878 | the decoded text of a string token, or one error |
| JsonReader.Reader.ReadValue | jsoncpp.cpp:349-431 | sets exactly the current node to the value read; the stack and the errors are as before, or one error more; the depth stays within 1000 and the position in the document |
| JsonReader.Reader.ReadObject | jsoncpp.cpp:648-702 | the same for an object, with recovery to its closing brace; the members read before an error stay |
| JsonReader.Reader.ReadArray | jsoncpp.cpp:704-740 | the same for an array |
| JsonReader.Reader.Parse | jsoncpp.cpp:307-347 | answers true exactly for the documents that the grammar derives, with the value it derives; answers true exactly when no error is recorded; the stack holds the root alone, the depth is 0, or at most 1 after an error; or the exception passes through at depth 1000 |
| JsonAccept.AcceptedExactly | jsoncpp.cpp:307-431 | a document is accepted with a value exactly when the grammar of `JsonSyntax` derives that value from a prefix of it, at most 1000 levels deep, with a container as its root where the reader is strict |
| JsonAccept.ValueReads | jsoncpp.cpp:349-745 | every text that the grammar derives a value from is read as that value, at any depth that is left |
| JsonAccept.ValueFound | jsoncpp.cpp:349-745 | whatever is read, wherever, the grammar derives, behind nothing but white space and comments |
| JsonAccept.CharsDecode | jsoncpp.cpp:827-936 | between quotes, all eight letters behind a backslash, code units and surrogate pairs stand for what RFC 8259 says, and the first quote that is not hidden ends the string |
| JsonAccept.AcceptedOnce | jsoncpp.cpp:307-347 | the grammar derives at most one value from a document |
| JsonAccept.RefusedAtOnce | jsoncpp.cpp:417-421 | a document that ends where its value should begin, or has a character there that begins none, is refused with one error, which stands there |
| JsonRefusal.RefusedWithOneError | jsoncpp.cpp:307-347 | every document that is refused has exactly one error, of one of twelve kinds, about the token or the place in a string where it was found, and a second one only when a strict reader finds no container at the root |
| JsonRefusal.ValueError | jsoncpp.cpp:349-966 | the same at any depth; only a token in place of a value leaves the depth counter one too high |
| JsonReader.StoreTouched | jsoncpp.cpp:680-683 | reading into an entry that was created as null first leaves no trace of the null |
| JsonLayout.ReadsDoc | jsoncpp.cpp:349-431 | wherever the lexemes of a syntax tree stand, with any white space between them, the reader gives the tree's meaning and stops right after it, unless the tree is higher than the depth left; then it throws |
| JsonWeave.DocSeparate | jsoncpp.cpp:443-512 | no lexeme of a syntax tree can run into the one after it |
| JsonWeave.ParsesText | jsoncpp.cpp:307-347 | `parse` gives every text that lays out a syntax tree the meaning of the tree, or throws exactly when the tree is higher than 1000 |
| JsonFastWriter.GetMemberNames | jsoncpp.cpp:3591-3606 | the names of all members, in ascending order |
| JsonFastWriter.FastWriter.Write | jsoncpp.cpp:4307-4313 | the text of the value's syntax tree without white space, with the writer's colon and line feed; the members of every object are printed in ascending order of their names |
| JsonRoundTrip.FastTextJoins | jsoncpp.cpp:4315-4367 | without the colons of YAML the text is that of the lexemes with nothing between them |
| JsonFastWriter.FastWriter.WriteValue | jsoncpp.cpp:4315-4367 | appends the text of a value to what was written before |
| JsonStyledWriter.StyledWriter.Write | jsoncpp.cpp:4375-4384 | the text lays out the lexemes of the value's syntax tree, and the indentation is empty at the end |
| JsonStyledWriter.StyledWriter.WriteValue | jsoncpp.cpp:4386-4443 | writes the lexemes of a value, or keeps their text as a child value; the indentation ends as it began |
| JsonStyledWriter.StyledWriter.WriteArrayValue | jsoncpp.cpp:4445-4486 | on one line, on several, or from kept texts: the lexemes are the same |
| JsonStyledWriter.StyledWriter.IsMultilineArray | jsoncpp.cpp:4488-4513 | either the texts of all elements are kept, in order, or none is and the array takes several lines; nothing is written |
| JsonStyledWriter.StyledWriter.PushValue | jsoncpp.cpp:4515-4520 | keeps the text or writes it |
| JsonStyledWriter.StyledWriter.WriteIndent | jsoncpp.cpp:4522-4531 | writes white space only |
| JsonStyledWriter.StyledWriter.WriteWithIndent | jsoncpp.cpp:4533-4536 | writes the lexemes after white space |
| JsonStyledWriter.StyledWriter.Indent | jsoncpp.cpp:4538 | adds three characters of indentation |
| JsonStyledWriter.StyledWriter.Unindent | jsoncpp.cpp:4540-4543 | takes away the last three |
| JsonTree.MeaningIsNormal | jsoncpp.cpp:4315-4367 | the meaning of the printed tree is the value with its integers tagged by size and its gaps filled with null |
| JsonNormal.NormalKeepsDense | jsoncpp.cpp:783-790 | this is the value itself, up to integer tags, exactly when its arrays have no gaps |
| JsonNormal.NormalIsStable | jsoncpp.cpp:783-790 | what came back once comes back unchanged from then on |
| JsonNormal.HeightIsNesting | jsoncpp.cpp:349-355 | the printed tree is at most `h` high exactly when the value nests at most `h` deep |
| JsonRoundTrip.CutMatters | jsoncpp.cpp:4428 | names cut at a NUL change the tree that comes back exactly when some member name contains a NUL |
| JsonRoundTrip.WriteFastAndParse | jsoncpp.cpp:4307-4367 | parsing what `FastWriter` printed succeeds and gives the value, up to integer tags exactly when its arrays have no gaps; it throws exactly when the value nests more than 1000 deep |
| JsonRoundTrip.WriteStyledAndParse | jsoncpp.cpp:4375-4543 | parsing what `StyledWriter` printed gives the tree of the value with its names cut at a NUL, which is the tree of `FastWriter` exactly when no member name contains a NUL |
| JsonReparse.ValueIsSolid | jsoncpp.cpp:349-431 | whatever the document, a value that is read is well formed, its arrays have no gaps, its integers are tagged by size, and it nests no deeper than the depth that was left |
| JsonReparse.ReadPrintRead | jsoncpp.cpp:307-347 | whatever document a tree without doubles was read from, printing it with either printer and reading the text succeeds, and gives exactly the same tree unless the styled printer cuts a name at a NUL; exactly then the tree differs |
| JsonArray.ArrayValue.Size | jsoncpp.cpp:3275-3295 | the length of the sequence, modulo 2^32 |
| JsonArray.ArrayValue.At | jsoncpp.cpp:3363-3374 | the element of the sequence, or null beyond its end |
| JsonArray.ArrayValue.Subscript | jsoncpp.cpp:3340-3354 | the sequence grows with nulls as far as needed; nothing else changes |
| JsonArray.ArrayValue.Append | jsoncpp.cpp:3487 | adds at the end exactly while the highest index is free; else it overwrites element 0 |
| JsonArray.ArrayValue.Resize | jsoncpp.cpp:3322-3338 | resizes the sequence exactly when the size becomes 0 or the highest index is free and the array grows or the last element kept is present; the assertion fails exactly in the shrinking case that is left |
| JsonArray.ArrayValue.RemoveIndex | jsoncpp.cpp:3541-3562 | hands back and removes a present element, exactly when it is not the last one, or is the first, or the one before it is present; a missing one is not removed |
| JsonArray.ViewPut | jsoncpp.cpp:3340-3354 | storing an element is assignment to the sequence after growing it |
| JsonArray.ViewTruncated | jsoncpp.cpp:3332-3336 | dropping the elements from `n` on takes the first `n`, exactly when `n` is 0 or element `n`-1 is present |
| JsonArray.ViewRemoved | jsoncpp.cpp:3550-3560 | moving elements down removes one from the sequence, exactly under the condition of `RemoveIndex` |
| Base64.Encode | bin2ascii.h:62-87 | the encoding of section 4 of RFC 4648: the loop and the shifts give six-bit digits and padding |
| Base64.Decode | bin2ascii.h:89-132 | the bytes, or which exception is thrown and for which group |
| Base64.DecodesAccepted | bin2ascii.h:110-129 | decoding succeeds exactly on texts of whole groups of letters and padding |
| Base64.RefusesFirstBadGroup | bin2ascii.h:110-121 | of a text of whole groups that is refused, the exception names the first group with a character that is no letter |
| Base64.LettersAre | bin2ascii.h:65 | the alphabets are tables 1 and 2 of RFC 4648 |
| Base64.DecodeUndoesEncode | bin2ascii.h:62-132 | decoding an encoded text gives the bytes back; its length is four times the number of groups |
| Base64.EncodedIsCanonical | bin2ascii.h:62-87 | an encoded text is canonical: padding only at the end, unused bits zero |
| Base64.EncodeUndoesDecode | bin2ascii.h:89-132 | an accepted text is encoded to itself again exactly when it is canonical |
| Base64.UrlEncode | google-sheets.cpp:31-73 | fills the precomputed buffer exactly and in bounds; the text is the base64 text with two letters exchanged and the padding stripped |
| ProtoConvert.Field2Json | pbjson.cpp:49-235 | the JSON of a field, of every type, repeated or not |
| ProtoConvert.ParseMsg | pbjson.cpp:237-271 | the JSON object of a message: all fields in order, but optional ones that are absent |
| ProtoConvert.Json2Field | pbjson.cpp:273-460 | stores a value into a field in place, or ends with an error, a failed assertion or an exception |
| ProtoConvert.ParseJson | pbjson.cpp:462-509 | reads the members one after the other into the message and stops at the first that fails |
| ProtoJson.ParseInto | pbjson.cpp:462-509 | whatever the JSON and however it ends, the message stays well typed for its schema |
| ProtoJson.ScalarReadTyped | pbjson.cpp:278-458 | a value that is read fits the field: integer ranges, bytes, `float` rounding |
| ProtoReading.ReadsMeaning | pbjson.cpp:278-458 | a JSON value is read exactly when it means something for the field, and as what it means: an integer in the range, a number, converted where needed, a truth value, a text, base64 bytes, a declared enum number, or the number first declared under an enum name |
| ProtoReading.RefusesOthers | pbjson.cpp:278-458 | how reading any other value ends: the error for its kind, a failed assertion for a number out of range, the exception for bad base64, or the error for an unknown enum value |
| ProtoReading.NullClears | pbjson.cpp:474-488 | null clears a field, whatever it held; a member that names no field changes nothing |
| ProtoReading.ValueMeans | pbjson.cpp:499-506 | a value that means something is set or appended; any other leaves the message alone |
| ProtoReading.ItemsMean | pbjson.cpp:489-498 | a repeated field gets the values of an array in order, up to the first that means nothing |
| ProtoReading.WrongShape | pbjson.cpp:464-491 | only an object is read into a message and only an array into a repeated field |
| ProtoReading.MembersInTurn | pbjson.cpp:474-509 | reading two objects in turn is reading the members of both in one |
| ProtoReading.SubMessageMerged | pbjson.cpp:429-433 | the same inside a message that a field holds: what the object does not name is kept |
| ProtoReading.NewMessage | pbjson.cpp:429-433 | an object starts from the empty message where a single field is absent, and always in a repeated field |
| ProtoReading.PrintedForm | pbjson.cpp:69-199 | the JSON of each kind of value; a single unsigned 64-bit integer from 2^63 on loses 2^64 |
| ProtoReading.MembersAre | pbjson.cpp:237-271 | the members of a printed message are those of the fields that are not both optional and absent, in the order of the descriptor, under their names |
| ProtoReading.AbsentShowsDefault | pbjson.cpp:237-271 | a required field that is absent is printed as if it held its default |
| ProtoRoundTrip.ScalarRoundTrip | pbjson.cpp:69-199 | a printed scalar is read back exactly when it is faithful |
| ProtoRoundTrip.MemberKeeps | pbjson.cpp:474-507 | reading a member changes no field but the one it names |
| ProtoRoundTrip.ItemsRoundTrip | pbjson.cpp:489-498 | the values of a repeated field are read back in order exactly when all are faithful |
| ProtoRoundTrip.RoundTrip | pbjson.cpp:237-509 | reading the JSON of a message into an empty one returns 0 and gives the same message exactly when required fields are present, single unsigned 64-bit integers are below 2^63 and enum numbers are declared, at every level |
| ProtoRoundTrip.PrintAndParse | pbjson.cpp:531-553 | the same for the methods that print and read |
| Ieee754.Normalize | ieee754.cpp:23-26 | the loops end with the only mantissa in [1, 2) and exponent of the number |
| Ieee754.Pack754 | ieee754.cpp:10-37 | the sign, the biased exponent and the cut-off significand, joined as the code joins them |
| Ieee754.Unpack754 | ieee754.cpp:39-63 | the number that the three fields of a pattern stand for |
| Ieee754.PackUndoesUnpack | ieee754.cpp:10-63 | every pattern of every valid format is unpacked into range and packed to itself again |
| Ieee754.UnpackIncreases | ieee754.cpp:39-63 | without the sign bit, a greater pattern stands for a greater number |
| Ieee754.PackAccuracy | ieee754.cpp:27-36 | packing loses less than one unit in the last place exactly when the significand does not overflow at an odd exponent and the number does not share the pattern of 0 |
| Ieee754.OverflowLosesTheFraction | ieee754.cpp:30-36 | in eight bits with four exponent bits, 1.99 has the pattern of 1 |
| Ieee754.WideSignificands | ieee754.cpp:30 | with 23 significand bits or more the significand never overflows |
| Ieee754.NarrowSignificands | ieee754.cpp:30 | with fewer it overflows for numbers just below a power of two |
| ColumnNames.ColumnFromNumber | google-sheets.cpp:792-807 | the name of every column number, and the empty name for negative ones |
| ColumnNames.NumberOfName | google-sheets.cpp:792-807 | a column name consists of capital letters and determines its number |
| ColumnNames.NameOfNumber | google-sheets.cpp:792-807 | every text of capital letters is the name of its number |
| ColumnNames.NamesKeepOrder | google-sheets.cpp:792-807 | columns are ordered as their names are: by length, then alphabetically |
| Csv.ReadCSVRow | google-sheets.cpp:86-141 | the fields that the three-state automaton gives; the index is always that of the last field |
| Csv.ReadCSV | google-sheets.cpp:147-161 | the rows of all lines that end in a line feed |
| Csv.CharacterMeans | google-sheets.cpp:86-141 | what each character of any row does to the fields, by the number of quotes before it and whether one stands just before it |
| Csv.RowRun | google-sheets.cpp:86-141 | a row written with any choice of quotes by section 2 of RFC 4180 is read back |
| Csv.RowCount | google-sheets.cpp:147-161 | there are as many rows as line feeds |
| Csv.FileReadsBack | google-sheets.cpp:86-161 | rows written with any choice of quotes are read back exactly when no field contains a line feed |
| Csv.CrLfReadsBack | google-sheets.cpp:86-161 | rows that end in carriage return and line feed, as section 2 of RFC 4180 has it, are read back exactly when no field contains a line feed and every last field is in quotes |
| Csv.UnfinishedRowIsLost | google-sheets.cpp:155-158 | text after the last line feed changes nothing |
| SqlStatements.SetProperties | database-config.cpp:304-320 | writes exactly the properties of the message that the configuration gives a non-empty name, the last one where several get one name; other names keep their values, and the map stays a map |
| SqlStatements.RenamedExactly | database-config.cpp:304-320 | the same for the function that the other statements build on |
| SqlStatements.FieldNameValueIndexStrings.Add | fieldnamevalueindexstrings.cpp:83-105 | appends the field, and after any number of calls the index vector holds the last field of each index, and 0 for an index without one |
| SqlStatements.FieldNameValueIndexStrings.ToStringInsert | fieldnamevalueindexstrings.cpp:122-203 | one statement in which the j-th name and the j-th value belong to the same field or property; none when the table is skipped or there is no column |
| SqlReading.InsertReadsBack | fieldnamevalueindexstrings.cpp:122-203 | a reader of INSERT finds the table, the names of all fields that are not skipped and of all properties, and their values in the same order, each as a text exactly when its field has a text type or it is no number |
| SqlStatements.FieldNameValueIndexStrings.ToCreateSQLTableFields | fieldnamevalueindexstrings.cpp:308-362 | the declarations of the fields and of the properties, with their types; broken off when no field is declared |
| SqlReading.DeclaredReadsBack | fieldnamevalueindexstrings.cpp:308-362 | a reader of CREATE TABLE finds the table and every column with its type |
| SqlReading.PropertiesAreDeclared | fieldnamevalueindexstrings.cpp:341-359 | exactly the properties with a name are declared, the time of receipt as an unsigned integer and the others as texts |
| SqlReading.ColumnsHoldValues | fieldnamevalueindexstrings.cpp:205-296 | the type of a column holds all values of its field, in every dialect, but for unsigned 64-bit integers in Firebird and SQLite |
| SqlReading.FirstDotReplaced | utilstring.cpp:44-52 | only the first dot of a table name becomes an underscore |
| SqlReading.AliasIs | fieldnamevalueindexstrings.cpp:107-116 | a field goes by its alias, or by its own name when it has none |
| SqlStatements.InsertedAreDeclared | fieldnamevalueindexstrings.cpp:122-362 | every inserted column is declared, exactly when some field is not skipped or no property is inserted |
| SqlStatements.FieldNameValueIndexStrings.ToStringInsert2 | fieldnamevalueindexstrings.cpp:370-443 | one balanced statement for each position that is neither skipped nor in the index vector, in order |
| SqlReading.RowReadsBack | fieldnamevalueindexstrings.cpp:387-436 | the same reader finds in each such statement the message id, the keys in order, the name and the value, each key and value as a text or a number as its field says, and texts and numbers in tables of their own |
| SqlStatements.NamedTwice | fieldnamevalueindexstrings.cpp:387-391 | the column names of such a statement are distinct exactly when there are at most two key indexes |
| SqlStatements.KeyPositions | fieldnamevalueindexstrings.cpp:91-96 | a position is in the index vector when its field is a key, or when it is 0 and an index has no field |
| SqlStatements.OneStatementEach | fieldnamevalueindexstrings.cpp:410-420 | each field that is neither key nor skipped gets its statement, exactly when neither the message id nor, with a gap, position 0 is taken for a key |
| PacketOverlay.Reflect | messagedecomposer.cpp:661-706 | keeps the length of the packet; every byte is what the last field or embedded packet over it makes of it |
| PacketOverlay.Frame | messagedecomposer.cpp:661-706 | a byte outside the written fields, at any depth, keeps its value, and a byte inside does not depend on the value it had |
| PacketOverlay.LastFieldDecides | messagedecomposer.cpp:661-680 | of the fields over a byte the last one decides |
| PacketOverlay.FieldReach | messagedecomposer.cpp:609-659 | a text covers its field, a number at most eight bytes of it |
| PacketOverlay.EmbeddedDecides | messagedecomposer.cpp:681-706 | an embedded packet replaces what fields wrote |
| PacketOverlay.EmbeddedReach | messagedecomposer.cpp:681-706 | it reaches what its own type reaches, in the field that holds it, and nothing when its type has no packet or no field holds it |
| Supervisor.StepForgetsNone | pkt2-impl.cpp:1506-1574 | every step keeps: a living child is held by a descriptor that will be signalled, or has been sent SIGINT |
| Supervisor.NoRunForgets | pkt2-impl.cpp:1551-1574 | in every run, all living children have been sent SIGINT before descriptors are discarded or the supervisor ends |
| Supervisor.AllAreStarted | pkt2-impl.cpp:1506-1519 | before the main loop begins, and in it, a child has been started or could not be for every descriptor |
| Supervisor.LoadsAll | pkt2-impl.cpp:1556-1558 | loading gives as many descriptors as the configuration lists, and starting begins with the first |
| Supervisor.OneDescriptorEach | pkt2-impl.cpp:1506-1534 | all along a run no two descriptors hold one process, exactly when no child is started under an id that another descriptor still names |
| Supervisor.HeldByOne | pkt2-impl.cpp:1506-1534 | in every such run, each child that was not sent SIGINT is held by one and only one descriptor |
| Supervisor.ReuseHidesADeadChild | pkt2-impl.cpp:1521-1534 | a run from the start, for any two ids, in which one restarted child comes to stand for two descriptors and a pass of checks leaves a dead child unstarted |
| Supervisor.ApartExactly | pkt2-impl.cpp:90-129 | no descriptor ever names a process outside the supervisor exactly when none comes under an id that a descriptor still names |
| Supervisor.OwnChildrenExactly | pkt2-impl.cpp:104-129 | whatever runs under a descriptor's id is its own child, all along, exactly when no process, neither a stranger nor another descriptor's child, gets an id that a descriptor still names |
| Supervisor.ChecksLookAtAll | pkt2-impl.cpp:1521-1534 | in such runs, after every pass of checks each descriptor's own child is alive, has died since the pass began, or could not be started |
| Supervisor.NotStartedAgain | pkt2-impl.cpp:104-129 | a child whose id another process has is not started again while that process stays, and stopping signals that process |
| Supervisor.StrangerIsStruck | pkt2-impl.cpp:90-129 | a run from the start, for any two ids, without a failed fork: a stranger under a dead child's id passes for the child in every check, and is sent SIGINT |
| Supervisor.OnlyChildrenAreSignalled | pkt2-impl.cpp:90-102 | while forks succeed and no stranger comes under an id that a descriptor still names, SIGINT goes to the supervisor's own children only |
| Supervisor.StruckExactly | pkt2-impl.cpp:90-102 | while forks and execs succeed and such strangers stay, a stranger has been sent SIGINT, when stopping is done, exactly when one came under an id that a descriptor still named |
| Supervisor.StopSpares | pkt2-impl.cpp:1536-1543 | stopping signals every process exactly when a descriptor is left with a failed fork |
| Supervisor.FromTheStart | pkt2-impl.cpp:1551-1574 | the conditions on own children, checks and signals, for every run from the start |
| Supervisor.RequestIsHonoured | pkt2-impl.cpp:1563-1568 | a request that arrives while the main loop runs leads to stopping within one pass, exactly when no exec fails during it |
| Supervisor.UndisturbedServes | pkt2-impl.cpp:1557-1567 | from the start of the children on, whatever was asked before the flag is cleared, a run without a request stays with the children exactly when no exec fails: then it never stops, reloads or ends |
| Supervisor.HonouredExactlyInLoop | pkt2-impl.cpp:1557-1568 | of the requests that arrive before stopping begins, exactly those in the main loop lead to stopping, unless an exec fails first; all others are forgotten |
| Supervisor.LastRequestDecides | pkt2-impl.cpp:1568-1572 | once stopping has begun, another start follows exactly when the last request before it is done is a reload and no exec fails; else the end |

## Left out

- Double parsing and printing (`decodeDouble`, `%.17g`): the reader takes the conversion as a parameter, and printed values contain no double.
- Comments are skipped by the reader but not attached to values; the printers print none. Offsets of values are not kept.
- `OurReader`, `StyledStreamWriter`, `BuiltStyledStreamWriter`, `Path`, dropped null placeholders, numeric keys: near copies or switches that are off in both feature sets.
- JsonValue.KeyLessTrichotomy: the length of a name is unbounded, where `CZString` keeps 30 bits of it, so that names of 2^30 bytes or more are cut.
- JsonOrder.LessTrichotomy: doubles are real numbers, without infinities and not-a-number, which is neither less than, equal to nor greater than anything. The same holds for JsonOrder.EqualsIsEquality, JsonOrder.LessUnlessTurned and JsonOrder.CompareAgrees.
- JsonReader.Reader.ReadComment: recognises a comment, but keeps no text of it.
- JsonReader.Reader.ReadValue: comments and offsets are not set on the value read.
- JsonReader.Reader.Parse: comments and offsets are not set on the values read.
- JsonReader.Reader.DecodeNumber: the conversion of a text to a double is a parameter.
- JsonAccept.AcceptedExactly: which texts convert to a double, and to which, is a parameter.
- JsonFastWriter.FastWriter.Write: values without doubles and comments.
- JsonFastWriter.FastWriter.WriteValue: values without doubles; string lengths are unbounded, where the writers cast them to 32 bits when they quote a string.
- JsonStyledWriter.StyledWriter.Write: values without doubles and comments.
- JsonStyledWriter.StyledWriter.WriteValue: values without doubles and comments; where the white space goes is not stated.
- JsonStyledWriter.StyledWriter.IsMultilineArray: sizes are unbounded, where a 32-bit size wraps around at 2^32 members.
- JsonReparse.ReadPrintRead: trees without doubles.
- JsonReader.Reader.ReadArray: the element counter is unbounded, where the source has an int; a document of 2^31 characters or more could make it overflow. `JsonReparse` is stated for shorter documents.
- An array index of 2^32-1 is excluded from printing and comparison, where `size` wraps around to 0; `JsonArray` includes it.
- Ieee754.PackUndoesUnpack: real numbers stand for `long double`, so that rounding and overflow of that type are not modelled.
- Ieee754.Pack754: only for numbers whose exponent fits its field; outside it the code shifts bits of a negative or too large exponent into the other fields.
- ProtoRoundTrip.MemberKeeps: message types without `oneof`, where setting one member clears the others.
- ProtoConvert.ParseJson: extensions are not looked up, and a `oneof` is read as separate fields.
- ProtoConvert.Json2Field: a nested message is changed in an object of its own and stored back, so that aliasing with a message held elsewhere is not modelled. Extensions are not looked up. Not-a-number doubles are left out.
- ProtoJson.ParseInto: presence is that of proto2; a proto3 field that holds its default counts as absent. A failed `RAPIDJSON_ASSERT` ends the call. RapidJSON's own parsing and printing of text are not modelled.
- Schemas in which a message type requires itself are excluded: printing a default instance of such a type does not end.
- PacketOverlay.Reflect: the bytes of a value are a parameter, because they come from a script; `setFieldString` copies the representation of a string object rather than its characters, and byte order is not modelled. Fields lie in range and embedded packets are acyclic.
- SqlStatements.FieldNameValueIndexStrings.ToStringInsert2: more than four key indexes are excluded, for which the source has no names; values are written as they are, without escaping quotes.
- SqlReading.InsertReadsBack: names and values that contain the quotes around them are shut out, because the source does not escape them; texts are in single quotes, the default. The same holds for SqlReading.RowReadsBack and SqlReading.DeclaredReadsBack.
- `toStringCSV`, `toStringTab`, `toStringJSON`, `findByLastName` and the default constructor, which leaves no message id.
- Supervisor.StepForgetsNone: one descriptor is dealt with in one step. Start counts, times and logging are left out. Any living child may still fail to execute its program, which kills its process group with SIGKILL (pkt2-impl.cpp:70-76); processes outside the supervisor are not in that group, and those that the supervisor may not signal are not told apart.
- `bin2hex`, `hex2bin`, sockets, databases, message queues, scripts, configuration files and command lines.
