# Verified models of the semi-index and of the code it is measured against

This project models four parts of the repository in Dafny and proves what they are for.

* **The JSON semi-index** (`semi_index/json_semi_index.hpp`). One scan of the raw text
  emits a navigation bit per character and two parentheses per structural character; all
  lookups then walk the parentheses and jump into the text. The text is modelled as a tree
  of values with arbitrary whitespace around each of them (`Layout`), so that "the index
  agrees with parsing" can be said for every layout: the object walk, the array walk, whole
  paths, and collections of several documents.
* **Random access over compressed text** (`semi_index/zrandom.*`). Iterators that may share
  one current-block slot, a block cache, and the compressor's checkpoints behave, over any
  run, like indexing into the original bytes.
* **The vendored jsoncpp reader and compact writer**. The reader terminates on every input
  and reports success exactly when it recorded no error; what it accepts, and as what, is given
  by a grammar (`Grammar`), for every text. Well-formed JSON whose literals and numbers can be
  decoded is read as what it denotes (`LayoutRead`), and parsing what the writer wrote gives the value back exactly for the values
  described by `Written.Survives`.
* **The vendored B-tree** (`3rd_party/mongodb/db/btree.*`). Buckets live in a store keyed by
  location. Insertion through any cascade of splits, removal through replacement, shifts,
  merges and root changes, location, advancing in both directions, the bottom-up builder, and
  the byte layout of a bucket. The shape of a tree is described by a local invariant on each
  bucket with a ghost height and a ghost key interval; from it follow that every entry is in
  one place, that searching finds it, and that the in-order walk is strictly increasing. In an
  index grown from an empty one, by any run of insertions and removals, all leaves are equally
  deep and no key is ever marked unused (`Index.BtreeIndex.Grown`).

The files follow the program: `Basics`; `Lexer`, `Succinct`, `Keys`, `Builder`, `Layout`,
`Navigation`, `Children`, `Walks`, `Reach`, `LayoutWalk`, `Accessors` (the index); `ZRandom`;
`JsonValue`, `FastWriter`, `ReaderSpec`, `Written`, `Grammar`, `Reader`, `Separators` (jsoncpp); `Escapes`,
`WrittenLayout` and `LayoutRead` (where the index meets jsoncpp: how each treats escapes, what the index
makes of texts that jsoncpp writes, and what jsoncpp makes of the layouts the index is about); `Bucket`, `LowWater`, `BucketStorage`, `BtreeShape`, `BtreePack`, `BtreeSplit`, `BtreeLevel`, `BtreeInsert`, `BtreeOrder`,
`Btree`, `BtreeLocate`, `BtreeScan`, `BtreeDrop`, `BtreeJoin`, `BtreeBalance`, `BtreeLevelDown`,
`BtreeDelete`, `BtreeUnindex`, `BtreeBuilder`, `BtreePlanted`, `Index` (the tree).

## What turned out not to hold

Where the code falls short of what it is for, the model keeps the code and states the exact
condition.

* The key comparison of the semi-index agrees with decoding on all literals exactly for keys
  without a quote (`Keys.CheckKeyExact`).
* Behind a comma, the object walk starts to look for a key one character late. It finds what
  a lookup in the tree finds exactly as `Children.ObjectWalkExact` says; `{"a":1,"b":2}` is a
  document in which it misses a member (`Children.TightMemberMissed`).
* In an object written `{ }` the object walk compares the key with whatever literal stands behind
  the object. If that spells the key, as in `[{ },"a"]`, the lookup is reported as found, with a
  closing parenthesis for its node (`Children.BlankObjectFound`, `Accessors.BlankMemberFound`);
  otherwise the walk asks for the partner of a closing parenthesis.
* The steps of a lookup in a document, and the range it finds if it finds one, depend on nothing
  behind that document exactly if no key comparison along the path comes to the end of the document
  undecided (`Accessors.LocalityExact`); then the lookup is the same in every collection
  (`Accessors.Locality`). That holds for every key without a quote
  that begins with neither a colon nor a blank (`LayoutWalk.PlainIsLocal`), but not for all keys
  (`Accessors.OddKeyNotLocal`).
* The literal parser of the index knows the eight short escapes only. It decodes a literal to what
  the jsoncpp reader decodes it to exactly if the literal has no other escape
  (`Escapes.DecodersAgree`), and what the writer wrote to the string written exactly if that string
  has no control characters but those with a short escape (`Escapes.WrittenForIndex`).
* The compact writer puts no blank before a member, so in an object it has written the index finds
  the first member only: it finds what a lookup in the tree finds exactly if the key is not that of
  a later member (`WrittenLayout.WrittenKeys`).
* An array with a blank in it has, for the array walk, one element; `Children.ArrayWalkExact`
  says for which arrays and indices the walk is right.
* Integers near the ends of the 32-bit range do not survive writing and reading;
  `ReaderSpec.IntegerExact` gives the exact bounds.
* The test for a bad separator in `readArray` can never be true
  (`3rd_party/jsoncpp/json_reader.cpp:566-567`): behind an element and any comments, every token
  but the closing bracket separates. Items joined by any such tokens are read back as those items
  (`Separators.ReadJoined`), and `[1 2 3]` is accepted as `[1,3]`
  (`Separators.MissingCommaAccepted`).
* `readObject` tests the token behind a value before it skips comments, so behind a comment any
  token but the closing brace separates members; and the test for an empty object lets a closing
  brace follow a separator behind a member with an empty name. `Separators.ReadEntries` says what
  is read for all such texts, `Separators.CommentSeparates` and `Separators.TrailingCommaAccepted`
  are instances.
* The block cache evicts the entry with the smallest block number, whatever its timestamp
  (`ZRandom.Cache.Victim`); nothing is claimed about recency.
* The bottom-up builder refuses an oversized key only when it does not fit into the current
  bucket. Building the higher levels ends exactly if no level with several buckets is stuck, that
  is, has no two neighbours whose last keys fit into one bucket (`BtreeBuilder.EndsExactly`). With
  keys within the limit that never happens (`BtreeBuilder.LimitNeverStuck`); with oversized keys
  that fit it can (`BtreeBuilder.OversizeNeverEnds`).

## Model

| member | source | states |
|---|---|---|
| `Lexer.NavMeaning` | semi_index/json_semi_index.hpp:43-89 | one navigation bit per character, set exactly at the structural characters outside literals |
| `Lexer.BpLength` | semi_index/json_semi_index.hpp:43-89 | two parentheses for every navigation bit that is set |
| `Lexer.ClosedConcat` | semi_index/json_semi_index.hpp:33-90 | behind a text that leaves no literal open, a further text contributes its own bits and parentheses |
| `Builder.ScanText` | semi_index/json_semi_index.hpp:38-89 | the scan loop appends exactly the bits and parentheses of the text, and fails exactly if a literal is unterminated |
| `Builder.Build` | semi_index/json_semi_index.hpp:27-94 | the constructor throws exactly if some text has an unterminated literal; otherwise the vectors are those of the concatenated texts |
| `Layout.EncodeBalanced` | semi_index/test_json_semi_index.cpp:9-17 | the recursive parenthesis encoding of a value is balanced |
| `Layout.BpEncodes` | semi_index/json_semi_index.hpp:43-89 | the parentheses of a well-formed document are the recursive encoding of its tree |
| `Layout.ChildMeaning` | semi_index/json_semi_index.hpp:254-334 | the slot of a layout addressed by a key or an index denotes the child of the denoted value: first matching key, negative indices from the end |
| `Layout.LocateMeaning` | semi_index/json_semi_index.hpp:140-152 | locating a path in a layout and looking it up in the denoted value agree |
| `Succinct.SelectRank` | semi_index/json_semi_index.hpp:336-343 | select is the only set bit with the given number of set bits before it |
| `Succinct.Matching` | semi_index/json_semi_index.hpp:345-347 | around a balanced run, find_close and find_open lead from one end to the other |
| `Keys.CheckKey` | semi_index/json_semi_index.hpp:350-370 | the loop accepts exactly if the text behind the first quote spells the key and a quote follows |
| `Keys.SpellsDecodes` | semi_index/json_semi_index.hpp:356-369 | on a complete literal, a key without a quote is spelled exactly if the literal decodes to it |
| `Keys.CheckKeyExact` | semi_index/json_semi_index.hpp:350-370 | the comparison is right on every literal exactly for the keys without a quote |
| `Keys.QuoteMisleads` | semi_index/json_semi_index.hpp:356-369 | for every key with a quote there is a literal it is wrongly taken for |
| `Keys.ParseQuoted` | semi_index/json_spirit_parser.cpp:37-51 | the literal parser stops behind the closing quote with the decoded characters, and fails at the end of the text |
| `Keys.LiteralScans` | semi_index/json_semi_index.hpp:67-85 | a complete literal leaves the scan outside literals and adds no parentheses |
| `Keys.RawExact` | semi_index/json_semi_index.hpp:67-85 | a text is a complete literal exactly if the scan of a literal is still in it behind the text, not escaped, and has not left it before |
| `Navigation.SelectStructural` | semi_index/json_semi_index.hpp:336-338 | select on a node of a structural character outside literals is its position |
| `Navigation.SlotParens` | semi_index/json_semi_index.hpp:345-347 | the parentheses around a slot match each other, whatever surrounds its document |
| `Navigation.ChildPlace` | semi_index/json_semi_index.hpp:266-284 | every slot of a container stands at the node its position gives |
| `Navigation.Siblings` | semi_index/json_semi_index.hpp:306-328 | find_close plus one leads from slot to slot, in either direction, and to a closing parenthesis behind the last |
| `Navigation.ContainerNode` | semi_index/json_semi_index.hpp:255-256 | rounding a node up to even gives the opening bracket of the container in its slot |
| `Children.RangeOf` | semi_index/json_semi_index.hpp:336-343 | get_pos and FindEnd bracket exactly the text of the slot, for roots and for elements |
| `Children.RangesNested` | semi_index/json_semi_index.hpp:160-164 | get_range of every child lies strictly inside get_range of its container, whichever of its two nodes the container is reached by |
| `Children.RangesOrdered` | semi_index/json_semi_index.hpp:160-164 | the ranges of siblings are disjoint and in order |
| `Children.GetObjectChild` | semi_index/json_semi_index.hpp:254-286 | the walk ends exactly at the value node of the first member it accepts, or fails; in an object with only blanks in it, when the text behind it spells the key, at a closing parenthesis |
| `Children.ObjectWalkExact` | semi_index/json_semi_index.hpp:254-286 | for every key: the object walk finds what the lookup in the tree finds exactly if it accepts that member and none before it; for keys without a quote this comes down to members written without a blank before the key |
| `Children.ObjectWalkOrdinary` | semi_index/json_semi_index.hpp:254-286 | the same for ordinary keys, as a condition on the blanks before the keys |
| `Children.TightProbe` | semi_index/json_semi_index.hpp:283-284 | without a blank before the key, what is compared is the rest of the literal behind its first quote |
| `Children.TightMemberMissed` | semi_index/json_semi_index.hpp:277-284 | a concrete document without blanks in which a member is not found |
| `Children.BlankObjectHasNoValueNode` | semi_index/json_semi_index.hpp:261-264 | in an object with only blanks in it, the node taken for a value is a closing parenthesis |
| `Children.BlankObjectFound` | semi_index/json_semi_index.hpp:261-284 | for every object with only blanks in it and every key the text behind it spells: found, at a closing parenthesis, although the tree has no such member |
| `Children.BlankDocumentSpells` | semi_index/json_semi_index.hpp:274-282 | `[{ },"a"]` is such a document for the key `a` |
| `Children.GetArrayChild` | semi_index/json_semi_index.hpp:288-334 | both walks end exactly at the node of the element asked for, or fail, and never leave the array |
| `Children.ArrayWalkExact` | semi_index/json_semi_index.hpp:288-334 | when exactly the array walk finds what the lookup in the tree finds |
| `Children.BackwardIsForward` | semi_index/json_semi_index.hpp:316-331 | stepping back k times from the closing parenthesis and stepping forward n - k times from the opening one lead to the same node, for 1 <= k <= n; both leave the slots exactly after n steps |
| `Children.FromEitherEnd` | semi_index/json_semi_index.hpp:288-334 | looking up index -k and index n - k with the code succeeds, and returns the same node, exactly for 1 <= k <= n in an array not written `[]` |
| `Walks.WalkShift` | semi_index/json_semi_index.hpp:140-152 | the walks along a path depend on where a document stands only relative to its own text |
| `Walks.PathExact` | semi_index/json_semi_index.hpp:140-152 | a path leads where a parser would go exactly if every step is the one a parser takes, or if both come to nothing behind the first that is not |
| `Reach.DecidedInside` | semi_index/json_semi_index.hpp:356-369 | a comparison decided within a text comes out the same whatever follows it |
| `Reach.UndecidedAtEnd` | semi_index/json_semi_index.hpp:356-369 | a comparison that comes to the end of a text undecided fails there, and succeeds before some continuation |
| `Reach.StepExact` | semi_index/json_semi_index.hpp:254-286 | one step of the walks is the same whatever follows the document exactly if no comparison up to the one that succeeds comes to its end undecided |
| `Reach.LocalExact` | semi_index/json_semi_index.hpp:140-152 | the same along a whole path, for the slots gone through and, if something is found, for its range |
| `LayoutWalk.WalkTakes` | semi_index/json_semi_index.hpp:254-286 | for keys that cannot continue the text behind a literal, the object walk depends on the members alone, whatever text surrounds the object, and takes the member the layout says |
| `LayoutWalk.SafePlace` | semi_index/json_semi_index.hpp:140-152 | where the members and arrays on the way are written so that each step is right, the walks lead where a parser would go |
| `LayoutWalk.PlainIsLocal` | semi_index/json_semi_index.hpp:254-286 | what the layout alone tells is local in that sense, in every text |
| `Accessors.Child` | semi_index/json_semi_index.hpp:120-138 | one step of an accessor is valid exactly if the walk of that step finds a slot, and then stands at its node; for most keys that slot is told by the layout, and on a safe layout it is the child |
| `LayoutWalk.PlainWalk` | semi_index/json_semi_index.hpp:140-152 | along a whole path the walks lead where the layout alone says, whatever surrounds the document |
| `Accessors.GetPath` | semi_index/json_semi_index.hpp:140-152 | on every layout a path is valid exactly if the walks along it find a slot, and then stands at it; on a safe layout that is exactly the slot the layout has for the path (by `Layout.LocateMeaning`, where tree lookup finds a value) |
| `Accessors.RangeMeaning` | semi_index/json_semi_index.hpp:160-164 | the text in the range of a path, trimmed, is the rendering of the value that lookup finds |
| `Accessors.CursorNode` | semi_index/json_semi_index.hpp:232-236 | where the k-th document begins among the parentheses and in the text |
| `Accessors.First` | semi_index/json_semi_index.hpp:243-245 | the first cursor stands at the first document |
| `Accessors.Next` | semi_index/json_semi_index.hpp:212-220 | next leads to the following document, and to the null cursor behind the last |
| `Accessors.SelectOne` | json_select.cpp:161-180 | a path lookup from the k-th cursor gives the range the walks lead to; for a local path, the range that document alone determines; on a safe layout, the range a parser reports |
| `Accessors.SelectAll` | json_select.cpp:150-183 | for a list of paths the select loop ends, visits every document once and in order, and yields for each path the range the walks lead to: for a local path the one that document alone determines, on a safe layout the one a parser reports |
| `Accessors.LocalityExact` | semi_index/json_semi_index.hpp:204-245 | what a lookup in a document goes through, and the range it finds, depend on nothing behind the document exactly if no comparison along the path comes to its end undecided |
| `Accessors.Locality` | semi_index/json_semi_index.hpp:204-245 | for every such path, lookup in document k of a collection equals lookup in an index built on that document alone, whatever the other documents are |
| `Accessors.OddKeyNotLocal` | semi_index/json_semi_index.hpp:350-370 | two documents and a key for which the two lookups differ |
| `Accessors.BlankMemberFound` | semi_index/json_semi_index.hpp:261-284 | in an index built on `[{ },"a"]`, looking up the key `a` in the first element succeeds, at a closing parenthesis |
| `ZRandom.Compress` | semi_index/zrandom.cpp:37-61 | every position of the text lies in a recorded block, and inflating from a checkpoint gives that block |
| `ZRandom.LosslessExists` | semi_index/zrandom.cpp:37-61 | there is a codec as the compressor needs it |
| `ZRandom.Cache.Tick` | semi_index/zrandom.cpp:110-115 | the clock is 64 bits wide, and the cache is emptied when it wraps |
| `ZRandom.Cache.Get` | semi_index/zrandom.cpp:82-91 | a hit gives the true block and keeps the cache coherent; a miss changes nothing |
| `ZRandom.Cache.Victim` | semi_index/zrandom.cpp:95-102 | the loop picks the smallest block number |
| `ZRandom.Cache.Put` | semi_index/zrandom.cpp:93-108 | at most eight entries, coherent through eviction and wrap; only the victim leaves |
| `ZRandom.Decompressor.ReadBlock` | semi_index/zrandom.cpp:151-191 | the block returned is the true one, cached or not |
| `ZRandom.Dereference` | semi_index/zrandom.hpp:73-96 | reading gives the byte of the original text, whatever the shared slot holds; no assertion fails |
| `ZRandom.Step` | semi_index/zrandom.hpp:45-96 | every operation on any iterator, copies included, keeps all slots and the cache coherent |
| `ZRandom.Run` | semi_index/zrandom.hpp:45-96 | any run of creating, copying, moving and reading iterators reads what plain indexing reads |
| `ZRandom.CompressAndRun` | semi_index/zrandom.cpp:37-61 | the same from the original text, through compression |
| `JsonValue.PutOrdered` | 3rd_party/jsoncpp/json_value.cpp:1021-1043 | assigning a member keeps the members ordered by name, and gives that member the value |
| `JsonValue.PutOthers` | 3rd_party/jsoncpp/json_value.cpp:1021-1043 | assigning a member leaves all others as they were |
| `JsonValue.LessMeaning` | 3rd_party/jsoncpp/json_value.cpp:218-221 | one name precedes another exactly if it is a proper prefix of it, or has the lower character where the two first differ |
| `FastWriter.UintToString` | 3rd_party/jsoncpp/json_writer.cpp:30-40 | the buffer filled backwards holds the decimal digits and a terminator, and nothing is written outside |
| `FastWriter.IntToString` | 3rd_party/jsoncpp/json_writer.cpp:42-54 | the text of a signed integer |
| `FastWriter.UIntToText` | 3rd_party/jsoncpp/json_writer.cpp:57-64 | the text of an unsigned integer |
| `FastWriter.WrittenAs` | 3rd_party/jsoncpp/json_writer.cpp:126-173 | the switch over one character gives its escape, or the character itself |
| `FastWriter.ValueToQuotedString` | 3rd_party/jsoncpp/json_writer.cpp:111-177 | the quoted and escaped text, by either of the two branches |
| `FastWriter.Writer.WriteValue` | 3rd_party/jsoncpp/json_writer.cpp:207-263 | appends the rendering of the value to the document |
| `FastWriter.Writer.Write` | 3rd_party/jsoncpp/json_writer.cpp:197-204 | the document is the rendering with a newline |
| `ReaderSpec.IntegerExact` | 3rd_party/jsoncpp/json_reader.cpp:581-616 | a written integer reads back as itself exactly within the given bounds |
| `ReaderSpec.UnescapeEscape` | 3rd_party/jsoncpp/json_reader.cpp:657-700 | decoding an escaped string gives the string |
| `ReaderSpec.StringExact` | 3rd_party/jsoncpp/json_reader.cpp:657-700 | a written string reads back as itself exactly if it has no NUL |
| `Written.LiteralToken` | 3rd_party/jsoncpp/json_reader.cpp:463-474 | the token of a written string is the whole of it |
| `Written.IntegerToken` | 3rd_party/jsoncpp/json_reader.cpp:451-460 | the token of a written integer is the whole of it |
| `Written.ReadBackExact` | 3rd_party/jsoncpp/json_reader.cpp:194-242 | a value reads back as itself exactly if it survives |
| `Reader.Reader.ReadToken` | 3rd_party/jsoncpp/json_reader.cpp:273-345 | exactly the token at the cursor, comments with their ends included, and the cursor behind it |
| `Reader.Reader.RecoverFromError` | 3rd_party/jsoncpp/json_reader.cpp:773-787 | ends on every text, behind the first token of the kind asked for or behind the end of the text, with the errors as before and a negative result |
| `Reader.Reader.DecodeNumber` | 3rd_party/jsoncpp/json_reader.cpp:581-616 | the accumulation loop computes the number of the text, with its thresholds |
| `Reader.Reader.DecodeString` | 3rd_party/jsoncpp/json_reader.cpp:657-700 | the decoding loop computes the decoded text, or records one error, for the first escape that cannot be decoded |
| `Reader.Reader.DecodeCodePoint` | 3rd_party/jsoncpp/json_reader.cpp:703-730 | four hexadecimal digits, or two such halves of a surrogate pair, are decoded; anything else records the one error that tells what is wrong with it |
| `Reader.Reader.CodePointToUtf8` | 3rd_party/jsoncpp/json_reader.cpp:69-105 | the bytes filled in, last one first, are the UTF-8 form of the code point; none for one out of range |
| `Escapes.ShortUndone` | semi_index/escape_table.cpp:6-23 | a string written with all eight short escapes of section 7 of RFC 8259 is decoded to itself, by the literal parser of the index and by the reader, for every string |
| `Escapes.NulDecoded` | semi_index/escape_table.cpp:6-23 | a literal decodes to a text with a NUL in the index exactly if it has a NUL or an escape other than the eight |
| `Escapes.DecodersAgree` | semi_index/json_spirit_parser.cpp:37-51 | the literal parser of the index and the reader decode a complete literal to the same text exactly if it has short escapes only |
| `Escapes.Hex4Exact` | 3rd_party/jsoncpp/json_reader.cpp:733-758 | four characters are read as a number exactly if they are its hexadecimal digits, each in either case |
| `Escapes.SurrogatesJoin` | 3rd_party/jsoncpp/json_reader.cpp:712-722 | joining the two surrogate halves of a code point beyond the basic plane gives it back |
| `Escapes.UnicodeUndone` | 3rd_party/jsoncpp/json_reader.cpp:703-730 | a unicode escape for a code point, of six characters or a surrogate pair, is decoded to its UTF-8 form, whatever follows |
| `Escapes.LoneHalf` | 3rd_party/jsoncpp/json_reader.cpp:712-728 | the first half of a pair is refused exactly if no further unicode escape follows, or if what follows that is refused |
| `Escapes.Utf8Undone` | 3rd_party/jsoncpp/json_reader.cpp:69-105 | a decoder as section 3 of RFC 3629 has it, which refuses overlong forms, gives the code point back and leaves the text behind it, for every code point |
| `Escapes.EscapedCodePoints` | 3rd_party/jsoncpp/json_reader.cpp:657-700 | a text of any unicode escapes is decoded to the UTF-8 text of just those code points |
| `Escapes.EscapeClean` | 3rd_party/jsoncpp/json_writer.cpp:111-177 | a written string has no bare control character and no bare quote, and is a complete literal; it has short escapes only exactly if each of its control characters has one |
| `Escapes.EscapeCharIs` | 3rd_party/jsoncpp/json_writer.cpp:126-173 | what is written for a character: its short escape, a unicode escape with upper-case digits for other control characters, the character itself in all other cases |
| `Escapes.WrittenForIndex` | 3rd_party/jsoncpp/json_writer.cpp:111-177 | the literal parser of the index decodes a written string to the string exactly if its control characters all have short escapes |
| `WrittenLayout.LayoutText` | 3rd_party/jsoncpp/json_writer.cpp:197-263 | what the writer writes for a value is the text of a layout, given by recursion over the value |
| `WrittenLayout.LayoutValid` | 3rd_party/jsoncpp/json_writer.cpp:197-263 | that layout is well-formed JSON |
| `WrittenLayout.LayoutMeaning` | 3rd_party/jsoncpp/json_writer.cpp:197-263 | it denotes the value written, to the index, exactly if all strings and names in it can be read back by the index |
| `WrittenLayout.WrittenKeys` | semi_index/json_semi_index.hpp:254-286 | in a written object with ordinary names the object walk finds the first member only, so it finds what a lookup in the tree finds exactly if the key is that of no later member |
| `Grammar.WrittenValue` | 3rd_party/jsoncpp/json_writer.cpp:197-263 | where a written value stands, behind any blanks, the value found is what it reads back as, and ends where it ends |
| `Grammar.JoinedValue` | 3rd_party/jsoncpp/json_reader.cpp:538-578 | items joined by any tokens but the closing bracket make up an array of those items; no array exactly if one of them is no value |
| `Grammar.EnteredValue` | 3rd_party/jsoncpp/json_reader.cpp:479-535 | members joined by commas, or by comments and any one token but the closing brace, make up an object in which they are assigned in turn |
| `Grammar.ReadWritable` | 3rd_party/jsoncpp/json_reader.cpp:194-242 | whatever is read is as the value class keeps it, with 32-bit integers and members in name order, and can be written exactly if it has no doubles |
| `LayoutRead.SlotRead` | 3rd_party/jsoncpp/json_reader.cpp:194-242 | in any text, a well-formed value with any blanks around it and in it, whose literals and numbers can be decoded, is found and ends where it ends: numbers and strings decoded, members assigned in turn |
| `LayoutRead.LayoutAccepted` | 3rd_party/jsoncpp/json_reader.cpp:150-191 | so every such JSON text is accepted and read as the value it denotes, whether comments are allowed or not |
| `Reader.Reader.ReadValue` | 3rd_party/jsoncpp/json_reader.cpp:194-242 | on every text: gives the value that `Grammar.ValueAt` finds behind the cursor and stops where it ends, and fails exactly if there is none; then exactly one error is recorded, that of the first place where the text goes wrong, with the message and token `Grammar.ValueComplaint` says; a value that is no container leaves the node as it was on failure |
| `Reader.Reader.ReadArray` | 3rd_party/jsoncpp/json_reader.cpp:538-578 | the same for the rest of an array; on success the tokens found in the text behind the elements, comments skipped, are the separators: the last is the closing bracket and ends the array, no other is; on failure the rest has been skipped up to a closing bracket or the end |
| `Reader.Reader.ReadObject` | 3rd_party/jsoncpp/json_reader.cpp:479-535 | the same for the rest of an object: name, colon, value and separator in turn, a later member of the same name replacing; on failure the rest has been skipped up to a closing brace or the end |
| `Reader.Reader.Parse` | 3rd_party/jsoncpp/json_reader.cpp:150-191 | ends on every input with the cursor within bounds; succeeds exactly if a value stands at the beginning, a container where that is asked for, and then gives it; the errors are the one for the value, if there is none, and the one for a root that is no container; returns true exactly if there are none |
| `Reader.RoundTrip` | 3rd_party/jsoncpp/json_writer.cpp:197-263 | writing and parsing gives an equal value exactly for the values that survive |
| `Separators.ReadJoined` | 3rd_party/jsoncpp/json_reader.cpp:538-578 | items joined by any tokens but the closing bracket, with comments and blanks, are read back as those items; a failure exactly if one of them fails |
| `Separators.MissingCommaAccepted` | 3rd_party/jsoncpp/json_reader.cpp:563-575 | `[1 2 3]` is accepted, as `[1,3]` |
| `Separators.ReadEntries` | 3rd_party/jsoncpp/json_reader.cpp:479-535 | members joined by commas, or by comments and any one token but the closing brace, are assigned in turn; behind a member with an empty name a separator may precede the brace; a failure exactly if a value fails |
| `Separators.CommentSeparates` | 3rd_party/jsoncpp/json_reader.cpp:515-531 | `{"a":1/**/2"b":3}` is accepted, as `{"a":1,"b":3}` |
| `Separators.TrailingCommaAccepted` | 3rd_party/jsoncpp/json_reader.cpp:486-496 | `{"":1,}` is accepted, as `{"":1}` |
| `Bucket.Pack` | 3rd_party/mongodb/db/btree.cpp:406-445 | keeps the keys that may not be dropped in order, reclaims all dead space, and the tracked position follows its key |
| `Bucket.KeptKeys` | 3rd_party/mongodb/db/btree.cpp:379-381 | the first key, the tracked key, and every key that is used or has a child is kept, each in its turn |
| `Bucket.KeptOnly` | 3rd_party/mongodb/db/btree.cpp:379-381 | no other key is kept |
| `Bucket.SplitPos` | 3rd_party/mongodb/db/btree.cpp:470-492 | the loop finds the halfway (or tenth) point, clamped to the inside |
| `Bucket.SplitHasRoom` | 3rd_party/mongodb/db/btree.cpp:1254-1269 | splitting a full packed bucket leaves both halves nonempty and room for the pending key in its half |
| `Bucket.RebalancedSeparatorPos` | 3rd_party/mongodb/db/btree.cpp:864-905 | the three loops find the halfway point of both neighbours and their separator |
| `Bucket.LowWaterMark` | 3rd_party/mongodb/db/btree.cpp:58-74 | below the mark and too big to merge: the keys really move, and both buckets are nonempty and fit |
| `LowWater.LowWaterExact` | 3rd_party/mongodb/db/btree.cpp:58-74 | the mark is the greatest that works: neighbours too big to merge, one of them below a mark, are always divided elsewhere than before if and only if that mark is no higher |
| `BucketStorage.Storage.Put` | 3rd_party/mongodb/db/btree.cpp:347-375 | a key put in at a position: the accounting adds up, no two keys share a byte, all other bytes are kept |
| `BucketStorage.Storage.PushBack` | 3rd_party/mongodb/db/btree.cpp:314-328 | the same at the end, for keys of any size; refused exactly if there is no room |
| `BucketStorage.Storage.DelKeyAt` | 3rd_party/mongodb/db/btree.cpp:279-289 | the bytes of the other keys are kept, and the bucket is the value with that key dropped |
| `BucketStorage.Storage.Repack` | 3rd_party/mongodb/db/btree.cpp:406-445 | the bytes of the kept keys are intact, in order, without gaps, at exactly the packed size |
| `BucketStorage.Storage.Pack` | 3rd_party/mongodb/db/btree.cpp:401-405 | the byte layout after packing is that of the packed value |
| `BucketStorage.Storage.BasicInsert` | 3rd_party/mongodb/db/btree.cpp:338-376 | inserts in place, or after packing, or refuses; the position follows its place |
| `BucketStorage.Storage.TruncateTo` | 3rd_party/mongodb/db/btree.cpp:447-451 | the first keys with their bytes, packed |
| `BucketStorage.Storage.DropFront` | 3rd_party/mongodb/db/btree.cpp:513-520 | the last keys with their bytes, packed |
| `BucketStorage.Storage.PrependKeys` | 3rd_party/mongodb/db/btree.cpp:494-511 | reserving and setting keys in front: their bytes, then the old ones |
| `BucketStorage.Storage.AbsSpace` | 3rd_party/mongodb/db/btree.cpp:249-260 | the accounting of the bytes satisfies that of the value exactly if the keys are within the size limit |
| `BtreeShape.InsertKeeps` | 3rd_party/mongodb/db/btree.cpp:1160-1199 | putting a key with a loose right subtree into a bucket with room keeps order, intervals and parent links |
| `BtreePack.PackKeeps` | 3rd_party/mongodb/db/btree.cpp:401-445 | packing a bucket keeps the tree well formed |
| `BtreePack.PackedGap` | 3rd_party/mongodb/db/btree.cpp:338-345 | the place of a pending key survives packing |
| `BtreeSplit.SplitKeeps` | 3rd_party/mongodb/db/btree.cpp:1209-1229 | splitting off the right half leaves a well-formed tree with that half loose |
| `BtreeSplit.HalvesHeld` | 3rd_party/mongodb/db/btree.cpp:1209-1229 | the right half holds the keys behind the split, packed, with what was last; the left half holds those before it, with the left child of the promoted key last |
| `BtreeSplit.GrowKeeps` | 3rd_party/mongodb/db/btree.cpp:1234-1243 | a new root above the old one keeps the tree well formed |
| `BtreeLevel.SplitWide` | 3rd_party/mongodb/db/btree.cpp:470-492 | of the halves of a full bucket, the one that does not get the pending key has two keys at least |
| `BtreeInsert.Find` | 3rd_party/mongodb/db/btree.cpp:677-728 | binary search with the unused bit masked: the key, or the place it goes before |
| `BtreeInsert.InsertHere` | 3rd_party/mongodb/db/btree.cpp:1147-1201 | through any cascade of splits: a well-formed tree with exactly that entry more; no bucket runs empty, and no key, used or unused, comes from nowhere or changes its size; equally deep leaves stay equally deep |
| `BtreeInsert.Split` | 3rd_party/mongodb/db/btree.cpp:1203-1273 | the same for a full bucket; the insertion after the split does not split again |
| `BtreeOrder.SearchNarrows` | 3rd_party/mongodb/db/btree.cpp:1541-1549 | a bucket whose interval holds an entry hangs below the child the search goes to |
| `BtreeOrder.InOrderIsSorted` | 3rd_party/mongodb/db/btree.cpp:1501-1550 | the in-order walk of a well-formed tree is strictly increasing and lists exactly the used entries |
| `BtreeOrder.KeysAscend` | 3rd_party/mongodb/db/btree.cpp:677-728 | in the in-order walk keys ascend, and the records of equal keys do |
| `Btree.InsertBelow` | 3rd_party/mongodb/db/btree.cpp:1501-1550 | finds the place and inserts; an unused key is used again; an entry already there is refused |
| `Btree.BtInsert` | 3rd_party/mongodb/db/btree.cpp:1567-1582 | exactly one used entry more, or a key over the limit, or an entry already there; all other keys, used or unused, were there before with the same size; a level tree stays level |
| `BtreeLocate.Locate` | 3rd_party/mongodb/db/btree.cpp:1344-1365 | the entry itself, or the next one in the direction asked for, or null if there is none; unused keys included |
| `BtreeLocate.Advance` | 3rd_party/mongodb/db/btree.cpp:1295-1342 | the next position in either direction: nothing is stored in between |
| `BtreeScan.Scan` | 3rd_party/mongodb/db/btree.cpp:1295-1365 | locating and advancing lists every used entry from a key on, once, in order, in either direction |
| `BtreeScan.ScanIsInOrder` | 3rd_party/mongodb/db/btree.cpp:1295-1365 | from the far end that is the in-order walk, or its reverse |
| `BtreeScan.Exists` | 3rd_party/mongodb/db/btree.cpp:586-602 | true exactly if some record has a used entry for the key |
| `BtreeScan.WouldCreateDup` | 3rd_party/mongodb/db/btree.cpp:608-630 | true exactly if the lowest used entry for the key is another record's |
| `BtreeScan.FindSingle` | 3rd_party/mongodb/db/btree.cpp:1596-1618 | the lowest record with a used entry for the key, or null exactly if there is none |
| `BtreeDrop.DropKeeps` | 3rd_party/mongodb/db/btree.cpp:279-289 | taking out a key keeps the tree well formed, with the child let go loose |
| `BtreeJoin.AbsorbKeeps` | 3rd_party/mongodb/db/btree.cpp:917-929 | joining two neighbours keeps the links of the tree consistent |
| `BtreeJoin.BypassKeeps` | 3rd_party/mongodb/db/btree.cpp:828-839 | the only child of an empty bucket takes its place |
| `BtreeJoin.LowerKeeps` | 3rd_party/mongodb/db/btree.cpp:828-833 | the only child of an empty root becomes the root |
| `BtreeBalance.SharedIs` | 3rd_party/mongodb/db/btree.cpp:971-1017 | sharing out keys is joining the neighbours and splitting at another key |
| `BtreeBalance.SharedInsertable` | 3rd_party/mongodb/db/btree.cpp:985-1014 | after that the new separator can go into the parent between the two |
| `BtreeLevelDown.LeavesEquallyDeep` | 3rd_party/mongodb/db/btree.cpp:1203-1273 | in a level tree all buckets that lack a child are equally deep, and lack all of them |
| `BtreeLevelDown.MergeLevel` | 3rd_party/mongodb/db/btree.cpp:907-938 | merging two neighbours leaves the tree level, with only their parent perhaps short of keys |
| `BtreeDelete.SetInternalKey` | 3rd_party/mongodb/db/btree.cpp:1121-1139 | a key replaces another between the same children, through any cascade of splits |
| `BtreeDelete.BalanceLeftToRight` | 3rd_party/mongodb/db/btree.cpp:971-994 | the left bucket keeps the keys before the split, the right one gets those behind it; the same used entries, a well-formed tree, no empty bucket |
| `BtreeDelete.BalanceRightToLeft` | 3rd_party/mongodb/db/btree.cpp:996-1017 | the left bucket gets the keys before the split, the right one keeps those behind it; the same used entries, a well-formed tree, no empty bucket |
| `BtreeDelete.DoBalanceChildren` | 3rd_party/mongodb/db/btree.cpp:1019-1037 | neighbours that must share hold their keys, packed and in order, divided at the halfway point, which is not where they were divided before; nothing else is lost or gained |
| `BtreeDelete.PackedDataSize` | 3rd_party/mongodb/db/btree.cpp:383-395 | the size the bucket has after packing |
| `BtreeDelete.IndexInParent` | 3rd_party/mongodb/db/btree.cpp:940-959 | the slot in which the bucket hangs; the failing branch is not reached |
| `BtreeDelete.CanMergeChildren` | 3rd_party/mongodb/db/btree.cpp:841-858 | true exactly if both packed neighbours and their separator fit into one bucket |
| `BtreeDelete.ReplaceWithNextChild` | 3rd_party/mongodb/db/btree.cpp:828-839 | the same used entries without the empty bucket |
| `BtreeDelete.DoMergeChildren` | 3rd_party/mongodb/db/btree.cpp:907-938 | the same used entries without the right bucket, and the parent balanced or bypassed in turn |
| `BtreeDelete.MayBalanceWithNeighbors` | 3rd_party/mongodb/db/btree.cpp:1039-1077 | acts exactly if the bucket is below the mark and has a neighbour; then it has shared keys with one, or merged with one because none was too big for that, the right one first; the same used entries, no key with a size it did not have, and no bucket but the root is empty |
| `BtreeDelete.HasNeighbour` | 3rd_party/mongodb/db/btree.cpp:1052-1055 | in a level tree every bucket but the root has a neighbour, so the missing-neighbour case does not arise |
| `BtreeUnindex.Settle` | 3rd_party/mongodb/db/btree.cpp:759-783 | what becomes of a bucket from which a key was taken: balanced if it needs it, deleted if empty and without neighbours, untouched otherwise |
| `BtreeUnindex.NextIsLeaf` | 3rd_party/mongodb/db/btree.cpp:798-806 | in a level tree the entry before a key with children is in a leaf, so no key is marked unused |
| `BtreeUnindex.DeleteInternalKey` | 3rd_party/mongodb/db/btree.cpp:808-826 | exactly one used entry less; the key itself stays behind, marked unused, exactly if the entry next to it has a child too, which in a level tree it never has |
| `BtreeUnindex.DelKeyAtPos` | 3rd_party/mongodb/db/btree.cpp:755-784 | exactly one used entry less, for every position; a bucket left too small is balanced, merged or, if empty and alone, deleted |
| `BtreeUnindex.Unindex` | 3rd_party/mongodb/db/btree.cpp:1080-1094 | removes exactly the entry asked for, says whether its key was there, and leaves its key behind exactly if that and the entry next to it have children; no key has a size it did not have; a level tree stays level and keeps no key behind |
| `Index.GainsInOrder` | 3rd_party/mongodb/db/btree.cpp:1567-1582 | gaining an entry puts it at its place in the in-order walk |
| `Index.LosesInOrder` | 3rd_party/mongodb/db/btree.cpp:1080-1094 | losing an entry takes just it out of the in-order walk |
| `Index.InsortUndone` | 3rd_party/mongodb/db/btree.cpp:1080-1094 | in a strictly increasing list, taking out the entry just put in gives the list back |
| `Index.WithoutUndone` | 3rd_party/mongodb/db/btree.cpp:1567-1582 | in a strictly increasing list, putting back the entry just taken out gives the list back |
| `Index.BtreeIndex.constructor` | 3rd_party/mongodb/db/btree.cpp:1276-1282 | a new index is one empty bucket with nothing in it, and grown: its leaves equally deep, no key unused |
| `Index.BtreeIndex.Insert` | 3rd_party/mongodb/db/btree.cpp:1567-1582 | the ordered contents gain just the entry; every key, with its size, was there before or is the one inserted; a grown index stays grown |
| `Index.BtreeIndex.Remove` | 3rd_party/mongodb/db/btree.cpp:1080-1094 | the ordered contents lose just the entry; every key, with its size, was there before; the result says whether its key was stored; a grown index stays grown, and keeps no key of an entry removed |
| `Index.InsertAndRemove` | 3rd_party/mongodb/db/btree.cpp:1080-1094 | inserting an entry that is not there and removing it again restores the contents |
| `Index.RemoveAndInsert` | 3rd_party/mongodb/db/btree.cpp:1567-1582 | removing an entry and inserting it again restores the contents |
| `BtreeBuilder.Builder.AddKey` | 3rd_party/mongodb/db/btree.cpp:1694-1719 | what is added, skipped and refused, and when exactly a key is out of order or a duplicate; the chain lists the keys added in order, strictly increasing whatever is offered where duplicates are refused; keys that come in turn are never refused, and the limit on sizes is kept |
| `BtreeBuilder.PoppedInOrder` | 3rd_party/mongodb/db/btree.cpp:295-311 | popping the last key of a bucket moves nothing in the order |
| `BtreeBuilder.RaisedKeeps` | 3rd_party/mongodb/db/btree.cpp:1731-1763 | a level holds the entries of the one below, in the same order, in sound buckets |
| `BtreeBuilder.RaisedKeys` | 3rd_party/mongodb/db/btree.cpp:1731-1763 | a level holds the keys of the one below with their sizes, none lost and none changed |
| `BtreeBuilder.RaisedCount` | 3rd_party/mongodb/db/btree.cpp:1735-1763 | a level has fewer buckets than the one below exactly if the last keys of two neighbours fit into one bucket |
| `BtreeBuilder.LevelShrinks` | 3rd_party/mongodb/db/btree.cpp:1721-1766 | with keys within the limit every level shrinks |
| `BtreeBuilder.StuckForever` | 3rd_party/mongodb/db/btree.cpp:1721-1766 | a level that does not shrink is repeated for ever |
| `BtreeBuilder.EndsExactly` | 3rd_party/mongodb/db/btree.cpp:1721-1766 | building ends if and only if no level reached with more than one bucket is stuck |
| `BtreeBuilder.LimitNeverStuck` | 3rd_party/mongodb/db/btree.cpp:1721-1766 | with keys within the limit no level is ever stuck |
| `BtreeBuilder.OversizeNeverEnds` | 3rd_party/mongodb/db/btree.cpp:1706-1766 | a run of three keys the code accepts, from which building does not end |
| `BtreeBuilder.BuildNextLevel` | 3rd_party/mongodb/db/btree.cpp:1721-1769 | wherever building ends at all, a tree whose in-order walk is exactly the keys added |
| `BtreeBuilder.Builder.Commit` | 3rd_party/mongodb/db/btree.cpp:1772-1775 | the tree built has the keys added, in order, in sound buckets |
| `BtreeBuilder.BuildRun` | 3rd_party/mongodb/db/btree.cpp:1694-1775 | a whole run added in turn and committed: the tree lists exactly the keys accepted, with their sizes, and all of the run if they are within the limit |
| `BtreeBuilder.BuildWithin` | 3rd_party/mongodb/db/btree.cpp:1694-1775 | every sorted run of keys within the limit is built to a tree listing exactly that run, with the sizes of its keys |
| `BtreePlanted.BuiltIsTree` | 3rd_party/mongodb/db/btree.cpp:1721-1769 | the built tree, laid out in a store, is a well-formed tree with no empty bucket below the root and the same in-order walk, so that searching, inserting and removing apply to it; every key in the store is one of the tree, with its size |
| `Index.BtreeIndex.FromRun` | 3rd_party/mongodb/db/btree.cpp:1694-1775 | an index built from a strictly increasing run has exactly that run as its contents, and every key in it has the size it had there |

## Left out

- The succinct structures (Elias-Fano, the balanced-parentheses vector, the file mapper) are replaced by scans with their usual meaning.
- Positions, nodes and indices are unbounded integers; `size_t` and `int64_t` widths are not modelled.
- Reading past the end of a text gives NUL, as at the end of a C string; out-of-bounds iterators are not modelled.
- zlib is foreign: that inflating from a checkpoint gives back the block is assumed (`ZRandom.Lossless` is a precondition).
- Files, memory mapping and freezing of the compressed file and the index are not modelled.
- The Spirit grammars and the path parser are not modelled; paths are taken as parsed.
- `accessor::parse` is not modelled beyond the text it is given.
- Accessors.Child: does not cover the lookup of a key in an object with only blanks in it, nor do `Accessors.GetPath`, `Accessors.SelectOne` and `Accessors.SelectAll`; `Children.GetObjectChild` says what happens there when the text behind spells the key.
- Accessors.LocalityExact: is exact over the texts that may follow a document; which of them are documents again is not considered, so for collections of documents the condition of `Accessors.Locality` is sufficient.
- Children.GetObjectChild: an object with only blanks in it is covered when the text behind it spells the key; otherwise the code asks for the partner of a closing parenthesis, which no structure promises.
- In jsoncpp, the node stack is modelled by passing and returning values; comments are skipped but not collected; `readToken`, which always succeeds, returns no flag; the loops of readObject, readArray and the writer, and the switch of valueToQuotedString, are split into methods.
- Error messages are modelled by one constructor per message text; line and column formatting is left out.
- Doubles are formatted and scanned by foreign routines, which are parameters here; the styled writers are left out.
- Reader.RoundTrip: covers values whose member names have no NUL, as names are C strings in the value type.
- Buckets of the tree are values in a store; the update of one bucket's bytes in place is modelled in `BucketStorage` only, without pointers between buckets. Durability, write intents and record allocation are left out.
- Keys are abstracted to their place in the index order and their size; BSON layout and comparison are left out. Record locations are integers whose lowest bit marks a key unused.
- BtreeInsert.Split: allocates a new root before the right half, and cuts the left half off before the promotion instead of after it; the two touch different fields.
- BtreeUnindex.DeleteInternalKey: takes the replacement out of its leaf before its copy goes up, instead of after; the copy only changes buckets above the leaf.
- BtreeDelete.BalanceLeftToRight: cuts the left bucket off before the separator is replaced, instead of after.
- BtreeDelete.BalanceRightToLeft: drops the front of the right bucket before the separator is replaced, instead of after.
- Unique indexes (the duplicate check inside `find`), `customFind`, `customLocate`, `advanceTo` and cursors over bounds are left out.
- BtreeBuilder.BuildNextLevel: works on buckets with what hangs below them; `BtreePlanted` lays the tree out in a store with its parent links. The freeing of emptied buckets is not modelled there.
- Index.BtreeIndex.FromRun: takes runs of used entries, strictly increasing by key and record; the builder itself also accepts other runs with equal keys.
- `popBack` on buckets not filled by pushing only, validation and dumping are left out.
- The rest of the database and of the vendored libraries is left out.
