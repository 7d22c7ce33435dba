# Verification of the mail distribution system

A Dafny 4.11 model of the parts of the system that have to be right for the rest to
work, with proofs of what they promise:

- **The JSON library** (`c++/base/cJSON.c`). `JsonText` and `JsonParse` say what a tree
  prints as and what a text parses to. `JsonGrammar` has the grammar of the texts, by
  derivations that spell out every token and all white space, and `JsonLanguage` proves
  that the parser accepts just these. `JsonLayout` reads what is printed character by
  character, and `JsonCanonical` proves that a printed text is the only one of its value
  with that layout. `JsonRoundTrip` proves that parsing undoes printing, `JsonUnicode`
  that the two passes over a string agree and which escapes come out as Unicode defines
  them. `JsonTree` has the nodes on the heap with the pointer surgery on their lists;
  `JsonParser` and `JsonPrinter` are the `parse_*` and `print_*` routines on that heap,
  proved to build and to print the trees that the texts specify, with every store into a
  character block checked to lie inside the allocated block, and every node that is
  allocated accounted for. `JsonDocument` runs the two one after the other.
- **The PDU stack** (`UtilPdu.cpp`, `ImPduBase.cpp`, `ImPduClient.cpp`, `imconn.cpp`).
  `Bytes`, `SimpleBuffer` and `PduWire` have the big-endian numbers, the growing buffer
  and the wire format; `PduCodec` packs and unpacks through a stream position;
  `ImConnection` is a connection over a socket that takes and gives any number of bytes.
  `PduStream` composes a sender, a channel and a receiver and proves the end-to-end
  property over all runs; `PduConnection` drives two of the connection objects through any
  calls and shows that they are where such a run leads.
- **The control plane** (`manager.cpp`, `servConn.cpp`, `clientConn.cpp`). `ControlPlane`
  is the replication of (status, delay, multi) by snapshot and deltas as a state machine;
  `ControlServer` has the objects that take its steps, and `ControlSystem` drives the manager
  and the workers through any events and shows that they are where a run of the machine
  leads.
- **The worker pool** (`worker.cpp`). `WorkerPool` is the master with its children and
  signals, statement by statement; `MasterProcess` is the code whose statements are those
  steps; `MailQueues` has the children with their queues and the shared counter, and one of
  them at work among the others.
- **Smaller parts.** `Base64`, `Delays` (`log_adhoc.c`), `Timers` (`EventDispatch.cpp`)
  and `References` (reference counts of sockets and connections through the event loop).

`Options` is the type of a pointer that may be null, and `Sequences` has what several
proofs need about sequences.

How C is read: a `const char *` into a NUL-terminated text is the text still ahead of it;
a block of memory is an array; a heap object is an instance of a class; widths and
wrap-around are written out where they matter (`uint16_t` counters, positions modulo
2^32, bytes of negative numbers). Results of the operating system are arbitrary: how much
a socket takes or gives, which child is reaped, when a signal comes, what an uninitialised
variable holds.

Properties that the code does not have are stated with the exact condition under which it
has them, and with an input on which it does not:

- Surrogate pairs whose high half has bit 0x40 set are joined to the wrong code point
  (`JsonUnicode.SurrogatesAgree`, `JsonUnicode.SurrogatesFail`).
- Three kinds of PDU are not read back as they were packed (`PduWire.PduRoundTrip`,
  `PduWire.Unsupported`). The reply with the status of all clients is refused, as are
  commands with an unknown id, and the connection is closed. The report of a finished client
  is taken for a registration whose type is whatever is found, and the command 16 for a
  change of rates; the stream goes on behind them (`PduStream.HandledIsPrefixOfSent`).
- A client misses changes while the type of its connection object is that of PHP, although
  its status request was answered (`ControlPlane.AgreementOnRuns`). That happens before it
  registers, when the uninitialised type happens to be this one
  (`ControlPlane.LateRegistration`), and after it has reported that it is done: that PDU
  carries the id of a registration and no type, so that whatever is found in its place is
  stored (`PduWire.Unsupported`, `ControlPlane.DoneRegisters`).
- The child counter loses track of the table in four ways: a signal without a dead child, a
  child that is stopped and dies later, one that dies before it is entered, and a retired one
  that crashes. And an adjustment can overshoot in a run in which none of these happens
  (`WorkerPool.CounterExactlyWhen` and the lemmas behind it, `WorkerPool.MetExactlyWhen`,
  `WorkerPool.Overshoot`).

Documentation and code differ in one place: `c++/base/ImPduBase.h:34` lists an own command
id for a finished client, but the packing constructor writes that of a registration
(`c++/base/ImPduClient.cpp:283`). The model follows the code. The one place that makes such a
report (`c++/client/worker.cpp:73`) builds it without an argument, by a constructor that its
class does not declare (`c++/base/ImPduClient.h:340-348`); what is said here of the report of a
finished client is said of what the packing constructor packs
(`c++/base/ImPduClient.cpp:281-290`).

Verify with `dafny verify dfyconfig.toml`.

## Model

| member | source | states |
|---|---|---|
| `JsonRoundTrip.NumberRoundTrip` | c++/base/cJSON.c:96-139 | the printed form of an int, in front of any text, is read back as that int with the pointer at the text, exactly when the text does not extend the number: it starts with no digit (a zero behind a printed zero is harmless), no fraction and no exponent |
| `JsonRoundTrip.StringRoundTrip` | c++/base/cJSON.c:143-235 | print_string_ptr then parse_string gives back every NUL-free string and stops at its closing quote, whatever follows |
| `JsonRoundTrip.ElemsRoundTrip` | c++/base/cJSON.c:309-376 | the printed elements of an array are read back in order, in both formats and at every depth, up to the closing bracket |
| `JsonRoundTrip.FieldsRoundTrip` | c++/base/cJSON.c:388-470 | the printed fields of an object are read back in order, repeated keys included, in both formats and at every depth |
| `JsonRoundTrip.ValueRoundTrip` | c++/base/cJSON.c:267-470 | every tree of null, booleans, ints, non-null strings, arrays and objects is read back from its text, and parsing stops exactly at the end of that text in front of anything that does not extend a number |
| `JsonRoundTrip.ParsedValuePrintable` | c++/base/cJSON.c:267-412 | a parsed value has only int numbers, and no null string or name |
| `JsonRoundTrip.PrintThenParse` | c++/base/cJSON.c:252-264 | cJSON_Parse of cJSON_Print and of cJSON_PrintUnformatted is the same tree with nothing left over, if and only if the tree has no null string or name and no number beyond an int |
| `JsonRoundTrip.FormattingKeepsMeaning` | c++/base/cJSON.c:263-264 | the formatted and the unformatted text parse to the same |
| `JsonUnicode.PassesAgree` | c++/base/cJSON.c:148-196 | the second pass of parse_string succeeds exactly on texts with complete escapes, then stops where the first pass stopped and writes no more bytes than the first pass counted |
| `JsonUnicode.UnicodeFits` | c++/base/cJSON.c:167-189 | a `\u` escape writes at most as many bytes as the first pass counted for it |
| `JsonUnicode.Utf8IsStandard` | c++/base/cJSON.c:180-187 | every code point is written as its UTF-8 sequence of section 3 of RFC 3629 (decoding that sequence by the standard, in shortest form, gives the code point) |
| `JsonUnicode.SurrogatesAgree` | c++/base/cJSON.c:172-178 | line 177 joins a pair to the code point of section 2.2 of RFC 2781 if and only if bit 0x40 of the high half is clear, and is 0x10000 short otherwise |
| `JsonUnicode.SurrogatesFail` | c++/base/cJSON.c:177 | the pair D840 DC00 is joined to U+10000 and not to U+20000 |
| `JsonUnicode.EscapeIsTranscoded` | c++/base/cJSON.c:167-189 | a `\u` escape (pair) with a meaning becomes the UTF-8 text of its code point, if and only if it is not a pair whose high half has bit 0x40 set |
| `JsonUnicode.MeaninglessEscapeIsDropped` | c++/base/cJSON.c:170-176 | an escaped NUL or lone half writes nothing |
| `JsonLanguage.PiecesRead` | c++/base/cJSON.c:143-200 | a string of characters, two-character escapes and `\u` escapes with digits in either case, up to its closing quote or the end of the text, is read as the grammar says, pairs of surrogates as one code point |
| `JsonLanguage.NumeralRead` | c++/base/cJSON.c:96-116 | an optional minus sign, an optional zero and digits that begin with another one are read as the decimal number, up to a character that would not belong to it |
| `JsonLanguage.ValueRead` | c++/base/cJSON.c:249-412 | every text of the grammar, with any white space around its tokens, in front of anything that does not continue it, is parsed to its value, and the pointer stops behind it |
| `JsonLanguage.SyntaxOf` | c++/base/cJSON.c:249-412 | conversely, what is parsed is a text of the grammar, and what follows does not continue it |
| `JsonLanguage.ParseExactlyWhen` | c++/base/cJSON.c:95-412 | for every text: cJSON_Parse returns a tree with the value v and stops in front of rest, if and only if the text is white space and a text of v by the grammar, in front of rest; the grammar is told without the parser and lists what the code tolerates beyond the standard |
| `JsonLanguage.OutsideHasCause` | c++/base/cJSON.c:96-200 | a text that the model leaves aside holds an escape that is cut off, or a number with a fraction, an exponent or a value beyond an int |
| `JsonLanguage.StandardIsRead` | c++/base/cJSON.c:95-412 | every text of RFC 8259 whose numbers are ints is parsed to its value |
| `JsonLayout.ValueNeat` | c++/base/cJSON.c:282-470 | inside any open brackets and in front of anything, a printed value passes a reader that knows the layout from the characters alone, and leaves the same brackets open |
| `JsonLayout.PrintIsNeat` | c++/base/cJSON.c:263-264 | unformatted text has nothing between its tokens; in formatted text there is a blank behind the commas of arrays, a tab behind colons, every line of an object has as many tabs as brackets are open, one less in front of its closing brace; strings are escaped in the one way of the printer, and numbers have no superfluous zero |
| `JsonLayout.NullText` | c++/base/cJSON.c:207-207 | a null string or name prints as nothing |
| `JsonCanonical.TextCanonical` | c++/base/cJSON.c:282-470 | a text of the grammar that passes the reader of the layout is the printed text of its value |
| `JsonCanonical.PrintExactlyWhen` | c++/base/cJSON.c:252-264 | for every text and every value without null strings: the text is what cJSON_Print (cJSON_PrintUnformatted) returns, if and only if it has that layout and cJSON_Parse makes the value of it |
| `JsonTree.ChainDistinct` | c++/base/cJSON.h:44-45 | a chain of siblings (each next the following item, the last one null) never comes back to an item: it is acyclic |
| `JsonTree.GetArraySize` | c++/base/cJSON.c:473 | the length of the child list |
| `JsonTree.GetArrayItem` | c++/base/cJSON.c:474 | the item at the position, the first one for a negative position, null beyond the end |
| `JsonTree.AddItemToArray` | c++/base/cJSON.c:483 | the child list becomes the list with the item and the chain behind it appended; in an empty list that is a proper child list if and only if the item had no previous item; nothing happens for a null item |
| `JsonTree.AddTree` | c++/base/cJSON.c:483 | appending a tree keeps a well-formed tree, whose children are the old ones in order and then the new one |
| `JsonTree.AddItemToObject` | c++/base/cJSON.c:484 | the same with the name hung on the item first; nothing happens for a null item |
| `JsonTree.DetachItemFromArray` | c++/base/cJSON.c:488-489 | the child list becomes the list without that position, all others in order, and the item comes out with both links null; nothing changes beyond the end |
| `JsonTree.SwapItem` | c++/base/cJSON.c:495-497 | the child list becomes the list with the new item at that position, and the old item has both links null |
| `JsonTree.DetachTree` | c++/base/cJSON.c:488-489 | on trees: a well-formed tree with the other names and values in order stays, and the detached kid is a well-formed tree of its own with both links null |
| `JsonTree.DeleteItemFromArray` | c++/base/cJSON.c:490 | the same, and exactly the nodes of the kid are freed, children before parents; nothing beyond the end |
| `JsonTree.SwapTree` | c++/base/cJSON.c:495-497 | on trees: a well-formed tree with the new name and value at that position and all others as they were |
| `JsonTree.ReplaceItemInArray` | c++/base/cJSON.c:495-497 | the same, and exactly the nodes of the replaced tree are freed; nothing beyond the end |
| `JsonTree.RemovedTree` | c++/base/cJSON.c:488-490 | a tree whose child list lost one kid is a well-formed tree with the remaining names and values in order |
| `JsonTree.ReplacedTree` | c++/base/cJSON.c:495-497 | a tree in whose child list another tree took a place is a well-formed tree with its name and value in that place |
| `JsonTree.Delete` | c++/base/cJSON.c:81-93 | frees exactly the nodes of all trees of a sibling list, children before parents; every node is live when it is looked at and when it is freed |
| `JsonTree.DeleteTree` | c++/base/cJSON.c:81-93 | frees every node of a tree exactly once, and no other node |
| `JsonTree.FreedExactly` | c++/base/cJSON.c:81-93 | the nodes that cJSON_Delete comes to are all nodes of the trees |
| `JsonTree.FreedOnce` | c++/base/cJSON.c:81-93 | no node occurs twice in the order in which cJSON_Delete frees |
| `JsonTree.LinkItem` | c++/base/cJSON.c:309-318 | linking a new item behind the last one appends it to the child list |
| `JsonTree.HangLast` | c++/base/cJSON.c:309-318 | a node that is linked before anything is parsed into it comes behind the kids, which stay as they are |
| `JsonTree.Assembled` | c++/base/cJSON.c:309-320 | once that node has become a tree, the whole is a well-formed tree with its name and value at the end |
| `JsonTree.LinkLast` | c++/base/cJSON.c:511 | linking a finished node: the tree stays well-formed and gains the new kid at its end |
| `JsonTree.AddNumbers` | c++/base/cJSON.c:511 | the loop makes the child list of the numbers in order |
| `JsonTree.CreateIntArray` | c++/base/cJSON.c:511 | builds a fresh well-formed tree that holds the array of the numbers; exactly its nodes are allocated |
| `JsonParser.SkipSpace` | c++/base/cJSON.c:249 | steps over the bytes from 1 to 32 |
| `JsonParser.ParseNumberAt` | c++/base/cJSON.c:96-116 | stores the int that the text starts with and returns the pointer behind it |
| `JsonParser.CountString` | c++/base/cJSON.c:148 | the number of bytes the first pass counts |
| `JsonParser.PutTrailing` | c++/base/cJSON.c:182-187 | the cases that fall through store the trailing bytes from the last to the second, six bits each, and leave what is in front and behind |
| `JsonParser.PutUtf8` | c++/base/cJSON.c:180-188 | stores the encoding inside the block and appends it to what was written |
| `JsonParser.PutUnicode` | c++/base/cJSON.c:167-189 | appends what the escape stands for, inside the block |
| `JsonParser.ParseStringAt` | c++/base/cJSON.c:143-200 | the two passes on a block of the counted size: every store is inside, and the item gets the unescaped text |
| `JsonParser.AddElement` | c++/base/cJSON.c:314-321 | one more element: linked, then parsed in place; the tree is well-formed also when that fails, its new nodes are the ones allocated, and elements and rest of the text are still the whole |
| `JsonParser.AddField` | c++/base/cJSON.c:397-408 | one more field: linked, then name and value parsed in place; the tree is well-formed also when that fails, its new nodes are the ones allocated, and fields and rest of the text are still the whole |
| `JsonParser.ParseElemsAt` | c++/base/cJSON.c:309-324 | builds the children of an array as a well-formed tree that holds what the text says, or fails with a well-formed tree |
| `JsonParser.ParseArrayAt` | c++/base/cJSON.c:300-325 | builds the tree of an array, from an empty one on |
| `JsonParser.ParseNameAt` | c++/base/cJSON.c:390-393 | the name is moved from the string to the name field, and the pointer is behind the colon |
| `JsonParser.ParseFieldsAt` | c++/base/cJSON.c:388-411 | builds the children of an object as a well-formed tree that holds the names and values of the text |
| `JsonParser.ParseObjectAt` | c++/base/cJSON.c:379-412 | builds the tree of an object, from an empty one on |
| `JsonParser.ParseValueAt` | c++/base/cJSON.c:267-279 | the tree built on the heap holds exactly the value that the text specifies, and the pointer is where that value ends; null for every other text that the model describes |
| `JsonParser.ParseText` | c++/base/cJSON.c:252-260 | cJSON_Parse returns a fresh well-formed tree that holds the value, with exactly its nodes newly allocated, or null with nothing allocated any more: whatever it had made is freed, each node once |
| `JsonPrinter.EscapedLength` | c++/base/cJSON.c:208 | the count is the length of the escaped text |
| `JsonPrinter.PrintStringPtr` | c++/base/cJSON.c:203-236 | the block of len+3 bytes is filled exactly with the escaped text and its terminator |
| `JsonPrinter.PutEscaped` | c++/base/cJSON.c:217-232 | appends the escape of one character, and the terminator that sprintf writes is still inside the block |
| `JsonPrinter.PutElems` | c++/base/cJSON.c:365-372 | the strcpy loop writes the entries with separators, inside the room that was counted for them |
| `JsonPrinter.ComposeArray` | c++/base/cJSON.c:352-375 | a block of the accumulated length holds the text of the array with its terminator; no store is outside |
| `JsonPrinter.PutFields` | c++/base/cJSON.c:455-464 | the loop writes names, separators, tabs and values, inside the room that was counted for them |
| `JsonPrinter.ComposeObject` | c++/base/cJSON.c:442-469 | a block of the accumulated length holds the text of the object with its terminator; no store is outside |
| `JsonPrinter.PrintNulFree` | c++/base/cJSON.c:282-297 | a printed text has no NUL, so that strlen and strcpy see all of it |
| `JsonPrinter.CollectElems` | c++/base/cJSON.c:342-349 | the entries are the texts of the children in order, and the length is 5 plus what each of them needs |
| `JsonPrinter.CollectFields` | c++/base/cJSON.c:432-439 | the names and entries are the texts of the children in order, and the length is 7 plus what each of them needs |
| `JsonPrinter.PrintNumberAt` | c++/base/cJSON.c:125-126 | the text of every int fits into the block of 21 bytes with its terminator |
| `JsonPrinter.PrintArrayAt` | c++/base/cJSON.c:328-376 | prints the tree of an array as its text |
| `JsonPrinter.PrintObjectAt` | c++/base/cJSON.c:415-470 | prints the tree of an object as its text |
| `JsonPrinter.PrintValueAt` | c++/base/cJSON.c:282-297 | prints any tree as the text of the value it holds |
| `JsonPrinter.PrintTree` | c++/base/cJSON.c:263-264 | cJSON_Print and cJSON_PrintUnformatted return the text of the value that the tree holds |
| `JsonDocument.PrintAndParse` | c++/base/cJSON.c:252-264 | on the heap: cJSON_Parse of the text that either printer returns for a tree builds a new tree with the same value, and leaves the old one as it is, if and only if that value has no null string; only the new nodes are allocated |
| `Bytes.Coding16` | c++/base/UtilPdu.cpp:97-101 | reading gives a number exactly when its two big-endian bytes are there |
| `Bytes.Coding32` | c++/base/UtilPdu.cpp:109-113 | reading gives a number exactly when its four big-endian bytes are there |
| `Bytes.SignedBytes` | c++/base/UtilPdu.cpp:127-133 | WriteInt32 of a length that went through int32_t stores the bytes of the unsigned length |
| `SimpleBuffer.Buffer.Extend` | c++/base/UtilPdu.cpp:33-42 | the queue is unchanged and the block is five quarters of what is needed |
| `SimpleBuffer.Buffer.Write` | c++/base/UtilPdu.cpp:44-59 | appends the bytes (or room for them) to the queue; the allocated size never shrinks |
| `SimpleBuffer.Buffer.Read` | c++/base/UtilPdu.cpp:61-72 | takes bytes from the front of the queue, at most as many as there are, and the rest stays in order |
| `SimpleBuffer.Buffer.IncWriteOffset` | c++/base/UtilPdu.h:32 | bytes stored behind the queue become its end |
| `PduWire.Read` | c++/base/ImPduBase.cpp:81-190 | a PDU is only read with its complete frame, the first bytes of the buffer, at least a header long |
| `PduWire.ReadIsStable` | c++/base/ImPduBase.cpp:177-190 | once something is read from the front of a buffer, it does not depend on the bytes behind |
| `PduWire.HeaderRoundTrip` | c++/base/ImPduBase.cpp:40-79 | the header fields come back from the bytes that WriteHeader stores |
| `PduWire.BodyRoundTrip` | c++/base/ImPduClient.cpp:18-266 | unpacking gives back the fields of every supported PDU |
| `PduWire.WireBytes` | c++/base/ImPduBase.h:15-45 | a packed PDU byte for byte: its length, the numbers of its module and its command, the version, two reserved bytes, and the fields with the high byte first, a text behind its length |
| `PduWire.ForeignIds` | c++/base/ImPduBase.cpp:81-190 | a frame is looked at exactly when it is there completely; one with a module id other than 1, 2 and 3 is refused with error 2, and one with a command id that its module does not have with error 3 |
| `PduWire.PduRoundTrip` | c++/base/ImPduBase.cpp:81-174 | a packed PDU followed by any bytes is read back as the same kind with the same fields and the length that WriteHeader stored, if and only if it is a server command in {1,2,4,8} or one of the other kinds but the reply with the status of all clients and the report of a finished client |
| `PduWire.Unsupported` | c++/base/ImPduClient.cpp:148-293 | what becomes of each of the others: the reply with the status of all clients is refused as badly parsed, another command than 16 for its id; a done report is read as a registration of any type, and the command 16 as a rate with delay 16 and any multi |
| `PduWire.TakenOrRefused` | c++/base/ImPduBase.cpp:81-190 | every packed PDU followed by any bytes is taken with its whole frame or refused, and which of the two does not depend on uninitialised memory |
| `PduWire.GivenByPacked` | c++/base/ImPduClient.cpp:148-293 | what is handled for a taken frame: the PDU itself, any registration in place of a done report, a rate with delay 16 in place of the command 16, and nothing else |
| `PduWire.PartOfWire` | c++/base/ImPduBase.cpp:177-190 | nothing is read from a proper beginning of a packed PDU |
| `PduWire.GotIsExact` | c++/base/ImPduBase.cpp:81-109 | a PDU that is read has a body equal to the packing of its fields, or, of those fields that are in a body too short, to the packing of these: nothing of the frame is left over, and a text ends with its last byte |
| `PduCodec.WriteInt32` | c++/base/UtilPdu.cpp:127-133 | stores four big-endian bytes in place |
| `PduCodec.WriteUint16` | c++/base/UtilPdu.cpp:121-125 | stores two big-endian bytes in place |
| `PduCodec.OutStream.PutString` | c++/base/UtilPdu.cpp:235-247 | appends the length word and the text; a null text counts as empty |
| `PduCodec.WriteHeader` | c++/base/ImPduBase.cpp:40-49 | the first twelve bytes become the header with the length of the buffer; the body stays |
| `PduCodec.Pack` | c++/base/ImPduClient.cpp:30-293 | the buffer of a freshly packed PDU holds its wire bytes |
| `PduCodec.InStream.GetUint16` | c++/base/UtilPdu.cpp:208-215 | reads a field and moves on; beyond the end the position stays and the field has any value |
| `PduCodec.InStream.GetString` | c++/base/UtilPdu.cpp:249-255 | the place and length of a text; the position moves on modulo 2^32 without a check |
| `PduCodec.WrappedPosition` | c++/base/ImPduBase.h:50-52 | a position computed modulo 2^32 is at the end of the body exactly when the length word is the rest of the body |
| `PduCodec.UnpackString` | c++/base/UtilPdu.cpp:249-281 | a text is accepted exactly when its length word equals the rest of the body; without a length word in the body it may be accepted, and is the rest of the body then |
| `PduCodec.UnpackCommand` | c++/base/ImPduClient.cpp:18-54 | the unpacking constructors of the commands, on every body: the fields, an exception, or a PDU whose fields beyond the end of the body have any value |
| `PduCodec.UnpackMsg` | c++/base/ImPduClient.cpp:79-154 | the unpacking constructors of the messages, on every body: the text, an exception, or either of these for a body without a length word |
| `PduCodec.UnpackOther` | c++/base/ImPduClient.cpp:175-279 | the unpacking constructors of the other kinds, on every body, in the same sense |
| `PduCodec.UnpackFrame` | c++/base/ImPduBase.cpp:81-174 | the constructor that the ids of the header choose, on the body in the block |
| `PduCodec.ReadPdu` | c++/base/ImPduBase.cpp:81-190 | on a block in memory: one of the outcomes that the specified reading leaves open, which is one alone but for fields and length words that are not in the body |
| `PduStream.DrainConserves` | c++/base/imconn.cpp:155-171 | the frames of the PDUs handled and what is left in the buffer are the buffer |
| `PduStream.DrainStops` | c++/base/imconn.cpp:155-171 | what is left never starts with a good frame, and draining has ended for what it starts with: an incomplete frame, a refused one, or one whose outcome depends on the memory |
| `PduStream.DrainAgain` | c++/base/imconn.cpp:155-171 | reading in two portions handles the same PDUs and leaves the same rest as reading at once |
| `PduStream.ChunkingDoesNotMatter` | c++/base/imconn.cpp:121-171 | after any series of chunks the PDUs handled and whether the connection is closed depend only on all bytes received, and while it is open the buffer too; refused frames may be among them |
| `PduStream.RunIsConsistent` | c++/base/imconn.cpp:82-198 | in every reachable state of a link the bytes received, in the channel and waiting are the packed PDUs in order, the sender is busy exactly when something waits, and the receiver is where its bytes take it |
| `PduStream.HandledIsPrefixOfSent` | c++/base/imconn.cpp:82-198 | over every run with any partial sends and reads, of any PDUs, the frames taken are a prefix of those of the PDUs in front of the first refused one, each read as what was packed; the receiver waits for the rest of a frame, or it has closed after all of these on a refused one; with nothing waiting or in the channel all of them have been taken |
| `PduStream.AllHandledExactlyWhen` | c++/base/imconn.cpp:82-198 | with nothing waiting or in the channel, everything sent has been taken if and only if no refused PDU was sent, and only then the connection is open; and each PDU was read with the fields it was sent with if and only if all were supported ones |
| `PduStream.NothingIsLost` | c++/base/imconn.cpp:82-198 | bytes handled, buffered, in the channel and waiting are together the bytes sent, in order |
| `ImConnection.AllTakenExactlyWhen` | c++/base/imconn.cpp:94-113 | the socket has got all that was to be sent if and only if it has never refused |
| `ImConnection.Socket.Send` | c++/base/netlib.cpp:50-59 | takes any part of the data, none when the result is not positive |
| `ImConnection.Socket.Recv` | c++/base/netlib.cpp:61-70 | stores any number of the bytes that have arrived, in order, where it is told |
| `ImConnection.ImConn.Send` | c++/base/imconn.cpp:82-119 | the socket is offered the data in portions of at most 128 KB, each the front of what is left, until all is taken or it refuses; the rest waits, and busy is set exactly when something does; while busy the socket is not offered anything and everything waits |
| `ImConnection.ImConn.SendPdu` | c++/base/imconn.h:30 | sends the wire bytes of the PDU |
| `ImConnection.ImConn.OnWrite` | c++/base/imconn.cpp:173-198 | while busy, the socket is offered what waits, portion by portion from the front, until nothing waits or it refuses; no longer busy exactly when nothing waits |
| `ImConnection.ImConn.Fetch` | c++/base/imconn.cpp:123-138 | asks the socket for what has arrived, 2048 bytes at most at a time, until it refuses, and appends exactly the bytes it gave |
| `ImConnection.ImConn.HandleOne` | c++/base/imconn.cpp:158-163 | reads the front of the buffer as specified, hands a PDU to its handler once and drops its frame; otherwise nothing changes |
| `ImConnection.ImConn.Dispatch` | c++/base/imconn.cpp:155-171 | handles the PDUs that draining the buffer gives, keeps the rest, and closes for a refused frame; nothing is promised behind a frame whose outcome depends on the memory |
| `ImConnection.ImConn.OnRead` | c++/base/imconn.cpp:121-171 | one delivery of the bytes taken from the socket, in the sense of the link |
| `PduConnection.Pair.Submit` | c++/base/imconn.cpp:82-119 | SendPdu on a connection object is the send step of the link that the answers of the socket make it, with the network between two objects as its channel |
| `PduConnection.Pair.Writable` | c++/base/imconn.cpp:173-198 | OnWrite on it is the write step that the answers of the socket make it |
| `PduConnection.Pair.Readable` | c++/base/imconn.cpp:121-171 | OnRead on the other object, unless it has closed the connection, is the receive step of all the bytes that its socket gave before it refused |
| `PduConnection.Pair.Drive` | c++/base/imconn.cpp:82-198 | whatever calls are made on the two objects and however the network moves the bytes, some run of the link leads to the state they are in |
| `PduConnection.Pair.Delivered` | c++/base/imconn.cpp:82-198 | so of the objects, whatever has been sent: the PDUs handled are one by one those sent in front of the first refused one, but a done report is handled as a registration of some type and the command 16 as a rate; all of them have been handled once nothing is on the way or the server has closed, which it does only when a refused PDU was sent |
| `ControlPlane.SettingsOnRuns` | c++/server/servConn.cpp:123-305 | after any run the status is that of the last START, STOP, PAUSE or RESUME or of the last report without remaining mails, and delay and multi are those of the last change of rates, told from the requests alone; stopped, 0 and 1 before any |
| `ControlPlane.Answers` | c++/server/servConn.cpp:123-305 | what each request puts into the channel of every connection: the command or the rates for all that are not of the PHP type, then for the sender the reply 0, the reply 0xFFFF to an unknown command, the settings, or the status of all clients; and the type that a registration stores |
| `ControlPlane.AfterRequest` | c++/server/servConn.cpp:123-305 | what a client comes to by handling its channel after the server has handled a request of anybody |
| `ControlPlane.ChangeReaches` | c++/server/servConn.cpp:47-56 | a request keeps the agreement of a connection if and only if the connection is not of the PHP type or the request changes no setting |
| `ControlPlane.SnapshotAgrees` | c++/server/servConn.cpp:252-266 | an answered status request brings agreement |
| `ControlPlane.AgreementKept` | c++/client/clientConn.cpp:165-210 | a client that agrees goes on doing so at every moment of a run if and only if it stays connected and is not of the PHP type whenever the settings change |
| `ControlPlane.AgreementOnRuns` | c++/client/clientConn.cpp:165-210 | in every run, from the answer to its status request on, a client comes to the manager's (status, delay, multi) by handling its channel in order, at every later moment, if and only if it stays connected and is not of the PHP type when they change; with an empty channel it has them |
| `ControlPlane.DoneRegisters` | c++/base/ImPduClient.cpp:281-290 | a run in which a client reports that it is done, the type stored happens to be that of PHP, and it ends with another status than the server |
| `ControlPlane.LateRegistration` | c++/server/servConn.cpp:243-249 | a run in which a client asks for the status before it registers, its connection object happened to hold the PHP type, and it ends with another status than the server |
| `ControlServer.Manager.constructor` | c++/server/manager.cpp:20-27 | stopped, no delay, one process, no clients |
| `ControlServer.Manager.SendAllClientPdu` | c++/server/servConn.cpp:47-56 | appends the PDU to the channel of every connection that is not of the PHP type, and to no other |
| `ControlServer.Manager.SetStatus` | c++/server/manager.cpp:35-94 | start, stop, pause and resume: the broadcast and the new status |
| `ControlServer.Manager.AdjustSendRate` | c++/server/manager.cpp:96-105 | the new delay and multi and their broadcast |
| `ControlServer.Manager.OnConnect2` | c++/server/servConn.cpp:70-79 | a new connection with an empty channel and whatever type its memory held |
| `ControlServer.Manager.Close` | c++/server/servConn.cpp:82-96 | the connection leaves the table; no other changes |
| `ControlServer.Manager.HandlePdu` | c++/server/servConn.cpp:123-305 | the server's state changes as the protocol says, for every request |
| `ControlServer.Worker.HandlePdu` | c++/client/clientConn.cpp:142-210 | the worker's settings change as the protocol says, and their copies in shared memory stay equal to them |
| `ControlServer.Manager.Fetch` | c++/client/clientConn.cpp:142-210 | the client takes the first PDU of its channel; nothing else changes |
| `ControlSystem.Site.Connect` | c++/server/servConn.cpp:70-79 | a client that connects with its worker is the accept step of the protocol |
| `ControlSystem.Site.Disconnect` | c++/server/servConn.cpp:82-96 | a closed connection is the close step |
| `ControlSystem.Site.Request` | c++/server/servConn.cpp:123-305 | a request handled by the manager object is the receive step |
| `ControlSystem.Site.Work` | c++/client/clientConn.cpp:142-210 | a PDU handled by the worker object is the deliver step; the status of all clients closes the connection |
| `ControlSystem.Site.Drive` | c++/server/servConn.cpp:47-305 | whatever happens to the manager and its workers, in any order, some run of the protocol leads to the state they are in |
| `ControlSystem.Site.ManagerHasLast` | c++/server/manager.cpp:35-105 | so of the objects: the fields of the manager are those that the last requests set |
| `ControlSystem.Site.WorkerHasSettings` | c++/client/clientConn.cpp:165-210 | so of the objects: after the answer to its status request, and any events at which its client is connected and is not of the PHP type when the settings change, a worker whose client has handled everything has the manager's status, delay and multi, in its fields and in shared memory |
| `WorkerPool.CounterExactlyWhen` | c++/client/worker.cpp:268-365 | after any interleaving at all, the counter of a master at rest is the size of its table, in sixteen bits, if and only if every decrement has erased an entry |
| `WorkerPool.StepsTell` | c++/client/worker.cpp:316-352 | the rate in memory is the last that was set; the last adjustment aims at the rate at its comparison; what the model notes about it is what the steps since tell |
| `WorkerPool.PoolInvariant` | c++/client/worker.cpp:268-365 | when each handler reaps a dead child, exactly the retired children exit with SIGUSR1, and none dies before it is entered: a master at rest has counter and table of equal size, namely the rate that was set last before the last comparison less the crashes since, or none if the difference had wrapped around |
| `WorkerPool.AdjustmentAims` | c++/client/worker.cpp:316-352 | an adjustment aims at the rate that its comparison finds, whatever comes in between |
| `WorkerPool.Undisturbed` | c++/client/worker.cpp:316-352 | an adjustment into which no signal, exit or change of the rate comes ends with as many children, in counter and table, as it found wanted |
| `WorkerPool.MetExactlyWhen` | c++/client/worker.cpp:316-352 | in the same runs a master at rest has the number of children that its last adjustment aimed at, in counter and table, if and only if that was none, or no child has crashed since the subtraction and the difference had not wrapped around |
| `WorkerPool.SpuriousSignal` | c++/client/worker.cpp:275-287 | a run in which a handler reaps nothing and takes one off the counter |
| `WorkerPool.DeathBeforeEntry` | c++/client/worker.cpp:340-346 | a run in which a child dies before it is entered and gets an entry that outlives it: at rest the table has it and the counter is zero |
| `WorkerPool.CrashOfATold` | c++/client/worker.cpp:323-330 | a run in which a retired child crashes and is counted down twice |
| `WorkerPool.StoppedChild` | c++/client/worker.cpp:275-287 | a run in which a child that is only stopped loses its entry and is counted down again when it dies: at rest the table is empty and the counter 0xFFFF |
| `WorkerPool.Overshoot` | c++/client/worker.cpp:319-330 | a fair run from the start in which two of three children crash between the comparison and the subtraction, the uint16_t difference wraps around, and the adjustment to two children ends with none |
| `MasterProcess.Master.SigChldHandler` | c++/client/worker.cpp:268-289 | is the handler step of the pool for a child that waitpid can return: a dead one, a stopped one or none; only with no child at all it fails and nothing changes |
| `MasterProcess.Master.Reduce` | c++/client/worker.cpp:323-330 | its statements are rounds of kill, count down and erase and then the end, with signals between any two; it ends at rest |
| `MasterProcess.Master.Grow` | c++/client/worker.cpp:339-346 | its statements are rounds of fork, enter and count up and then the end, with signals between any two; it ends at rest unless a fork fails, and fails only then |
| `MasterProcess.Master.Adjust` | c++/client/worker.cpp:316-352 | its statements are one comparison, one subtraction, rounds that take children out if there were more than wanted and put children in otherwise, and the end; it aims at the rate it found, and fails exactly when a fork fails; in a fair environment it ends with what PoolInvariant says, and if nothing came in between with as many children as wanted |
| `MailQueues.Conservation` | c++/client/worker.cpp:401-442 | over all interleavings, with no child between pull and addition, havePushNum is the mails taken off queues plus the mails queued, if and only if no child crashed with counted mails |
| `MailQueues.EmptyAtPullAndExit` | c++/client/worker.cpp:403-411 | a queue is empty at every pull, and at the exit of a child that was told to retire |
| `MailQueues.OthersWait` | c++/client/worker.cpp:409-412 | while a child holds the lock, no step of another process changes the counter or the lock |
| `MailQueues.ChildProcess.PullSentInfo` | c++/client/worker.cpp:470-491 | the rows are pushed in order behind what the queue holds; the pull step of the shop |
| `MailQueues.ChildProcess.CountRows` | c++/client/worker.cpp:410-411 | with any steps of the other processes in between, the counter has grown by the rows and by nothing else when the lock is given back |
| `MailQueues.ChildProcess.SendAll` | c++/client/worker.cpp:414-436 | each mail is taken and sent, in order, until the queue is empty; a child that had none reports that it is done |
| `MailQueues.ChildProcess.Round` | c++/client/worker.cpp:401-442 | the statements of one round are the check and, if the child may start, acquire, pull, load, store, release, one take for each row and the rest, with any steps of the others in between; it stops at the lock only while another child has it; the rows are sent in order, the queue is empty again, and an exit leaves none behind |
| `Base64.Alphabet` | c++/base/base64.cpp:9-12 | the table is the alphabet of section 4 of RFC 4648 |
| `Base64.ShiftsSplit` | c++/base/base64.cpp:29-32 | the shifts and masks make the four sextets of the 24 bits |
| `Base64.EncodedLength` | c++/base/base64.cpp:19-60 | the length of an encoding is 4 * ceil(n / 3) |
| `Base64.Encode` | c++/base/base64.cpp:19-60 | the result is the padded encoding of section 4 of RFC 4648, for all lengths |
| `Base64.LetterAt` | c++/base/base64.cpp:19-60 | bit by bit: the i-th letter stands for the six bits from bit 6i of the bytes on, with zeros behind their end, and is the pad if they begin behind it |
| `Base64.JoinedBits` | c++/base/base64.cpp:77-79 | the shifts and masks make the three bytes of the 24 bits |
| `Base64.UnusedSlots` | c++/base/base64.cpp:87-98 | the bytes kept of a last group do not depend on the 255 that a failed find leaves in the unused slots |
| `Base64.Find` | c++/base/base64.cpp:75 | the place of a letter in the table, or 255 for any other byte |
| `Base64.Decode` | c++/base/base64.cpp:62-102 | of any string, the whole bytes contained in the letters before the first other character |
| `Base64.ByteAt` | c++/base/base64.cpp:62-102 | bit by bit: the j-th byte is the eight bits from bit 8j of the sextets on, and there are as many as whole bytes |
| `Base64.LeadingExactly` | c++/base/base64.cpp:66-70 | what is decoded is the longest beginning of the text with letters of the alphabet only |
| `Base64.RoundTrip` | c++/base/base64.cpp:19-102 | base64_decode(base64_encode(b)) is b for every byte string |
| `Delays.Delta` | log_adhoc.c:212-226 | terminates with the difference in microseconds, zero if negative, in normal form, for out-of-range microseconds too |
| `Delays.Compute` | log_adhoc.c:232-259 | the delays are the gaps between the stamps that are used, on all branches |
| `Delays.MarksAre` | log_adhoc.c:232-259 | the times that are used are the arrival, the stamps of queue manager, agent and set-up up to the first that is missing, and the end |
| `Delays.PartsCoverDelay` | log_adhoc.c:237-259 | pdelay + adelay + sdelay + xdelay is at least delay, and equal to it if and only if the times used are non-decreasing or non-increasing |
| `Timers.TimersInStep` | c++/base/EventDispatch.cpp:9-61 | under any additions, removals and checks no two timers share callback and data, and each is due at t0+(k+1)d after k firings |
| `Timers.KeyOnItsOwn` | c++/base/EventDispatch.cpp:9-61 | after any additions, removals and checks the list holds for each callback and data just the timer that the steps for this key make: armed by the last addition, gone after a removal, moved on by each check that found it due |
| `Timers.OrderOfEntry` | c++/base/EventDispatch.cpp:9-61 | the timers are in the order in which they came in, and one that is armed again keeps its place |
| `Timers.FiringLaw` | c++/base/EventDispatch.cpp:51-60 | one check fires a timer once if fewer than floor((T-t0)/d) firings have been, and not otherwise |
| `Timers.OnTimeExactlyWhen` | c++/base/EventDispatch.cpp:46-61 | on a clock that does not go back, a fresh timer has fired floor((T-t0)/d) times at every check, if and only if no two intervals end between two checks |
| `Timers.EachOnItsOwn` | c++/base/EventDispatch.cpp:46-61 | over a series of checks each timer of the list goes as it would alone |
| `Timers.CloseChecks` | c++/base/EventDispatch.cpp:46-61 | checks at most one interval apart are enough for that |
| `Timers.EventDispatch.AddTimer` | c++/base/EventDispatch.cpp:9-29 | re-arms the timer with that key in place, or appends a new one |
| `Timers.EventDispatch.RemoveTimer` | c++/base/EventDispatch.cpp:31-44 | takes out the timer with that key; the others stay in order |
| `Timers.EventDispatch.CheckTimer` | c++/base/EventDispatch.cpp:46-61 | calls exactly the timers that are due, once each and in the order of the list, and moves each on by its interval |
| `References.RefObject.AddRef` | c++/base/util.cpp:100-112 | the count goes up; only for an object that is not freed |
| `References.RefObject.ReleaseRef` | c++/base/util.cpp:114-133 | the count goes down and the object is freed exactly at zero; only for an object that is not freed |
| `References.World.FindBaseSocket` | c++/base/BaseSocket.cpp:17-28 | the registered socket with one more holder, or null; counts stay right |
| `References.World.FindImConn` | c++/base/imconn.cpp:17-28 | the registered connection with one more holder, or null; counts stay right |
| `References.World.CloseSocket` | c++/base/BaseSocket.cpp:149-157 | the socket leaves the map with the reference of its registration |
| `References.World.NetlibClose` | c++/base/netlib.cpp:72-81 | find, close, release: the handle is gone and no holder is left over |
| `References.World.Close` | c++/server/servConn.cpp:82-96 | socket and connection of a handle leave their maps together; the socket lookup cannot fail |
| `References.World.SendAllClientPdu` | c++/server/servConn.cpp:47-56 | sends to each connection of the table once, and uses only connections that are alive |
| `References.World.ImConnCallback` | c++/base/imconn.cpp:30-64 | holds the connection over the event, also when the event closes it; a close event takes connection and socket out of the maps, and no other handle is touched |
| `References.World.Dispatch` | c++/base/EventDispatch.cpp:114-143 | holds the socket over all handlers of an event, which are called in order, also when one of them closes it; no other handle is touched, and without a socket nothing is called |
| `References.World.DispatchListener` | c++/base/BaseSocket.cpp:159-163 | a listening socket is held while it accepts any number of connections |
| `References.World.AddSocket` | c++/base/BaseSocket.cpp:299-317 | a registered socket starts with the count one |
| `References.World.AddConn` | c++/server/servConn.cpp:70-79 | a registered connection starts with the count one |
| `References.World.OnTimer` | c++/server/servConn.cpp:105-120 | a connection may close itself in its timer; nothing uses it afterwards |
| `References.World.Tick` | c++/server/servConn.cpp:8-26 | calls each connection that was in the table once, while they leave it; no other handle is touched |
| `References.World.Loop` | c++/base/EventDispatch.cpp:109-147 | over every run of accept, dispatch, callback, timer and close: between events an object is alive exactly while it is registered, then with the count one, every connection has its socket, no object is used after it is freed, and what is freed stays so |

## Left out

JSON library:

- Fractions, exponents and numbers beyond an int: floating point; a text with such a number is marked `Outside`, and so are an escape cut off by the end of the text and `%4x` on anything but four hexadecimal digits (`JsonLanguage.OutsideHasCause`).
- JsonParser.ParseNumberAt: reports such a number as outside the model and promises nothing about the item.
- JsonParser.ParseValueAt: promises nothing but the mark for a text with such a part.
- JsonParser.ParseText: gives such a text the mark and no tree.
- JsonPrinter.PrintValueAt: prints numbers by their int; the branch of print_number for other doubles is floating point.
- Allocation failures, the allocation hooks and the error pointer `ep`.
- Reference nodes (`cJSON_IsReference`) and the functions that make them.
- The lookup by name without regard to case, and the operations on objects that begin with it (`cJSON_GetObjectItem`, `cJSON_DetachItemFromObject`, `cJSON_DeleteItemFromObject`, `cJSON_ReplaceItemInObject`): apart from the comparison they are the array operations that are modelled.
- The other constructors of basic values and the arrays of floats, doubles and strings.
- `int` overflow of the accumulated lengths, for texts beyond 2 GB.
- The release of strings and names with their node: strings are values here, only nodes are counted.
- JsonTree.Delete: frees nodes by taking them out of the set of live ones; the memory itself stays readable in the model, and that a node is live is checked where it is looked at and where it is freed.
- JsonTree.AddItemToArray: for an item that is not in that list already.
- JsonTree.AddTree: for an item that hangs in no other list, so that no chain comes with it (`JsonTree.AddItemToArray` has the chain).
- JsonTree.AddItemToObject: for an item that hangs in no other list.

PDU stack:

- Frames with a length field under 12: the code reads outside of the frame, and the model calls the outcome indeterminate.
- Overflow of the 32-bit buffer sizes; a packed PDU is assumed to fit its length field.
- PduCodec.ReadPdu: promises nothing for a frame with a length field under 12.
- ImConnection.ImConn.Dispatch: promises nothing behind a frame whose outcome depends on the memory, which is one that lacks the length word of its text or has a length field under 12; no packed PDU makes such a frame (`PduStream.HandledIsPrefixOfSent`).
- PduStream.ChunkingDoesNotMatter: for bytes without such a frame.
- PduConnection.Pair.Drive: carries one direction; the other is the same with the roles exchanged.
- The text inside status reports and heartbeats, which jsoncpp reads; jsoncpp is not part of this model.
- The flash policy branch of OnRead (its content is never set), tick times, statistics, the unused codecs for 8-bit and raw data.
- ImConnection.ImConn.OnRead: handlers are represented by a log of the PDUs handed to them; what they do is in the control plane.

Control plane:

- Reconnection: a client that reconnects does not ask for the status again.
- MySQL, the monitor and the load balancer; the number of mails that are left comes in with the report of a finished client.
- Requests are taken in any order, more freely than the connections deliver them.

Worker pool:

- The condition variables (they wait without a predicate), so no claim that anything ever happens.
- An iterator of the retire loop that the signal handler invalidates by erasing its element.
- The restart of the master process and of the shared memory, and the exit of a child whose parent has died (`getppid() == 1`).
- MailQueues.Conservation: counts in unbounded numbers, not in 64 bits.
- MasterProcess.Master.Grow: after a failed fork the process ends, and nothing is promised about the counter and the table.

Smaller parts:

- Timers.EventDispatch.CheckTimer: for callbacks that leave the timer list alone, as all callbacks of the system do.
- Formatting of the delays.
- References.World.Accept: takes a handle that is not open, as the system hands them out; a handle may be reused after it was closed.
- References.World.OnTimer: the reconnection of a client that timed out is an accept of its own.
- Early return of `netlib_option` without a release.

Outside the model altogether: sockets, epoll, fork, signals and shared memory as such, sending mails, the PHP controller, configuration, logging.
