# libpomelo, verified

A Dafny model of libpomelo's wire stack, of its client as a state machine, and of the vendored
components both rest on, with proofs about all inputs, all runs and all reachable states.

| part | modules |
|---|---|
| protobuf codec driven by definitions from the handshake | `Varints`, `ProtoSchema`, `ProtoBytes`, `ProtoWriter`, `ProtoDecode`, `ProtoReader`, `ProtoRoundTrip`, `ProtoTail`, `Floats`, `ProtoNormal`, `ProtoSize`, `ProtoWire` |
| framing, messages, the whole path of a message | `Package`, `Message`, `Layouts`, `EndToEnd` |
| client: steps, transports, heartbeats, requests, handles, input | `Client`, `ClientTransport`, `ClientBeats`, `ClientRequests`, `ClientAnswers`, `ClientHandles`, `ClientChunks`, `ClientCrashes`, `ClientRuns`, `ClientInput`, `ClientServes`, `ClientWatch` |
| client: the object with its map of queues, timers and parser | `RequestMap`, `ClientObject` |
| jansson: UTF-8, printer, stream, lexer, parser, hash table | `Utf8`, `JsonValues`, `JsonDump`, `JsonPrinter`, `JsonLoad`, `JsonStream`, `JsonReader`, `JsonRoundTrip`, `JsonShape`, `JsonGrammar`, `JsonTokens`, `JsonTexts`, `HashLists`, `Hashtable` |
| libuv: red-black tree, timers, address texts | `RbTrees`, `RbHeap`, `RbTree`, `Timers`, `InetText`, `Inet`, `InetShape` |

Code that works step by step is modelled by methods over arrays and by classes with fields (streams,
parser, lexer, printer, client, hash table, tree, loop), each proved against a function or a
specification; the main results are lemmas about those functions. A byte is a number below 256, a C
string the bytes before its NUL. A JSON object is the list of its entries in iteration order, so every
statement about objects holds for every order. Memory that is linked by pointers is a map from node
numbers to cells, with 0 for the null pointer or the list head.

The client machine takes one step per loop callback or call from another thread. What the operating
system, the server and the application answer are parameters of the step; a use of a closed handle or
of memory of the wrong type ends the run, and which steps do that is proved. The client object holds
its requests in the map of queues under the texts of their ids, its timers in the red-black tree of the
loop and its input in the package parser; it is proved to follow the machine, so that what holds of the
machine's runs holds of these structures.

## Findings

Where the code does not meet what one would expect of it, the model follows the code, and a lemma says
exactly when it does meet it.

- A request that reaches the loop after its transport stopped working gets its callback with status 0
  and no response (`ClientRequests.UnansweredSuccessIff`, `ClientRequests.SuccessWithoutResponse`).
- `pc_map_set` on a key that shares its queue with other entries never returns (`RequestMap.SetEndsIff`).
- Text routes survive only from 1 to 127 bytes (`Message.TextRoundTripIff`), dictionary routes only when
  their codes differ modulo 256 (`Message.DictionaryIff`).
- Empty arrays of strings or messages do not survive (`ProtoRoundTrip.RoundTripIsExactIff`), and a
  message that encodes to no bytes arrives as no message (`EndToEnd.BodyRoundTrip`).
- The buffer estimate is too small for elements in -99..-1 of uInt32 arrays and for integers in -9..99 in
  double arrays, and for no other 32-bit integers (`ProtoSize.CopiesFitIff`, `ProtoSize.MessageBound`).
- A value that is no string in a string field makes the encoder call strlen on a null pointer
  (src/pb-encode.c:249-250, `EndToEnd.NullTextMet`). It comes to that, given room for what stands before, exactly
  when this is the first fault of the message (`ProtoNormal.MessageFaultIff`).
- A tag that the end of the buffer cuts off is taken for the end, in silence (`ProtoTail.CutOffTagIsIgnored`).
- A string length of 2^32-1 makes the decoder allocate no byte, and write one 4 GB behind it, also when the
  string could not be read (src/pb-decode.c:231 and :507-515). It happens for this length and no other
  (`ProtoDecode.StringOverrunsIff`).
- An encoding that fails, for lack of room or by a schema error, leaves a length of 0 and not the -1 that
  is tested for (src/msg-pb.c:9, src/protocol.c:201): an empty body is sent without an error, and arrives as
  no message (`EndToEnd.SilentlyEmpty`; exactly when, `EndToEnd.BodyRoundTrip`).
- A response encoded with a text route carries a byte of memory that was never written
  (`Message.ResponseRoundTrip`).
- A response with an unknown id stops the client (`ClientCrashes.RunReads`), and serves nobody (`ClientAnswers.AnswersAreRead`).
- The completion of a heartbeat write takes the transport for the client (src/pkg-heartbeat.c:74-90); when
  the write failed this uses memory of the wrong type (`ClientRuns.HeartbeatWriteCrashes`).
- Handles that are closed are used: by a disconnect after closing (`ClientRuns.SecondDisconnectCrashes`); by
  heartbeats and handshakes behind a package that closed the client (`ClientRuns.LateHeartbeatCrashes`); and,
  for a client that may reconnect and is not doing so, by every stop after it was closed, which starts the
  closed reconnect timer: a second stopping package, a failed handshake write, a connect that completes late
  (`ClientRuns.LatePackageCrashes`, `ClientRuns.LateHandshakeCrashes`, `ClientRuns.LateReconnectionCrashes`). No other
  step of any run does either (`ClientCrashes.RunCrashIff`).
- Resetting for a reconnection stops the timeout timer twice and leaves the handshake timer running
  (src/client.c:275-277, `ClientRuns.HandshakeTimerOutlives`). Until the next connection is made its firing tells
  the application of a timeout and changes nothing else, and that connection starts it anew; it never fires
  once a handshake was acknowledged (`ClientCrashes.HandshakeTimerFires`).
- A stop is ignored while the client is reconnecting, also that of a heartbeat timer: when it fires before the
  ack of the new connection is written, that connection works and sends no heartbeat
  (`ClientWatch.HeartbeatEnds`; exactly when, `ClientWatch.AlwaysWatchedIff`).
- Arrays of numbers carry a count of elements, where the wire format of Protocol Buffers has one value or a
  length in bytes (`ProtoWire.NumberArrayLayout`); everything else is of that format (`ProtoWire.IsWireFormat`).
- A chunk is parsed to its end even when one of its packages made the client reconnect: what is left of it
  stands in the parser before the first byte of the next connection (`ClientInput.LeftoverOutlives`;
  exactly when, `ClientInput.AlwaysCleanIff`).
- A NUL put back by the lexer is lost (`JsonStream.Stream.Unget`, `JsonLoad.NulIsLost`).
- A repeating timer is due again at once at the last instant of the 64-bit clock, where a pass over the
  timers would not end (`Timers.LastInstant`).
- The hash table has 29 sizes; a key set reads past their table exactly when 1610612741 entries are
  present (`Hashtable.Table.OverrunsIff`).

## Model

| member | source | states |
|---|---|---|
| Utf8.CheckFull | deps/jansson/src/utf.c:83-137 | the checking loop accepts a sequence exactly when its continuation bytes, its range and its length are right, and gives its code point |
| Utf8.CheckString | deps/jansson/src/utf.c:165-190 | the loop over a buffer accepts exactly the UTF-8 texts |
| Utf8.HeadOfEncoded | deps/jansson/src/utf.c:11-45 | what is encoded for a code point is read back as that code point, whatever follows |
| Utf8.HeadIsEncoded | deps/jansson/src/utf.c:139-163 | whatever is read as a code point is the encoding of that non-surrogate code point up to 0x10FFFF |
| Utf8.AcceptsExactlyEncodings | deps/jansson/src/utf.c:165-190 | a byte string is accepted if and only if it is a concatenation of encodings of non-surrogate code points up to 0x10FFFF |
| Utf8.DecompositionIsUnique | deps/jansson/src/utf.c:11-190 | that decomposition is unique |
| Varints.VarintFits | src/pb-encode.c:286-301 | a 64-bit value takes at most the ten bytes of the writer's buffer |
| Varints.ReadWritten | src/pb-decode.c:428-442 | reading a written varint gives the value back and stops right behind it, at any position of any buffer |
| Varints.ZigZagRoundTrip | src/pb-encode.c:305-313 | the signed mapping is undone by the reader for every 64-bit integer |
| Layouts.VarintLayout | src/pb-encode.c:286-301 | the bytes of values up to 2^21: seven bits each, the lowest first, the top bit set but in the last |
| Layouts.VarintExamples | src/pb-encode.c:286-301 | 1, 150 and 300 are the bytes of the Protocol Buffers Encoding specification |
| Layouts.ZigZagExamples | src/pb-encode.c:305-313 | the table of signed values of that specification |
| ProtoWire.SingleSkips | src/pb-encode.c:353-369 | a reader that knows only the wire format steps over every entry that is no array, of every kind, exactly to its end, and finds the number of its field |
| ProtoWire.IsWireFormat | src/pb-encode.c:169-207 | every message without an array of numbers is one of the wire format, whatever its definition: that reader finds the numbers of its entries, in order |
| ProtoWire.NumberArrayLayout | src/pb-encode.c:134-153 | an array of numbers is a tag with wire type 0, 5 or 1, the count of its elements, and the elements |
| ProtoWire.ResolvesRoot | src/pb-encode.c:256-270 | a nested definition comes first, then the root one under "message " and the name |
| ProtoBytes.TypedHasBytes | src/pb-encode.c:169-207 | a message that fits its definition meets none of the schema errors of the encoder |
| ProtoWriter.Compose | src/pb-encode.c:118-130 | two emissions one after the other are the emission of both: success exactly when both fit, nothing outside the window touched |
| ProtoWriter.OStream.Write | src/pb-encode.c:118-130 | counts in a sizing stream; otherwise copies into the buffer and succeeds exactly when the bytes fit |
| ProtoWriter.VarintDigits | src/pb-encode.c:286-301 | the digit loop, with the last continuation bit cleared at the end, yields the varint of the value |
| ProtoWriter.OStream.WriteVarint | src/pb-encode.c:286-301 | emits exactly the varint, or fails for lack of room |
| ProtoWriter.WriteTag | src/pb-encode.c:353-369 | emits exactly the tag of the field |
| ProtoWriter.WriteString | src/pb-encode.c:372-378 | emits the length and then the bytes |
| ProtoWriter.WriteValue | src/pb-encode.c:209-280 | emits exactly the bytes of the value by its kind; fails on a schema error or for lack of room only |
| ProtoWriter.WriteSubmessage | src/pb-encode.c:381-420 | the sizing pass counts exactly the bytes that the writing pass emits at any depth, so that the mismatch test never fires; emits length and body |
| ProtoWriter.WriteArray | src/pb-encode.c:134-167 | packed arrays get one tag and an element count, others a tag per element |
| ProtoWriter.WritePacked | src/pb-encode.c:134-167 | the loop over the elements of a packed array emits their bytes in order |
| ProtoWriter.WriteTagged | src/pb-encode.c:155-165 | the loop over the elements of a string or message array emits tag and bytes of each; nothing for an empty array |
| ProtoWriter.WriteEntry | src/pb-encode.c:169-207 | emits one entry by the option of its field |
| ProtoWriter.WriteMessage | src/pb-encode.c:169-207 | the loop over the entries, in iteration order, emits exactly the bytes of the message |
| ProtoWriter.Encode | src/pb-encode.c:91-99 | succeeds exactly when there is no schema error and the total length fits the buffer; writes nothing beyond its result |
| ProtoDecode.DecodeMessage | src/pb-decode.c:365-407 | terminates for every byte string and every, also recursive, schema; position, bytes left and what zero tags left behind always add up to the buffer end |
| ProtoDecode.StringOverrunsIff | src/pb-decode.c:228-241 | the buffer of a string is too small for its terminator if and only if its length is 2^32-1 |
| ProtoDecode.DecodeSubmessage | src/pb-decode.c:546-581 | a nested message stays inside its substream; only a zero tag lets the parent lose bytes, and exactly those |
| ProtoDecode.LeftoverMeansZeroTag | src/pb-decode.c:365-407 | a message that ends with bytes left was stopped by a zero tag inside its own window and by nothing else |
| ProtoDecode.MessageDrift | src/pb-decode.c:546-581 | position and bytes left add up to the buffer end unless some nested message, at any depth, was stopped by a zero tag inside its own window |
| ProtoTail.ZeroEndsMessage | src/pb-decode.c:365-407 | for every message: whatever follows its bytes behind a zero byte is passed over |
| ProtoTail.CutOffTagIsIgnored | src/pb-decode.c:517-535 | a tag that the end of the buffer cuts off is taken for the end |
| ProtoTail.UnknownNumberIsRefused | src/pb-decode.c:385-392 | a field number that the definition does not have is refused, with every wire type and whatever follows |
| ProtoTail.CutOffTextIsRefused | src/pb-decode.c:228-241 | a string field that announces more bytes than there are is refused |
| ProtoReader.IStream.Read | src/pb-decode.c:119-141 | hands out the next bytes and advances, or fails without moving when fewer are left |
| ProtoReader.IStream.ReadVarint | src/pb-decode.c:428-442 | the loop reads the varint at the position, failing at the end of the stream or after 64 bits |
| ProtoReader.ReadValue | src/pb-decode.c:158-282 | reads one value exactly as the decoding function says, position included |
| ProtoReader.ReadSubmessage | src/pb-decode.c:546-581 | makes the substream, decodes in it and closes it |
| ProtoReader.ReadArray | src/pb-decode.c:284-359 | reads a packed array by its count, or appends one element of another array |
| ProtoReader.ReadMessage | src/pb-decode.c:365-407 | the loop over tags reads the message that the decoding function says |
| ProtoReader.Decode | src/pb-decode.c:94-102 | decodes a whole buffer as the decoding function says |
| ProtoRoundTrip.ValueRoundTrip | src/pb-decode.c:158-282 | one encoded value, anywhere in a buffer, is decoded to itself, nested messages up to what cannot be told apart |
| ProtoRoundTrip.EntryRoundTrip | src/pb-decode.c:284-359 | one encoded entry is decoded to itself behind the entries before it; an empty string or message array leaves no trace |
| ProtoRoundTrip.MessageRoundTrip | src/pb-decode.c:365-407 | the same for the entries of a message in any order |
| ProtoRoundTrip.RoundTrip | src/pb-encode.c:134-280 | for every schema, recursive ones included, every message of it and every order of keys: decoding the encoder's bytes gives the message back without its empty string and message arrays |
| ProtoRoundTrip.RoundTripIsExactIff | src/pb-encode.c:155-165 | the message comes back exactly if and only if it holds no empty array of strings or messages at any depth |
| Floats.DoubleRoundTrip | src/pb-encode.c:242-247 | a 64-bit integer written as the eight bytes of a double stands for the nearest double, ties to even, and for itself up to 2^53 |
| Floats.SingleRoundTrip | src/pb-encode.c:236-241 | written as the four bytes of a single it stands for the single nearest to that double, and for itself up to 2^24 |
| Floats.RoundedIsNear | src/pb-encode.c:222-235 | rounding moves an integer by at most half a unit of its last digit, and not at all within the digits of the format |
| Floats.Examples | src/pb-encode.c:236-247 | 1 and -2 as IEEE 754 has them, byte by byte |
| ProtoNormal.MessageFaultIff | src/pb-encode.c:169-280 | for every message whatever: the encoder gets through it, given the room, if and only if it meets no unknown key or message type and no string field without a string |
| ProtoNormal.MessageIsNormal | src/pb-encode.c:169-280 | such a message has the bytes of the one its definition sees: numbers converted to the kind of their field, anything else in a number field 0, anything but an object in a message field empty, passed-over entries dropped; and that one fits the definition |
| ProtoNormal.TypedIsNormal | src/pb-encode.c:169-280 | a message that fits its definition is seen as it is |
| ProtoNormal.OthersAreZero | deps/jansson/src/value.c:795-803 | what is no number counts as 0 in a field of every number kind |
| ProtoNormal.RoundTripOfAny | src/pb-encode.c:134-280 | every message without such a fault arrives as its definition sees it, without the empty arrays of strings or messages |
| ProtoSize.MessageBound | include/pomelo-protocol/message.h:34 | the encoding is shorter than twice the compact JSON text when there are no reals, field numbers are below 2048, integers of integer fields are in the 32-bit range, no element of a uInt32 array is in -99..-1, none of a double array in -9..99, and the text is below 2^27 bytes |
| ProtoSize.PbEncode | src/msg-pb.c:7-49 | without a string field that holds no string: succeeds if and only if there is no schema error and the bytes fit twice the text, and then yields them; a failure is a schema error or lack of room, and leaves an empty result |
| ProtoSize.ModestFits | src/msg-pb.c:19-31 | so such messages always fit the buffer |
| ProtoSize.CopiesFitIff | src/msg-pb.c:19-31 | for every number kind and 32-bit integer: an array of its copies, however many, always fits the buffer if and only if it is not a uInt32 array of one in -99..-1 or a double array of one in -9..99 |
| JsonPrinter.Printer.PrintIndent | deps/jansson/src/dump.c:43-63 | writes the line break and the indentation of the depth, or the space asked for |
| JsonPrinter.Printer.Stretch | deps/jansson/src/dump.c:79-99 | the inner loop stops at the first code point that needs an escape, at the end, or at bytes that are not UTF-8 |
| JsonPrinter.Printer.PrintString | deps/jansson/src/dump.c:65-155 | succeeds exactly on UTF-8 text and then appends the quoted text with every necessary escape |
| JsonPrinter.Printer.PrintItems | deps/jansson/src/dump.c:237-256 | the loop over an array appends its elements with separators and indentation |
| JsonPrinter.Printer.PrintEntries | deps/jansson/src/dump.c:366-392 | the loop over an object appends its entries in iteration order |
| JsonPrinter.Printer.Print | deps/jansson/src/dump.c:171-404 | appends the text of the value and does not fail on a plain one |
| JsonShape.TextSplit | deps/jansson/src/dump.c:65-155 | a text is printed code point by code point: the print of a concatenation is that of its parts |
| JsonShape.OrdinaryQuoted | deps/jansson/src/dump.c:79-99 | for all flags: a UTF-8 text without quotes, backslashes and control characters, slashes and non-ASCII bytes where the flags forbid them, is printed as it is between quotes |
| JsonShape.ShortEscapes | deps/jansson/src/dump.c:107-119 | quote, backslash, \b, \f, \n, \r and \t are printed as the two-byte escapes, a slash only where that is asked for |
| JsonShape.UnicodeEscapes | deps/jansson/src/dump.c:120-144 | the other control characters, and non-ASCII ones where that is asked for, are printed as four lower-case hexadecimal digits, beyond the BMP as a surrogate pair |
| JsonShape.DumpIsAscii | deps/jansson/src/dump.c:94-97 | with JSON_ENSURE_ASCII every byte of the text of every value is below 0x80 |
| JsonShape.DumpIsSlashed | deps/jansson/src/dump.c:90-93 | with JSON_ESCAPE_SLASH every slash in the text of every value stands behind a backslash |
| JsonShape.DumpIsDense | deps/jansson/src/dump.c:43-63 | with JSON_COMPACT and no indentation nothing stands between the tokens |
| JsonShape.CompactSample | deps/jansson/src/dump.c:366-392 | a value printed compactly, byte by byte |
| JsonShape.SpacedSample | deps/jansson/src/dump.c:366-392 | the same with blanks behind commas and colons |
| JsonShape.IndentedSample | deps/jansson/src/dump.c:43-63 | an array indented by two, at depth 0 and 1 |
| JsonStream.CleanBytes | deps/jansson/src/load.c:145-205 | no byte of the UTF-8 part of an input is, as a signed char, the end or error sentinel |
| JsonStream.Stream.Refill | deps/jansson/src/load.c:150-186 | fetches the next whole UTF-8 sequence, or enters the end or error state exactly when there is none |
| JsonStream.Stream.Get | deps/jansson/src/load.c:145-205 | delivers the UTF-8 part of the input byte by byte and then the right sentinel for ever; a data byte is never taken for a sentinel |
| JsonStream.Stream.Unget | deps/jansson/src/load.c:208-224 | goes back by the last byte; a NUL put back is lost |
| JsonLoad.NulIsLost | deps/jansson/src/load.c:208-224 | a text with a NUL behind a number is loaded as if the NUL were not there |
| JsonReader.Lexer.FindQuote | deps/jansson/src/load.c:304-349 | the first loop of the string scanner finds the closing quote exactly when the text up to it is lexically right, and saves that text |
| JsonReader.DecodeText | deps/jansson/src/load.c:351-440 | the second loop decodes all escapes, surrogate pairs included, and its result never outgrows the saved text |
| JsonReader.DecodeEscape | deps/jansson/src/load.c:271-292 | the value of four hexadecimal digits |
| JsonReader.Lexer.ScanString | deps/jansson/src/load.c:294-447 | the token, and where reading goes on, are those the lexical function gives |
| JsonReader.Lexer.ScanNumber | deps/jansson/src/load.c:459-552 | the number token and the position behind it are those the lexical function gives; an integer beyond 64 bits is refused, and the byte after the number is put back |
| JsonReader.Lexer.Scan | deps/jansson/src/load.c:554-622 | one token is scanned as the lexical function says |
| JsonReader.Lexer.ReadValue | deps/jansson/src/load.c:770-823 | parses the value that starts with the current token as the parsing function says |
| JsonReader.Lexer.ReadArray | deps/jansson/src/load.c:730-768 | the loop of the array parser, with the same outcome and position as the function |
| JsonReader.Lexer.ReadObject | deps/jansson/src/load.c:657-728 | the loop of the object parser; a repeated key takes the last value |
| JsonReader.Lexer.ReadJson | deps/jansson/src/load.c:825-856 | a text is parsed when it is one array or object and nothing follows |
| JsonReader.LoadBytes | deps/jansson/src/load.c:922-946 | stream, lexer and parser together compute the loading function |
| JsonTokens.LexLeaf | deps/jansson/src/load.c:554-622 | a string, integer or word of the grammar, behind any blanks, both cases of hexadecimal digits included, is read as its token |
| JsonTokens.LeafOf | deps/jansson/src/load.c:554-622 | whatever is read as such a token is one of the grammar behind blanks: the lexer accepts nothing else |
| JsonTexts.NodeReads | deps/jansson/src/load.c:770-823 | a value of the grammar, with any blanks around its tokens, is parsed as what it stands for, inside any text |
| JsonTexts.NodeOf | deps/jansson/src/load.c:657-823 | whatever is parsed as a value is one of the grammar that stands for it |
| JsonTexts.LoadIff | deps/jansson/src/load.c:922-946 | for every byte string and value: the text is loaded as that value if and only if it is a document of RFC 4627 that stands for it, with 64-bit integers and a NUL passed over behind numbers and words |
| JsonValues.GetOfPut | deps/jansson/src/value.c:84-105 | after a set the key has the value and every other key what it had |
| JsonRoundTrip.QuotedRoundTrip | deps/jansson/src/load.c:294-447 | lexing a dumped string, anywhere in a text, restores it and stops behind its quote |
| JsonRoundTrip.ValueRoundTrip | deps/jansson/src/load.c:770-823 | parsing the text of a value, inside any text, gives the value and stops right behind it |
| JsonRoundTrip.DumpIsUtf8 | deps/jansson/src/dump.c:171-404 | everything dumped is UTF-8 |
| JsonRoundTrip.RoundTrip | deps/jansson/src/dump.c:171-404 | for every tree of objects, arrays, NUL-free UTF-8 strings, 64-bit integers and literals with an array or object root, loading the dump gives the value back, under compact, ASCII-only, slash-escaping and indenting flags alike |
| HashLists.RingInsert | deps/jansson/src/hashtable.c:43-49 | inserting before a node keeps the circular list in both directions and puts the node there |
| HashLists.RingRemove | deps/jansson/src/hashtable.c:51-55 | removing a node keeps the circular list in both directions |
| HashLists.BucketInsert | deps/jansson/src/hashtable.c:62-75 | every bucket stays one stretch of the shared list when a pair is inserted |
| HashLists.BucketRemove | deps/jansson/src/hashtable.c:130-140 | every bucket stays one stretch of the shared list when a pair is removed |
| Hashtable.HashStr | deps/jansson/src/hashtable.c:21-35 | the hash of a key, in 64 bits and through a signed char |
| Hashtable.HashIsBernstein | deps/jansson/src/hashtable.c:21-35 | the hash is Bernstein's, over signed chars, modulo 2^64 |
| Hashtable.Table.InsertToBucket | deps/jansson/src/hashtable.c:62-75 | the pair joins list and bucket; the links of nodes outside the list are untouched |
| Hashtable.Table.FindPair | deps/jansson/src/hashtable.c:90-113 | finds the pair with the key, or none exactly when no pair of the whole table has it |
| Hashtable.Table.Rehash | deps/jansson/src/hashtable.c:162-194 | more buckets, the same pairs, and again every bucket a stretch of the list |
| Hashtable.Table.OverrunsIff | deps/jansson/src/hashtable.c:77-87 | a key set looks past the end of the table of sizes if and only if there are 1610612741 entries |
| Hashtable.Table.Set | deps/jansson/src/hashtable.c:224-267 | the table becomes the map with the key set; there are never more pairs than buckets |
| Hashtable.Table.Get | deps/jansson/src/hashtable.c:269-283 | the value of the key in the map |
| Hashtable.Table.Delete | deps/jansson/src/hashtable.c:116-146 | the table becomes the map without the key, and the result tells whether it was there |
| Hashtable.Table.Clear | deps/jansson/src/hashtable.c:291-305 | the table becomes the empty map |
| Hashtable.Table.FreeAll | deps/jansson/src/hashtable.c:148-160 | frees every pair of the list |
| Hashtable.Table.IterNext | deps/jansson/src/hashtable.c:328-334 | steps to the next pair of the list, or to none after the last |
| Hashtable.Table.Keys | deps/jansson/src/hashtable.c:307-334 | an iteration from start to end meets every key of the map exactly once |
| Package.Encode | src/package.c:106-144 | the head with type and big-endian 3-byte length, then the body; refused at 2^24 bytes |
| Package.HeadLength | src/package.c:163-171 | the length in a head, by the shifting loop |
| Layouts.PackageLayout | src/package.c:106-144 | the type, the length in three bytes with the most significant first, the body; none from 2^24 bytes on |
| Package.Parser.ReadHead | src/package.c:154-189 | reads on in the head and, when it is complete, enters the body or delivers an empty package at once |
| Package.Parser.ReadBody | src/package.c:199-218 | reads on in the body and delivers the package when it is complete |
| Package.Parser.Feed | src/package.c:74-104 | one chunk has the effect of its bytes one by one: same state, same packages |
| Package.Parser.Reset | src/package.c:59-72 | back to the initial state |
| Package.RunSplit | src/package.c:74-104 | feeding a then b leaves the same state and delivers the same packages as feeding a+b, from every reachable state |
| Package.FrameRoundTrip | src/package.c:106-144 | an encoded package is delivered as it was, and the parser is back at its initial state |
| Package.StreamRoundTrip | src/package.c:74-144 | so is any list of packages |
| Package.FeedAll | src/package.c:74-104 | feeding chunk after chunk has the effect of their concatenation |
| Package.CutsDoNotMatter | src/package.c:74-218 | any cut of the bytes of a list of packages into chunks delivers exactly that list |
| Message.IdLength | src/message.c:235-242 | the number of base-128 digits of an id |
| Message.WriteId | src/message.c:211-224 | the digit loop writes the base-128 digits of the id |
| Message.EncodeText | src/message.c:19-64 | the message with its route as text; a response has no route, and one byte of memory behind its body |
| Message.EncodeCode | src/message.c:66-111 | the message with its route as a code, or with none for a response |
| Layouts.TextLayout | src/message.c:19-64 | the bytes of a notification [2, length] and a push [6, length], without an id, and of a request [0], id, [length], each with route and body |
| Layouts.LongRouteLayout | src/message.c:19-64 | of a long route as much is sent as sixteen bits of its length say, and eight bits of that |
| Layouts.CodeLayout | src/message.c:66-111 | the same with a code: [3], [7], [1] and id with the two bytes of the code, most significant first; a response is [5], id and body |
| Message.DecodeMessage | src/message.c:113-203 | the decoding loops read type, id modulo 2^32, route and body |
| Layouts.TextDecoded | src/message.c:113-203 | what these very bytes are decoded to, with a text route |
| Layouts.CodeDecoded | src/message.c:113-203 | what these very bytes are decoded to, with a code, and for a response |
| Layouts.OtherTypesRefused | src/message.c:113-133 | a message without a flag byte, or with one of 8 or more, is refused |
| Layouts.IdIsCut | src/message.c:134-150 | an id of any length is read modulo 2^32 |
| Message.IdRoundTrip | src/message.c:134-150 | a written id is read back |
| Message.CodeRoundTrip | src/message.c:66-203 | a message with a code comes back with type, id, code modulo 2^16 and body |
| Message.ResponseRoundTrip | src/message.c:19-203 | a response encoded with a code comes back as it was; encoded with a text route its body has grown by the byte that was never written |
| Message.TextRoundTrip | src/message.c:19-203 | a message with a route of 1 to 127 bytes comes back as it was |
| Message.TextRoundTripIff | src/message.c:160-185 | a NUL-free route survives if and only if it has 1 to 127 bytes: from 128 on the length is read as a negative char, and 0 yields no route |
| Message.InvertDictionary | src/pkg-handshake.c:134-150 | the loop that inverts the route dictionary, later entries replacing earlier ones with the same low byte |
| Message.DictionaryIff | src/protocol.c:82-88 | every route of a dictionary is resolved from its code if and only if the codes are different modulo 256 |
| EndToEnd.SentRoundTrip | src/protocol.c:90-250 | a message encoded with text or code is parsed to the same type, id, route and body |
| EndToEnd.CodedIff | src/protocol.c:192-230 | the flag byte is odd, and the route a code, exactly when the dictionary has a positive code for the route |
| EndToEnd.Delivery | src/package.c:74-218 | any list of messages, framed, concatenated and cut into any chunks, comes out with the same types, ids, routes and bodies in order |
| EndToEnd.BodyRoundTrip | src/protocol.c:148-211 | a body arrives as the value its definition sees, without what leaves no trace, if and only if it is JSON or its encoding meets no schema error, fits the estimated buffer and is not empty; otherwise it arrives as no message |
| EndToEnd.IntegerBecomesReal | src/pb-encode.c:236-241 | an integer in a float field arrives as the real that it is |
| EndToEnd.SilentlyEmpty | src/msg-pb.c:7-49 | a message of its definition with an encoding of 72 bytes that is sent as an empty body |
| EndToEnd.FullStack | src/protocol.c:90-250 | from JSON value to JSON value through every layer and every cut of the stream, for messages that fit their definitions or not: types, ids and routes arrive, and each value exactly when it gets through its encoding |
| EndToEnd.SafeStack | src/protocol.c:90-250 | messages within the bounds of the estimate, and not all empty arrays, all arrive |
| ClientTransport.StepKeeps | src/network.c:389-453 | every step keeps: at most one transport works and it is the client's own; a connected or working client has a working transport; a working one has processed a code-200 handshake on it and written the ack |
| ClientTransport.TransportSafety | src/pkg-handshake.c:101-297 | so in every state of every run, also with reconnection and with disconnection from any thread |
| ClientBeats.StepKeeps | src/pkg-heartbeat.c:13-72 | every step keeps: the heartbeat timer runs only when the last heartbeat event was a hearing, the timeout timer only when it was a sending |
| ClientBeats.NeverBothTimers | src/pkg-heartbeat.c:13-17 | in every state of every run the two timers are not both active, and neither is once the handles are closed |
| ClientBeats.SendsAreSeparated | src/pkg-heartbeat.c:43-59 | in every run a heartbeat or accepted handshake lies between any two sendings of a heartbeat |
| ClientBeats.TimeoutsAreDeserved | src/pkg-heartbeat.c:61-72 | in every run the timeout callback is preceded by a sending since which nothing was heard and it had not run before |
| ClientWatch.HandshakeLeadsToWork | src/pkg-handshake.c:101-297 | in every run a connect that completes, a handshake that is accepted, and its ack written, make a working client, with its heartbeat timer running if one was asked for |
| ClientWatch.BeatIsSent | src/pkg-heartbeat.c:43-59 | in every run the heartbeat timer of a working client sends a heartbeat on its connection and starts the timeout |
| ClientWatch.RunStops | src/pkg-heartbeat.c:61-72 | in every run, after a heartbeat or handshake timeout, a read error or a close, the client is closed, is to reconnect, or stays as it is because it is reconnecting already |
| ClientWatch.ReconnectionIsScheduled | src/client.c:372-436 | in every state of every run a reconnection that was decided on has its timer running, or a connect under way whose callback goes on with it |
| ClientWatch.AlwaysWatchedIff | src/pkg-heartbeat.c:13-72 | in every run a connection whose handshake was acknowledged has one of its heartbeat timers running, once heartbeats were asked for, if and only if no timer fired whose stop was ignored because the client was reconnecting |
| ClientWatch.HeartbeatEnds | src/client.c:319-323 | a run that ends in a working client which was asked for heartbeats and will send none |
| ClientRequests.StepKeeps | src/network.c:212-297 | every step keeps the bookkeeping of requests: filed under their own ids, handed over at most once, none outstanding after it succeeded, and while a transport works none outstanding that failed or belongs to another transport |
| ClientRequests.SuccessIsFirst | src/protocol.c:11-45 | in every run with fewer than 2^32 requests a callback with status 0 is the first callback of its request, and the response carried the request's id |
| ClientAnswers.AnswersAreRead | src/protocol.c:11-45 | in every run a success by a response came at a step that read a message with that id, under which the request was outstanding when the step began; so a response with an unknown id serves nobody |
| ClientServes.ResponseIsServed | src/protocol.c:11-45 | in every run: a readable message under the id of an outstanding request runs its callback with status 0 and ends its wait, provided no package before it in the chunk stops the client or has that id |
| ClientServes.NobodyIsForgotten | src/network.c:212-297 | in every run with fewer than 2^32 requests: a request that waits to be sent or answered still waits in every later state, or its callback has run |
| ClientServes.RequestIsHandedOver | src/network.c:164-173 | in every run a request made on a working client is handed over for its transport under the next number, and on no other client |
| ClientServes.SentIsOutstanding | src/network.c:212-285 | in every run a request sent on its working transport is outstanding under its number plus one, and its write under way |
| ClientRequests.UnansweredSuccessIff | src/network.c:221-225 | in every run a request comes to succeed without a response exactly when it reaches the loop after its transport stopped working |
| ClientRequests.SuccessWithoutResponse | src/network.c:212-225 | a run in which that happens |
| ClientRequests.FiledUnderNewId | src/network.c:279-285 | in every run with fewer than 2^32 requests a request is filed under an id not in use |
| ClientHandles.StopCrashIff | src/client.c:313-394 | stopping the client starts its closed reconnect timer exactly when it is closed, may reconnect and is not reconnecting; otherwise handles, timers and transports stay in order, and the state is told |
| ClientHandles.TcpConnectCrashIff | src/network.c:389-453 | a completed connect does so exactly when the client was closed and the callback of the connect stops it once more; no other path of it uses a handle that is gone |
| ClientHandles.WrittenCrashIff | src/pkg-handshake.c:240-297 | a completed write does so exactly when it failed and is that of a heartbeat, or is one of the handshake of a client that is disconnecting and whose connect callback stops it once more |
| ClientChunks.ChunkOutcome | src/package.c:74-104 | the packages of a chunk, told from the packages and the outstanding ids alone: a closed handle is used exactly when, behind a package that closes the client, one comes that needs its timers or stops it again; the state stays unless a package is fatal at its turn, and is then the one that stopping leaves |
| ClientCrashes.CrashIff | src/pkg-heartbeat.c:74-90 | under what every run keeps, a step uses a handle that is closed, or memory of the wrong type, if and only if a guard on state and event holds |
| ClientCrashes.RunCrashIff | src/client.c:313-394 | so at every step of every run: a failed heartbeat write, a disconnect of a closed client, a second stop of a client closed while it may reconnect, a package behind one that closed the client, and nothing else |
| ClientCrashes.RunReads | src/protocol.c:28-80 | in every run the state after a chunk is read: unchanged without a package that is fatal at its turn, such as a response whose id is not outstanding; else closed, reconnecting, or unchanged for a client that is reconnecting already |
| ClientCrashes.HandshakeTimerFires | src/pkg-handshake.c:17-23 | in every run, when the handshake timer fires: before a connection is made nothing happens but the timeout event, on a connection its handshake was not acknowledged, and it does not fire on a working or closed client |
| ClientRuns.HeartbeatWriteCrashes | src/pkg-heartbeat.c:74-90 | a run that ends with a failed heartbeat write |
| ClientRuns.SecondDisconnectCrashes | src/client.c:115-121 | a run that ends with a second disconnect, on an async handle already closed |
| ClientRuns.LateHeartbeatCrashes | src/package.c:74-104 | a run in which a heartbeat follows, in one chunk, a package that closed the client |
| ClientRuns.LatePackageCrashes | src/client.c:366-392 | a run in which the second of two packages of a chunk starts the reconnect timer that the first one closed |
| ClientRuns.LateHandshakeCrashes | src/pkg-handshake.c:240-297 | a run in which a failed handshake write closes a client and the callback of its connect starts the closed reconnect timer |
| ClientRuns.LateReconnectionCrashes | src/client.c:366-392 | a run in which a connect completes after closing and starts the closed reconnect timer |
| ClientRuns.HandshakeTimerOutlives | src/client.c:275-277 | a run after which the handshake timer of a lost connection is still active |
| ClientInput.RestartsIff | src/client.c:313-326 | a chunk makes the client start again if and only if it may reconnect, is neither reconnecting nor disconnecting, and a package of the chunk is fatal at its turn |
| ClientInput.CleanIff | src/client.c:258-311 | a step leaves nothing of an earlier connection in the parser of a client that is to connect, unless it reads a chunk that holds such a package and ends in the middle of another |
| ClientInput.AlwaysCleanIff | src/client.c:283-285 | in every run the parser holds nothing of an earlier connection whenever one is made, if and only if no such chunk was read |
| ClientInput.LeftoverOutlives | src/package.c:74-104 | a run whose second connection is made with a byte of the first one in the parser |
| ClientObject.PomeloClient.File | src/network.c:279-285 | a request goes into the map of queues under the text of its id, where no request is, so that pc_map_set returns |
| ClientObject.PomeloClient.FailAll | src/map.c:159-178 | emptying the queues of the map fails exactly the requests that were outstanding |
| ClientObject.PomeloClient.HandleRead | src/transport.c:73-78 | a chunk through the parser, each package handled when its last byte arrives: the client is the one the packages lead to, and the parser, reset in between or not, is where the bytes alone lead it |
| ClientObject.PomeloClient.Handle | src/transport.c:83-113 | every callback, on the map of queues, the tree of timers and the package parser, is a step of the machine and keeps all its invariants; the parser is reset exactly by reconnections |
| ClientObject.PomeloClient.Holds | src/pkg-heartbeat.c:13-17 | the tree of timers never holds both timers of the heartbeat, and the map holds exactly the outstanding requests under the texts of their ids |
| ClientObject.Drive | src/transport.c:83-113 | a new client object taken through any run of the machine, with the bytes of its reads, ends in the state of that run and of its parser |
| RequestMap.SetEndsIff | src/map.c:93-105 | the walk of pc_map_set over a queue comes to an end if and only if the key is absent or alone in it; otherwise it stays for ever at the entry it took out |
| RequestMap.PcMap.Set | src/map.c:71-120 | where that walk ends, the map is updated and an old value released |
| RequestMap.PcMap.Get | src/map.c:122-136 | the value of the key in the map |
| RequestMap.PcMap.Delete | src/map.c:138-157 | the key is removed and its value returned |
| RequestMap.PcMap.Clear | src/map.c:159-178 | the queues are emptied one by one from the front |
| RequestMap.ClearReleasesEachOnce | src/map.c:159-178 | clearing releases every entry of the map, and each exactly once |
| RequestMap.IdTextIsInjective | src/network.c:279-285 | different ids have different keys |
| RequestMap.IdTextIsDecimal | src/network.c:279-285 | the key is the id in decimal, without leading zeros |
| RequestMap.HashIsSum | src/map.c:7-17 | the hash of ASCII text is the sum of its bytes modulo 2^64 |
| RbTrees.InsertTurnKeeps | deps/uv/include/uv-private/tree.h:411-447 | one turn of the insertion fix-up, in all eight cases, keeps the order of all nodes, the equal black heights, and red-red only at the place looked at, and moves up |
| RbTrees.LiftKeeps | deps/uv/include/uv-private/tree.h:460-464 | a red sibling is rotated up without changing order or heights |
| RbTrees.PassUpKeeps | deps/uv/include/uv-private/tree.h:465-471 | what is lacking is passed to the parent |
| RbTrees.TurnNearKeeps | deps/uv/include/uv-private/tree.h:473-482 | the near red child is turned outward without changing order or heights |
| RbTrees.TurnFarMends | deps/uv/include/uv-private/tree.h:483-489 | the last rotation makes a red-black tree of the same order |
| RbTrees.UnlinkColours | deps/uv/include/uv-private/tree.h:535-593 | taking out a node with at most one child leaves a red-black tree or one black node lacking at its place |
| RbHeap.LeftRotation | deps/uv/include/uv-private/tree.h:342-360 | the pointer writes of a left rotation turn the represented tree, all parent links included |
| RbHeap.RightRotation | deps/uv/include/uv-private/tree.h:362-380 | the same for a right rotation |
| RbTree.TimerTree.RotateLeft | deps/uv/include/uv-private/tree.h:342-360 | the writes of the macro, one by one |
| RbTree.TimerTree.RotateRight | deps/uv/include/uv-private/tree.h:362-380 | the writes of the macro, one by one |
| RbTree.TimerTree.InsertColor | deps/uv/include/uv-private/tree.h:407-449 | the loop ends in a red-black tree in memory with the order it started with |
| RbTree.TimerTree.Insert | deps/uv/include/uv-private/tree.h:598-627 | the tree gains exactly the node, at its place in the order, or an equal one is returned and nothing changes; search order, colours, black heights and parent links are kept |
| RbTree.TimerTree.RemoveColor | deps/uv/include/uv-private/tree.h:451-527 | the loop ends in a red-black tree in memory with the order it started with |
| RbTree.TimerTree.RemoveInner | deps/uv/include/uv-private/tree.h:539-577 | with two children, the next node in order takes over the place, and exactly the given node is gone |
| RbTree.TimerTree.Remove | deps/uv/include/uv-private/tree.h:530-595 | the tree loses exactly the node; everything else is kept |
| RbTree.TimerTree.MinMax | deps/uv/include/uv-private/tree.h:711-724 | the first or last node in order, or none of an empty tree |
| RbTree.TimerTree.Next | deps/uv/include/uv-private/tree.h:668-688 | the node that follows in order, or none after the last |
| Timers.Loop.Start | deps/uv/src/unix/timer.c:56-79 | the timer is in the tree under its due time, clamped on overflow, and a new start number |
| Timers.Loop.Stop | deps/uv/src/unix/timer.c:82-90 | the timer, and only it, leaves the tree |
| Timers.Loop.Again | deps/uv/src/unix/timer.c:93-103 | an error without a callback, nothing without a repeat, otherwise started anew |
| Timers.Loop.NextTimeout | deps/uv/src/unix/timer.c:116-134 | 0 exactly when a timer is due, -1 exactly when there is none, never longer than to the first one |
| Timers.Loop.RunTimers | deps/uv/src/unix/timer.c:137-148 | with callbacks that may stop any timers but start none, exactly the timers fire that are due and not stopped by one that fired before, once each, by due time and start order; a repeating one is re-armed strictly later |
| Timers.LastInstant | deps/uv/src/unix/timer.c:66-68 | a repeating timer is due again at once exactly at the last instant of the 64-bit clock |
| Inet.FindRun | deps/uv/src/inet.c:94-118 | the search loop finds the run to shorten |
| InetText.BestIsLongest | deps/uv/src/inet.c:94-118 | that is the first of the longest runs of two or more zero words, if there is one |
| Inet.PrintAddress | deps/uv/src/inet.c:73-159 | prints the address when the buffer has room for it and its terminator, and refuses otherwise |
| Inet.ReadAddress4 | deps/uv/src/inet.c:175-211 | the loop over octets reads exactly what the reading function gives, for every text |
| Inet.ReadAddress | deps/uv/src/inet.c:214-298 | the loop over the text, the pending word and the shift in place read what the function says |
| Inet.Shift | deps/uv/src/inet.c:278-292 | the bytes behind the double colon go to the end of the buffer, zeros take their place |
| InetText.RoundTrip4 | deps/uv/src/inet.c:54-70 | inet_pton4 reads back what inet_ntop4 prints |
| InetText.RoundTrip6 | deps/uv/src/inet.c:73-298 | for every 128-bit address inet_pton6 of inet_ntop6's text is the same 16 bytes, with runs shortened and embedded IPv4 forms |
| InetShape.AddressShape | deps/uv/src/inet.c:73-159 | every address is printed with lower-case digits, and its last two words dotted if and only if the first five are zero and the sixth is 0xffff, or is zero and the seventh is not |
| InetShape.HexIsLower | deps/uv/src/inet.c:132-147 | words are printed in lower case without leading zeros |
| InetShape.Read4Iff | deps/uv/src/inet.c:175-211 | a text is read as an IPv4 address if and only if it is the text printed for it |
| InetShape.CaseDoesNotMatter | deps/uv/src/inet.c:214-298 | for every text, the case of hexadecimal digits does not change what it is read as |
| InetText.FitsBuffer | deps/uv/src/inet.c:81-81 | the text with its terminator always fits the 46-character buffer it is made in |

## Left out

- The text of reals and their bit layout: a float or double is an opaque block of 4 or 8 bytes; the lexer recognises reals but the parser model refuses them.
- Failing allocations, reference counts and frees, except where a freed node leaves a data structure.
- Sorted and insertion-ordered dumps, duplicate rejection, decoding of any value and other load flags.
- Error texts and the line and column counts of the lexer.
- The detection of circular references while dumping: values are trees.
- Reading of files, DNS, proto files, mutexes and threads; calls from other threads are steps.
- Calls that an application makes inside a callback: they are steps of their own right after it.
- The delays of reconnection and its upper bounds; notifications, which leave no trace in the map of requests.
- ClientObject.PomeloClient.HandleRead: the parser is reset when the callback of a package ends, and not in its middle; it is between two packages then, where a reset changes nothing.
- ClientObject.PomeloClient.Handle: asks that the heartbeat interval and its double, in milliseconds, fit the `int` they are kept in, and that fewer than 2^32 requests were made; what the body of a package is read as is a parameter.
- Request ids are counted per client; the counter of the source, `pc__req_id`, is one for the process.
- Transports stay; the source frees them in `pc__tcp_close_cb`, after which `pc__request` may still look at one.
- The tests of `msg_buf.len` in src/network.c:246 and src/network.c:334, where `pkg_buf.len` is meant: a package that is too long is not refused there.
- Message.DecodeMessage: an id that runs past the end of the message is refused, where the source reads on; a route length byte of 255 is refused, where the source overwrites memory.
- Message.TextRoundTripIff: at lengths that are 255 modulo 256 the route is lost in the model, and memory overwritten in the source.
- EndToEnd.SentRoundTrip: for routes that come back; an empty text route is decoded as none, for which the source calls strlen on a null pointer (src/protocol.c:121-124) and the model refuses the message.
- ProtoWriter.WriteValue: a real in an integer field, or of the other width, counts as a failure, where the source converts it; so does a value that is no string in a string field, see the findings.
- ProtoWriter.Encode: as `ProtoWriter.WriteValue`.
- ProtoReader.ReadValue: a string length of 2^32-1 fails, see the findings.
- The conversion of an integer that rounds up to 2^63 back to 64 bits, which C leaves undefined; other integers beyond 2^53 are rounded as the source rounds them.
- The order in which jansson iterates over an object: a loaded or decoded object keeps the order of insertion here, so that the equalities of the round trips hold in the source up to the order of entries.
- JsonPrinter.Printer.Print: of values without reals, whose text is not part of this model.
- JsonReader.Lexer.ReadValue: refuses reals, which the source parses.
- JsonReader.LoadBytes: refuses texts with reals, which the source loads.
- The width of `size_t`, beyond what the round trips need.
- ClientRequests.SuccessIsFirst: says nothing about repeated callbacks with status -1, which the source does make when a write completes after its transport is gone.
- Timers.Loop.RunTimers: callbacks that start timers are not part of this model, and the start counter does not wrap around at 2^64.
- Hashtable.Table.Set: asks for fewer than 1610612741 entries, which by `Hashtable.Table.OverrunsIff` is exactly where the source stays inside its table.
- ProtoRoundTrip.RoundTrip: for encodings shorter than 2^31 bytes, since lengths are read into 32 bits; other messages than those that fit their definition are in `ProtoNormal.RoundTripOfAny`.
- JsonTexts.LoadIff: texts with reals are refused, as by `JsonReader.LoadBytes`.
- The sizes of the hash table: the table of primes is taken over as it is.
- ProtoNormal.RoundTripOfAny: asks that the definitions met be well formed, with `__tags` the inverse of the field numbers.
- RequestMap.PcMap.Set: asks that the key be absent or alone in its queue, which is exactly when the source returns; both callers use it so.
- ProtoSize.MessageBound: for messages without reals; see the findings for the elements of arrays.
- ProtoSize.PbEncode: for messages without reals, and without a null string, see the findings.
- EndToEnd.FullStack: the same, and for well-formed definitions.
- The splay tree, RB_PREV, RB_FIND and RB_NFIND, and the iteration macros over the tree.
- Sockets, polling, processes, signals and file systems of libuv.
