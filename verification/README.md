# A verified model of the pluto game server

This project models the parts of the server in which the data structures and protocols are hard, and
proves what they promise. It covers the cJSON library with its linked nodes and hand-sized buffers,
the framed transport of the socket thread, the two cross-thread queues, and three state machines of
the Python layer. Where a promise turned out to be false of the code, the code was modelled as it
is, and the exact condition under which the promise holds was proved instead.

To check everything: `dafny verify --resource-limit 2000000 --verification-time-limit 0 dfyconfig.toml`. Every
proof stays well below this limit.

## How it is organised

| files | content |
|---|---|
| `CText`, `Decimal`, `JsonLiteral`, `JsonText` | text as functions: what the parser accepts, what the printer writes, and the buffer sizes it computes |
| `JsonLiteralProofs`, `JsonTranscoding`, `JsonRoundTrip`, `JsonSizes`, `JsonNulFree` | laws about these functions |
| `JsonNumerals`, `JsonGrammar`, `JsonAccepted`, `JsonLayout` | a grammar that generates exactly the texts the parser accepts, and a token machine that lays out exactly the text of the printer |
| `CJsonTree`, `CJsonLists`, `CJsonRelease`, `CJsonNames`, `CJsonEdits`, `CJsonDuplicate`, `CJsonValue` | linked nodes on the heap and their edits |
| `CJsonLiterals`, `CJsonNumbers`, `CJsonParse`, `CJsonPrint`, `CJsonRoundTrip` | the parser and the printer as methods that write nodes and buffers, proved against the text functions |
| `JsonRecord` | `JsonHelper` and the record that carries a database row |
| `Bits`, `NetUtil`, `ByteStream`, `Framing` | bit operations, `min_pow` and `split`, sign-extended integers, frames on a byte stream |
| `ByteBuffer`, `Packages`, `Channels`, `EpollServer`, `ServerModel` | the socket thread: classes for its objects, and their handlers as steps on values |
| `Sums`, `Sequences`, `Mq2s`, `Mq2c` | helpers; the two queues as interleaved steps of any number of threads |
| `SqlExec`, `SaveObj`, `LoginMgr` | the Python state machines |

A tree of cJSON nodes is described by a value, a `Shape`: which node sits where and what it holds.
Footprints, JSON values and release sets are functions of the shape. `Owned` says that the heap
agrees with a shape and owns it, `Seen` that a reader who follows references sees it. An edit of a
tree is stated as an edit of the shape, a release as what is added to the set `freed` of a `Pool`;
`Pool.Free` demands that its argument was not released before.

The handlers of the socket thread and the Python methods are classes whose methods are proved equal
to a step on values; the laws about all runs are proved about these steps.

## What is false of the code, and when it holds

- `cJSON_Print` on an empty object at depth 0 writes four bytes into a buffer of three; every other
  value fits (`JsonSizes.ValueFits`, `JsonSizes.PrintingStaysInBounds`).
- A printed value followed by more text is read back exactly if the text does not go on as a number
  (`JsonRoundTrip.ParseUndoesPrint`).
- A number in a frame header is decoded to itself exactly if above every byte with the sign bit there
  are only ones, because bytes are signed (`ByteStream.Uint16RoundTrip`, `ByteStream.Uint32RoundTrip`). A
  frame whose length is decoded to something else is never delivered and blocks its channel
  (`Framing.FrameBlocks`).
- The in-buffer suffices for every split exactly if no frame is longer than 3073 bytes
  (`Framing.FitsIffShort`); beyond 4096 bytes `Extend` changes the size but not the block
  (`ByteBuffer.Buffer.Extend`).
- In every run the watcher of a channel waits for writability exactly while bytes wait, if and only if
  the last handler that set it did not give up on a `send` that returned 0
  (`ServerModel.ArmedIffNotGivenUp`; a run that stalls: `ServerModel.StalledRun`).
- What the workers send to the id of a client reaches this client exactly if its connection has not
  been closed since (`ServerModel.AnswerReachesSender`, `ServerModel.SameConnectionIff`); otherwise the
  next client under the descriptor gets it (`ServerModel.StaleAnswer`).
- A row survives the trip through a record exactly if columns whose names agree up to case hold the
  same text (`JsonRecord.RecordRoundTrip`).
- Replies find their requester throughout a run exactly if every request is made before one that is
  still in the table is 31999 requests old, nested requests of a callback included
  (`SqlExec.EveryRunIsExactIff`; 32000 requests without a reply: `SqlExec.FirstRequestIsLost`).
- No player gets two sessions exactly if `create_player` is only called for ids without a session on
  another socket (`LoginMgr.OneSessionIff`; a run with two: `LoginMgr.TwoSessionsOfOneId`). Players
  without a session come up exactly in the situations of `LoginMgr.NoOrphansIff` (runs:
  `LoginMgr.LateReplyOrphans`, `LoginMgr.TakeoverOrphans`). A player is dropped from memory unsaved
  exactly by loaded data for an id that is in memory already (`LoginMgr.DropsUnsavedIff`; two
  overlapping logins: `LoginMgr.OverlappingLoginsDrop`).

Details that the code decides and that are easily taken for granted: a negative index detaches or
replaces the first child; the name that an item had before `cJSON_ReplaceItemInObject` is owned by
nothing afterwards; `split` returns one empty piece for the empty text; `ReadPdu` accepts a frame
that claims to be shorter than its header.

## Model

| member | source | states |
|---|---|---|
| CText.SkipIsExact | common/cjson.cpp:249 | `skip` passes over exactly the characters from 1 to 32 at the front of a text |
| CText.HexValueIs | common/cjson.cpp:168 | the values of the hexadecimal digits, given by two literal tables; no other character has one |
| CText.ToLowerIs | common/cjson.cpp:42-43 | `tolower` maps the capital letters to the small ones, given by two alphabets, and nothing else to anything else |
| CText.FoldsTogetherIff | common/cjson.cpp:42-43 | two characters fold to the same one if and only if they are the same letter of these alphabets or the same character |
| Decimal.AtoiUndoesIntText | common/message_queue.cpp:225-229 | decimal text is read back by `atoi`, for every integer, behind any blanks, with or without a plus sign, and up to the first character that is no digit |
| Decimal.AtoiOfNoNumber | common/message_queue.cpp:225-229 | without a digit in its place `atoi` gives 0 |
| JsonLiteralProofs.EscapesAre | common/cjson.cpp:215-232 | exactly which escape is written for every character, by a literal table |
| JsonLiteralProofs.PrintedLiteralFillsBuffer | common/cjson.cpp:203-236 | the counting loop of `print_string_ptr` predicts exactly the `len+3` bytes it writes |
| JsonLiteralProofs.UnescapedTextFits | common/cjson.cpp:148-197 | what `parse_string` writes fits the buffer sized by its counting loop, for every literal |
| JsonLiteralProofs.DecodeOneFits | common/cjson.cpp:148-194 | one round of decoding writes no more than was counted for the characters it passes |
| JsonLiteralProofs.LiteralIsCountable | common/cjson.cpp:148-151 | where the decoding loop stays inside the text, the counting loop does |
| JsonLiteralProofs.LiteralRoundTrip | common/cjson.cpp:143-236 | parsing a printed string gives the string back and stops behind its quote, for every NUL-free text and every rest |
| JsonLiteralProofs.UnescapedIsNulFree | common/cjson.cpp:160-195 | a parsed string is again a C string: no escape writes a NUL |
| JsonTranscoding.Utf8Decodes | common/cjson.cpp:180-188 | the bytes written for a code point decode, by an independent decoder after sections 3 and 4 of RFC 3629, to that code point |
| CJsonLiterals.SurrogateBits | common/cjson.cpp:172-178 | the masks, the shift and the `or` on a surrogate pair compute the value of section 2.2 of RFC 2781 |
| Bits.MarkedSixBits | common/cjson.cpp:183-185 | the `or` and the mask of a continuation byte keep the low six bits of any number and mark them |
| CJsonLiterals.FirstByte | common/cjson.cpp:142-186 | the `or` with the entry of `firstByteMark` adds the mark to the bits that are left, for every code point |
| JsonTranscoding.HexTextIsRead | common/cjson.cpp:168 | four hexadecimal digits, the most significant one first and each in either case, are read as the code unit they spell, for every unit |
| JsonTranscoding.CountedLength | common/cjson.cpp:148 | the length set aside for a literal is its own less one for each escape |
| JsonTranscoding.LiteralTranscodes | common/cjson.cpp:143-200 | every literal made of UTF-8 text, escapes of the table of section 7 of RFC 8259, other escaped characters, code units of four digits in any case, and surrogate pairs becomes the UTF-8 text of exactly the code points these stand for; lone surrogates and zeros are dropped |
| JsonRoundTrip.NumberRoundTrip | common/cjson.cpp:96-139 | `parse_number` undoes `%d` if and only if the rest does not go on as a number |
| JsonRoundTrip.RoundTrip | common/cjson.cpp:275-495 | parsing a printed value gives the value and stops exactly at the rest, for every value, depth and either mode |
| JsonRoundTrip.ParseUndoesPrint | common/cjson.cpp:275-495 | the same as an if-and-only-if in the text that follows |
| JsonRoundTrip.PrintedIsRead | common/cjson.cpp:252-272 | a printed value alone is parsed to its end |
| JsonNumerals.NumeralIsRead | common/cjson.cpp:96-116 | every spelling of a number, fraction and exponent with any sign included, is read as its value and up to its end |
| JsonNumerals.PowerLaw | common/cjson.cpp:110 | what `pow(10.0, e)` is for every whole number |
| JsonGrammar.DocIsRead | common/cjson.cpp:275-427 | every text of the grammar, with any blanks between its parts and any spelling of strings and numbers, is read as the value it stands for |
| JsonAccepted.AcceptsExactly | common/cjson.cpp:249-427 | a C string is read as a value up to some place if and only if it is a text of the grammar for this value up to there and does not go on with it |
| JsonLayout.PrintIsLaidOut | common/cjson.cpp:290-495 | the printed text, character by character: the tokens of the value laid out with a stack of open brackets, a line and its tabs for every member, a blank after every comma of an array |
| JsonSizes.WasteIs | common/cjson.cpp:336-478 | how many bytes of each buffer stay unused: 5 for an object, 3 or 4 and one for each entry for an array, none for a string |
| JsonSizes.ValueFits | common/cjson.cpp:336-391 | the text and its NUL fit the length computed beforehand, if and only if the value is not an empty object in formatted mode at depth 0 |
| JsonSizes.PrintingStaysInBounds | common/cjson.cpp:430-495 | all buffers of a whole print suffice, those of nested values and of member names included, with the same single exception |
| JsonNulFree.PrintNulFree | common/cjson.cpp:290-305 | a printed text has no NUL inside, so that `strlen` measures all of it |
| CJsonTree.OwnIs | common/cjson.cpp:81-93 | what a tree owns: exactly its nodes, their names and their texts but those of reference nodes |
| CJsonTree.Relinked | common/cjson.cpp:497-523 | right links and unchanged subtrees make a node own its edited list of children |
| CJsonLists.LinkedIs | common/cjson.cpp:503 | what linked means: neighbours point to each other, the two ends to null |
| CJsonLists.Count | common/cjson.cpp:498 | the loop counts the siblings |
| CJsonLists.Seek | common/cjson.cpp:499 | the loop finds the sibling at the index, null beyond the end |
| CJsonLists.Append | common/cjson.cpp:503-508 | the list becomes the list with the item behind it, `next` and `prev` mutually inverse with null ends |
| CJsonLists.Unlink | common/cjson.cpp:513-514 | the node at the index leaves, the others stay linked both ways; nothing changes for an index beyond the end |
| CJsonLists.Substitute | common/cjson.cpp:520-522 | the item takes the place of the node at the index, linked both ways |
| CJsonRelease.DeleteNode | common/cjson.cpp:84-92 | one round releases a node and exactly what it owns, each thing once, and reads nothing released |
| CJsonRelease.Delete | common/cjson.cpp:81-93 | exactly the nodes and strings of the list of owning trees are released, each once, and nothing behind a reference |
| CJsonNames.StrCaseCmp | common/cjson.cpp:39-44 | 0 exactly for two null pointers or texts that agree letter by letter up to case, otherwise 1 or the difference of the folded characters at the first place where they differ |
| CJsonNames.DifferenceIsZeroIff | common/cjson.cpp:39-44 | that difference is 0 exactly for texts of the same letters, whatever their case |
| CJsonNames.FirstMatch | common/cjson.cpp:500 | the index of the first child whose name matches, the number of children if none does |
| CJsonNames.Find | common/cjson.cpp:516-523 | the search loop ends at that child with its index |
| CJsonEdits.AppendItem | common/cjson.cpp:508 | adding a detached tree appends it to the children; the result owns the union |
| CJsonEdits.AddItemToArray | common/cjson.cpp:508 | the same, and nothing for a null item |
| CJsonEdits.DetachItemFromArray | common/cjson.cpp:513-514 | the child at the index is removed and keeps its tree, detached; ownership is divided |
| CJsonEdits.DeleteItemFromArray | common/cjson.cpp:515 | the child at the index is removed and exactly its tree released |
| CJsonEdits.ExchangeItem | common/cjson.cpp:520-522 | the links alone: the new tree is a child, the old child a detached tree of its own |
| CJsonEdits.ReplaceItemInArray | common/cjson.cpp:520-522 | the new tree takes the child's place, exactly the old child's tree is released; without such a child nothing changes |
| CJsonEdits.AddItemToObject | common/cjson.cpp:509 | the item is appended under a fresh name, exactly its old name is released; nothing happens for a null item |
| CJsonEdits.GetObjectItem | common/cjson.cpp:500 | the first child with a matching name |
| CJsonEdits.DetachItemFromObject | common/cjson.cpp:516 | the first child with a matching name is removed and keeps its tree |
| CJsonEdits.DeleteItemFromObject | common/cjson.cpp:517 | it is removed and exactly its tree released |
| CJsonEdits.ReplaceItemInObject | common/cjson.cpp:523 | the new tree, renamed, takes its place; the old name of the new item ends up neither owned nor released |
| CJsonEdits.CreateReference | common/cjson.cpp:505 | a nameless detached node with the reference flag that shares children and string and owns only itself |
| CJsonEdits.AddItemReferenceToArray | common/cjson.cpp:510 | such a node is appended; the tree grows by this one node |
| CJsonEdits.AddItemReferenceToObject | common/cjson.cpp:511 | such a node is appended under a fresh name |
| CJsonEdits.ReferenceLeavesOriginal | common/cjson.cpp:505-511 | deleting a tree that holds a reference to another tree releases all of its own and leaves the other tree whole |
| CJsonDuplicate.CopyNode | common/cjson.cpp:547-553 | a fresh detached node with the same content, own strings and no reference flag |
| CJsonDuplicate.Duplicate | common/cjson.cpp:542-567 | a tree of fresh nodes, linked both ways, equal node by node through references, no reference flag at any level, the source untouched; without recursion only the node |
| CJsonLiterals.CountLiteral | common/cjson.cpp:148 | the loop computes the length that is set aside |
| CJsonLiterals.WriteUtf8 | common/cjson.cpp:180-188 | the backward fall-through switch, bit operations included, appends the UTF-8 bytes inside the buffer |
| CJsonLiterals.DecodeStep | common/cjson.cpp:154-193 | one round of the loop appends the decoded bytes and moves past their spelling |
| CJsonLiterals.DecodeLiteral | common/cjson.cpp:143-200 | `parse_string` fills a buffer of the counted size with the unescaped text, NUL included, within bounds |
| CJsonLiterals.WriteLiteral | common/cjson.cpp:208-236 | the loops of `print_string_ptr` fill the buffer to the last byte with the literal |
| CJsonPrint.PrintStringPtr | common/cjson.cpp:203-236 | the same, and an empty text for a null pointer |
| CJsonNumbers.ScanNumber | common/cjson.cpp:96-110 | sign, digits, fraction and exponent are scanned as the text function says, up to the same position |
| CJsonValue.ToIntCuts | common/cjson.cpp:113 | the conversion to `int` cuts towards zero |
| CJsonParse.ParseNumberInto | common/cjson.cpp:96-116 | `parse_number` stores the value and its truncation |
| CJsonParse.ParseArrayInto | common/cjson.cpp:308-333 | a tree of fresh, linked nodes for the array, or failure exactly where the text function fails |
| CJsonParse.ParseObjectInto | common/cjson.cpp:394-427 | the same for objects, keys moved from `valuestring` to `string` |
| CJsonParse.ParseValueInto | common/cjson.cpp:275-287 | the same for every value, other fields untouched |
| CJsonParse.ParseWithOpts | common/cjson.cpp:252-268 | a well-formed fresh tree with the parsed value, its fields filled, and the end position, or null with everything built released, trailing text included |
| CJsonPrint.RegularIsReadable | common/cjson.cpp:290-305 | a parsed tree whose value can be printed meets the demands of the printer |
| CJsonPrint.OwnedIsSeen | common/cjson.cpp:73-93 | an owning tree without references is what a reader sees |
| CJsonPrint.PrintNumber | common/cjson.cpp:119-127 | the `%d` text in 21 bytes |
| CJsonPrint.PrintArray | common/cjson.cpp:336-391 | the array's text in a buffer of exactly the computed size, every write in bounds |
| CJsonPrint.PrintObject | common/cjson.cpp:430-495 | the same for objects |
| CJsonPrint.PrintValue | common/cjson.cpp:290-305 | the same for every value |
| CJsonPrint.PrintUnformatted | common/cjson.cpp:272 | the text of every readable tree |
| CJsonPrint.PrintFormatted | common/cjson.cpp:271 | the text of every readable tree but an empty object |
| CJsonRoundTrip.CopyMeansTheSame | common/cjson.cpp:542-567 | a deep copy stands for the same value as its source |
| CJsonRoundTrip.DuplicateThenPrint | common/cjson.cpp:290-567 | a deep copy, made through references, prints as the text of its source |
| CJsonRoundTrip.PrintThenParse | common/cjson.cpp:252-305 | printing a tree and parsing the text yields a well-formed tree of fresh nodes with the same value |
| JsonRecord.JsonHelper.SetJsonItem | common/cjson_helper.cpp:191-204 | the entry is added behind the others; false only after a failed parse |
| JsonRecord.JsonHelper.Json2Char | common/cjson_helper.cpp:237-240 | the unformatted text of the object held |
| JsonRecord.JsonHelper.GetJsonItem | common/cjson_helper.cpp:55-74 | parses once, then returns the text of the first member whose name matches |
| JsonRecord.JsonHelper.ParseGet | common/cjson_helper.cpp:40-45 | the tree held stands for the text |
| JsonRecord.MatchIsFirstKey | common/cjson.cpp:500 | the search among nodes is the search among the members of the value |
| JsonRecord.DealQuerySqlOne | dbserver/db_worker.cpp:112-130 | the text of the record with one entry per column of the first row, of an empty record if there is no row |
| JsonRecord.RecordRoundTrip | common/cjson_helper.cpp:55-74 | a row is read back from its record if and only if columns whose names agree up to case hold the same text |
| JsonRecord.FetchColumn | dbserver/db_worker.cpp:112-130 | both ends together: the text of the first column with that name, false if there is none or no row |
| Bits.BitByBit | common/stream.cpp:29-45 | `&` and `|` work bit by bit |
| Bits.AndPredecessor | common/util.cpp:35 | the bit test singles out the powers of two |
| NetUtil.ConversionsUndo | common/epoll_server.cpp:704-722 | the conversions between `int` and `uint32_t` undo each other |
| NetUtil.MinPow | common/util.cpp:32-49 | the least power of two not below the argument up to 2^30; smaller ones unchanged, larger ones out of range |
| NetUtil.NextPowerWithin | common/buffer.cpp:42-47 | rounding up never leaves a limit that is a power of two |
| NetUtil.SplitInto | common/util.cpp:16-30 | the loop computes the pieces between any of the separating characters, at least one |
| NetUtil.JoinUndoesSplit | common/util.cpp:16-30 | joining the pieces gives the text, for every text |
| NetUtil.SplitUndoesJoin | common/util.cpp:16-30 | splitting joined pieces gives the pieces, for every nonempty list of separator-free ones |
| NetUtil.ParseIds | common/message_queue.cpp:219-230 | one `uint32_t` per piece, the number `atoi` reads where it is an `int` |
| NetUtil.BroadcastIds | common/message_queue.cpp:219-230 | every nonempty list of ids survives its text encoding |
| ByteStream.WrittenBigEndian | common/stream.cpp:53-73 | 16 and 32 bits are written with the most significant byte first |
| ByteStream.ReadBigEndian | common/stream.cpp:29-45 | they are read in this order if no byte but the first has the sign bit |
| ByteStream.ShiftAndOr16Value | common/stream.cpp:29-33 | the shifts and the `or` of sign-extended bytes, in arithmetic |
| ByteStream.ShiftAndOr32Value | common/stream.cpp:41-45 | the same for four bytes: the lowest byte with the sign bit fills all above it |
| ByteStream.DecodeUint16 | common/stream.cpp:29-33 | the bit-level expression computes that number |
| ByteStream.DecodeUint32 | common/stream.cpp:41-45 | the bit-level expression computes that number |
| ByteStream.Uint16RoundTrip | common/stream.cpp:29-57 | a 16-bit number is read back if and only if it decodes to itself by a test on its bytes |
| ByteStream.Uint32RoundTrip | common/stream.cpp:41-73 | the same for 32 bits; otherwise it comes back as at least 0xFF000000 |
| Framing.FrameLayout | common/package.cpp:25-48 | the bytes of a frame: length, command id, sub id, body, at their places and in network byte order |
| Framing.CutByLength | common/package.cpp:50-109 | what is cut off by what the first bytes spell: as many bytes as the length says, even fewer than a header; nothing for 0 or more than there is |
| Framing.CutAppend | common/package.cpp:66-109 | more bytes never change the packages already cut off |
| Framing.ChunkingIndependence | common/epoll_server.cpp:181-221 | for every byte stream and every split into reads, the packages cut off and the rest are those of the whole stream |
| Framing.FrameIsFirst | common/package.cpp:89-109 | a frame whose length decodes to itself is cut off as soon as it is complete, and no earlier byte decides |
| Framing.FrameBlocks | common/package.cpp:66-87 | a frame whose length does not decode to itself is not cut off, nor anything behind it, as long as less than 0xFF000000 bytes have come |
| Framing.FrameUnfinished | common/package.cpp:66-87 | an unfinished frame is kept whole |
| Framing.DecodedMessage | common/package.cpp:25-64 | a received frame is the message sent if and only if both ids decode to themselves |
| Framing.MessagesRoundTrip | common/package.cpp:25-109 | a list of messages of less than 0xFF000000 bytes in all arrives as sent, in order and complete, if and only if all header fields decode to themselves |
| Framing.FitsIffShort | common/epoll_server.cpp:170-176 | there is room for a whole read before every read, for every split, if and only if no frame exceeds 3073 bytes |
| ByteBuffer.Buffer.Extend | common/buffer.cpp:30-61 | up to 4096 bytes the block has the least power of two that suffices and keeps the contents; beyond, the size is raised and the block kept |
| ByteBuffer.Buffer.Write | common/buffer.cpp:63-78 | the bytes are appended to the contents |
| ByteBuffer.Buffer.Read | common/buffer.cpp:80-91 | a prefix is taken off, at most all; prefix and rest are the old contents |
| Packages.Package.SetMsg | common/package.cpp:25-48 | the buffer holds the frame of the message |
| Packages.Package.ReadPduHeader | common/package.cpp:50-64 | the three fields are decoded, or -1 and nothing changed |
| Packages.Package.IsPduAvailable | common/package.cpp:66-87 | true exactly if a nonzero length decodes and that many bytes are there |
| Packages.Package.ReadPdu | common/package.cpp:89-109 | the first package of the buffer, null if it is not complete |
| Channels.Channel.ReadPackage | common/channel.cpp:26-38 | the first package is cut off and its bytes consumed, or nothing changes |
| Channels.Channel.ReadPackages | common/epoll_server.cpp:194-221 | the loop ends, returns all packages in order and leaves the rest |
| Channels.Channel.OnData | common/epoll_server.cpp:170-231 | a chunk is appended and cut, the watcher set by the out-buffer |
| Channels.Channel.SendLoop | common/epoll_server.cpp:267-295 | what the socket took is what has left the front of the out-buffer; at most 1024 bytes are offered at a time; the loop ends when all is sent or `send` answers with an error or nothing, and not before |
| Channels.Channel.OnWrite | common/epoll_server.cpp:263-297 | the same, and the watcher waits for writability only after an error |
| Channels.Channel.Enqueue | common/epoll_server.cpp:333-346 | the frame is appended and the watcher armed |
| EpollServer.EpollServer.OnAccept | common/epoll_server.cpp:112-138 | a channel in its initial state, unless one exists under the descriptor; the others untouched |
| EpollServer.EpollServer.OnRead | common/epoll_server.cpp:141-233 | one step of the server on values: packages posted in order, or the channel forgotten and a close posted; other channels untouched |
| EpollServer.EpollServer.ReceiveMessages | common/epoll_server.cpp:141-233 | chunking independence on the server itself: for every list of messages of at most 3073 bytes whose header fields decode to themselves and every split of their bytes into reads, repeated reading posts exactly the messages in order and never lacks room |
| EpollServer.EpollServer.OnFdClosed | common/epoll_server.cpp:437-457 | the channel is forgotten and a close posted |
| EpollServer.EpollServer.OnWrite | common/epoll_server.cpp:235-298 | one sending step on values with what the socket took and answered last, other channels untouched |
| EpollServer.EpollServer.OnEventfd | common/epoll_server.cpp:300-384 | all popped messages are delivered, packages and broadcasts, as the step on values says |
| ServerModel.StepKeeps | common/epoll_server.cpp:112-435 | every handler keeps every channel consistent: posted packages are those of all bytes received, sent and waiting bytes are those queued, the watcher is armed exactly while bytes wait, unless the last handler gave up on a send that returned 0 |
| ServerModel.EveryRunIsConsistent | common/epoll_server.cpp:112-435 | the same in every run of handlers over any channels |
| ServerModel.ArmedIffNotGivenUp | common/epoll_server.cpp:225-297 | in every run, a watcher waits for writability exactly while bytes wait if and only if the last handler that set it did not give up on a send that returned 0 |
| ServerModel.StalledRun | common/epoll_server.cpp:263-297 | a run of three handlers after which a queued frame waits behind a watcher that does not wait for writability |
| ServerModel.NoStallWithoutZeroSend | common/epoll_server.cpp:263-297 | as long as no `send` returns 0, every watcher waits for writability exactly while bytes wait |
| ServerModel.ZeroSendStalls | common/epoll_server.cpp:285-297 | after a `send` that returned 0 bytes wait and the watcher does not |
| ServerModel.ClientMessagesArePosted | common/epoll_server.cpp:141-233 | in every run, a client whose header fields decode to themselves has exactly its messages posted, in order |
| ServerModel.QueueHoldsPosted | common/epoll_server.cpp:194-221 | in every run, what was pushed for the workers under a channel's id since it was accepted are exactly the packages of its history, in order |
| ServerModel.ClientMessagesReachWorkers | common/epoll_server.cpp:141-233 | in every run, the workers find under a client's id exactly its messages, in order, if its header fields decode to themselves |
| ServerModel.ClientMessagesFit | common/epoll_server.cpp:170-191 | in every run, with frames of at most 3073 bytes there is always room for the next read |
| ServerModel.DeliverRoutes | common/epoll_server.cpp:315-384 | each out-buffer gains exactly the frames popped for its channel, in order, and only then is its watcher touched |
| ServerModel.AnyPrefixCanGo | common/epoll_server.cpp:267-295 | the socket may take any number of bytes |
| ServerModel.AnswerReachesSender | common/epoll_server.cpp:194-221 | in every run, a frame sent to the id of a package or a close that was posted for a descriptor goes to the channel under this descriptor and leaves all others alone |
| ServerModel.SameConnectionIff | common/epoll_server.cpp:437-457 | this is the connection for which it was posted if and only if that has not been closed in between |
| ServerModel.StaleAnswer | common/epoll_server.cpp:437-457 | a run in which the answer to a message reaches the next client under the same descriptor |
| ServerModel.EveryCloseIsPosted | common/epoll_server.cpp:437-457 | in every run the workers are told of the end of each connection exactly once |
| Mq2s.EveryRunIsSafe | common/message_queue.cpp:55-176 | in every run of any threads with spurious wake-ups: mutual exclusion, exactly-once delivery in order, no pop from an empty queue, no un-notified waiter beside a nonempty queue outside a push |
| Mq2s.StepKeepsWakeups | common/message_queue.cpp:342-355 | no step loses a wake-up or takes from an empty queue |
| Mq2s.QuietMeansServed | common/message_queue.cpp:160-176 | no deadlock: when nothing can go on, the queue is empty or nobody is popping |
| Mq2s.FinishingEnds | common/message_queue.cpp:55-176 | calls under way come to an end: every step without a new call or spurious wake-up lowers the measure |
| Mq2s.Settles | common/message_queue.cpp:55-176 | from every reachable situation finitely many steps of the calls under way lead to one in which the queue is empty or nobody is popping |
| Mq2s.PushTakesEffect | common/message_queue.cpp:55-158 | a push that nobody interrupts appends its item and wakes everyone who waits |
| Mq2s.PopTakesEffect | common/message_queue.cpp:160-176 | a pop that nobody interrupts takes the first item |
| Mq2s.PopWaits | common/message_queue.cpp:160-176 | a pop of an empty queue waits and gives the mutex back |
| Mq2c.EveryRunIsSafe | common/message_queue.cpp:178-317 | in every run: mutual exclusion, delivery in order, and no stranded message |
| Mq2c.StepKeepsNoneStranded | common/epoll_server.cpp:300-319 | a queued message implies a positive counter, a draining socket thread that has not seen empty, or a pusher about to signal |
| Mq2c.QuietMeansDrained | common/message_queue.cpp:302-317 | when nothing can go on, everything pushed has been popped, in order |
| Mq2c.Settles | common/epoll_server.cpp:300-319 | from every reachable situation finitely many steps without new calls lead to one in which everything pushed is popped |
| Mq2c.FinishingEnds | common/epoll_server.cpp:300-319 | without new calls the drain loop and all pushes come to an end |
| Mq2c.PushTakesEffect | common/message_queue.cpp:178-300 | a push that nobody interrupts appends its item and adds one to the counter |
| Mq2c.WakeupTakesEffect | common/epoll_server.cpp:300-319 | a wake-up empties the counter and hands the first message to the handler |
| Mq2c.LoopGoesOn | common/epoll_server.cpp:315-319 | behind a message the loop goes on with the next one, or ends if there is none |
| SqlExec.SqlManager.OnExec | pyscript/common/SqlExec.py:14-24 | one request step on values |
| SqlExec.SqlManager.OnCallback | pyscript/common/SqlExec.py:26-32 | one reply step on values: the callback with its nested requests, then the deletion by id |
| SqlExec.IdsRepeat | pyscript/common/SqlExec.py:14-18 | two requests at most 31999 apart share an id exactly if they are 0 or 31999 apart |
| SqlExec.EveryRunCounts | pyscript/common/SqlExec.py:14-24 | in every run request k carries the id of k, and an entry younger than 31999 requests is where its id says |
| SqlExec.OverwritesIff | pyscript/common/SqlExec.py:20-24 | a request overwrites a live entry if and only if the request 31999 before is still in the table |
| SqlExec.ExecIsExactIff | pyscript/common/SqlExec.py:20-24 | a request keeps the table exact if and only if it overwrites nothing |
| SqlExec.CallbackIsExactIff | pyscript/common/SqlExec.py:26-32 | a reply runs its entry's callback once and keeps the table exact, nested requests included, if and only if none of them overwrites anything |
| SqlExec.FirstRequestIsLost | pyscript/common/SqlExec.py:14-32 | after 32000 requests without a reply the first is lost, and the reply to it runs the callback of the last |
| SqlExec.ReplyRunsItsRequester | pyscript/common/SqlExec.py:26-32 | in an exact table the reply to an unanswered request runs that requester's callback |
| SqlExec.EveryRunIsExactIff | pyscript/common/SqlExec.py:8-32 | every run: exact throughout if and only if every request is made in time |
| SaveObj.SaveObj.SetAttr | pyscript/common/SaveObj.py:125-130 | the value is stored and the object dirty |
| SaveObj.SaveObj.Mutate | pyscript/logic/player/Player.py:51-53 | a change behind `update()` leaves the object dirty |
| SaveObj.SaveObj.GetColumnsData | pyscript/common/SaveObj.py:61-70 | every column with the value its save function reads |
| SaveObj.SaveObj.OnTick | pyscript/common/SaveObj.py:31-36 | one tick step on values |
| SaveObj.SaveObj.Destroy | pyscript/common/SaveObj.py:38-40 | one destroy step on values |
| SaveObj.SaveObj.LoadFromDb | pyscript/common/SaveObj.py:72-88 | the loaded columns are stored, in whatever order they come |
| SaveObj.SetterStores | pyscript/common/SaveObj.py:125-130 | a setter puts its value into its column and key column, marks the object as dirty and changes nothing else; a change behind `update()` does so for columns with functions of their own |
| SaveObj.ColumnIsLastGiven | pyscript/common/SaveObj.py:61-135 | in every run each column holds the last value that a setter, a change or a load gave it |
| SaveObj.EveryRunWrites | pyscript/common/SaveObj.py:25-40 | exactly the UPDATE statements of every run: one at each fifth tick and one by `destroy` if there was a change since, with the last values given; the object is dirty exactly in between |
| SaveObj.EveryRunIsFaithful | pyscript/common/SaveObj.py:25-40 | in every run a clean object's data are those last saved or loaded |
| SaveObj.LoadRestores | pyscript/common/SaveObj.py:72-88 | a load changes exactly the columns of the reply, to the values in it, passed through the load functions |
| SaveObj.SavedIsLastUpdateOrLoad | pyscript/common/SaveObj.py:95-102 | these are the data of the last UPDATE statement, or the data before the last load with the columns of its reply put in |
| SaveObj.CleanIsSaved | pyscript/common/SaveObj.py:25-40 | both together for every run of a new object |
| SaveObj.DirtyIsSavedInTime | pyscript/common/SaveObj.py:31-36 | a dirty object issues an UPDATE within 5 ticks, whatever else happens |
| SaveObj.DestroySavesAll | pyscript/common/SaveObj.py:38-40 | `destroy` issues an UPDATE exactly if the object is dirty and leaves nothing unsaved |
| LoginMgr.ClientProxyManager.GetClientProxyByUniqid | pyscript/server/ClientProxyManager.py:21-25 | a session with that id exactly if there is one, in any order of iteration |
| LoginMgr.LoginMgr.CreatePlayer | pyscript/logic/login/LoginMgr.py:17-28 | one creation step on values |
| LoginMgr.LoginMgr.LoginPlayer | pyscript/logic/login/LoginMgr.py:30-43 | one login step, a kick of the session found included |
| LoginMgr.LoginMgr.KickPlayer | pyscript/logic/login/LoginMgr.py:96-103 | the session found is removed and the player saved and dropped |
| LoginMgr.LoginMgr.PlayerLeaves | pyscript/logic/login/LoginMgr.py:45-71 | one logout or close step |
| LoginMgr.LoginMgr.OnLoadReply | pyscript/logic/login/LoginMgr.py:73-88 | one load reply step, for any of the pending loads |
| LoginMgr.LeaveEnds | pyscript/logic/login/LoginMgr.py:45-71 | a logout or closed socket ends the session there, drops and saves its player, and changes nothing else |
| LoginMgr.LoginKicks | pyscript/logic/login/LoginMgr.py:30-43 | a login opens its session; the session of the same id that it finds is ended and its player saved and dropped; all others stay |
| LoginMgr.SavedAreThoseDropped | pyscript/logic/login/LoginMgr.py:45-103 | the objects saved are exactly those that go out of memory, unless loaded data replace one |
| LoginMgr.CreatedReachesCallerIff | pyscript/logic/login/LoginMgr.py:17-28 | the answer to a creation reaches its socket if and only if no player of the id is in memory for another one |
| LoginMgr.SessionsAreThoseOpened | pyscript/logic/login/LoginMgr.py:17-103 | in every run the sessions are those that logins and creations have opened and that no logout, kick or failed load has ended since |
| LoginMgr.PlayersAreThoseRemembered | pyscript/logic/login/LoginMgr.py:17-103 | in every run the players in memory are those that creations and loaded data have put there and that no logout or kick has dropped since |
| LoginMgr.ReplyAnswersItsLogin | pyscript/logic/login/LoginMgr.py:73-88 | in every run loaded data are answered on the socket of the login that asked for them, failed loads on that of a session of the same id, which they end |
| LoginMgr.EveryLoginIsAnswered | pyscript/logic/login/LoginMgr.py:30-88 | in every run each login is answered once, still waits for its data, or has failed when its session was gone |
| LoginMgr.SearchIsDeterminedIff | pyscript/server/ClientProxyManager.py:21-25 | the search by id is independent of the iteration order if and only if no id has two sessions |
| LoginMgr.OneSessionIff | pyscript/logic/login/LoginMgr.py:17-103 | every step keeps one session per id, a creation if and only if no other socket has a session of the id |
| LoginMgr.StepKeepsBacked | pyscript/logic/login/LoginMgr.py:30-103 | behind every session there is a player in memory or a load under way |
| LoginMgr.EveryRunHasOneSessionEach | pyscript/logic/login/LoginMgr.py:30-103 | both in every run, load replies in any order |
| LoginMgr.NoOrphansIff | pyscript/logic/login/LoginMgr.py:73-103 | exactly which steps leave a player in memory without a session |
| LoginMgr.TwoSessionsOfOneId | pyscript/logic/login/LoginMgr.py:17-28 | two creations of one id on two sockets: the id has two sessions |
| LoginMgr.LateReplyOrphans | pyscript/logic/login/LoginMgr.py:59-88 | a login, a logout, and then its loaded data: the player is in memory without a session |
| LoginMgr.TakeoverOrphans | pyscript/logic/login/LoginMgr.py:17-28 | the same by two creations of different ids on one socket |
| LoginMgr.DropsUnsavedIff | pyscript/logic/login/LoginMgr.py:73-88 | a player object is dropped from memory without being saved exactly by a load reply for an id in memory |
| LoginMgr.EveryRunIsNumbered | pyscript/logic/login/LoginMgr.py:17-103 | what this rests on in every run: no player object is in two places |
| LoginMgr.OverlappingLoginsDrop | pyscript/logic/login/LoginMgr.py:30-88 | two overlapping logins of one id: the first answer goes to a socket without a session, and the player loaded first is overwritten unsaved |
| LoginMgr.LoginLoadsItsPlayer | pyscript/logic/login/LoginMgr.py:30-43 | without such players a login always starts a load for its own connection |

## Left out

- Failing allocations, the error pointer `ep` and the allocation hooks of cJSON: every `malloc` succeeds.
- CJsonParse.ParseNumberInto: does not model the rounding of doubles; `valuedouble` is an exact real, and an exponent is an exact power of ten.
- CJsonPrint.PrintNumber: does not model numbers that print with `%e`, `%f` or `%.0f`.
- CJsonPrint.PrintObject: does not model children of an object without a name, whose key prints as an empty text; neither the parser nor `cJSON_AddItemToObject` makes them.
- JsonText.ParseValue: malformed `\u` escapes and literals that end behind a backslash have the outcome `Unmodelled`, since the C code then reads indeterminate values or beyond its input.
- CJsonPrint.PrintValue: the temporary texts of entries are not released in the model; the failure branches of the printer need a failing allocation or an unprintable child.
- `cJSON_CreateIntArray` and the other array constructors, `cJSON_Minify` and `GetJsonItem2`: easy beside the members above.
- NetUtil.ParseIds: numbers outside the range of `int`, for which `atoi` is not defined, give an unspecified id.
- JsonRecord.JsonHelper.GetJsonItem: a member that is not a string is excluded, its `valuestring` being null; a database row with a null column likewise.
- ByteBuffer.Buffer.Extend: sizes at which `m_write_offset + len` wraps around 32 bits are excluded.
- Packages.Package.SetMsg: the malloc'ed package buffer is a value; its terminator behind the frame is not modelled.
- Sockets, `recv`, `send`, libev and `eventfd` calls themselves: their results are arguments, nondeterministic choices or, for the eventfd, a counter whose writes succeed.
- EpollServer.EpollServer.OnRead: connectors (`FD_TYPE_CONNECT`) and their reconnects are left out, and with them the `CONNECT` branch of `OnEventfd`; timers likewise, whose map is keyed inconsistently.
- EpollServer.EpollServer.OnEventfd: what `MQ2C_Pop` yields is an argument, its concurrency with pushers being the subject of `Mq2c`; timer and connector messages do nothing.
- Broadcast to all, which no handler reads.
- `MessageQueue` is modelled on values, as a transition system: a blocking wait has no counterpart in a terminating method. Memory of queue entries and the type test at the start of `MQ2S_Push` are left out.
- SqlExec.SqlManager.OnCallback: callbacks return and what they do besides issuing requests does not matter; the database's echo of an id is an argument.
- SaveObj.SaveObj.LoadFromDb: the conversions of stored values, the callback and `after_load` behind a load, and the text of the SQL statements are left out; columns with functions of their own are modelled by the value these keep.
- LoginMgr.LoginMgr.LoginPlayer: player objects are values, and ids are integers on all paths.
- MySQL, the bridge between Python and C++, logging, configuration, hot reload and the metaclasses.
