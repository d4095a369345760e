# A verified model of the robot SDK's JSON library, message queue and encoders

This project models, in Dafny 4.11, the parts of the robot SDK that every message goes through, and proves what they
are for. `dafny verify dfyconfig.toml` checks all of it.

- **The JSON library** (`libs/json/cJSON.c`), in two layers. The lower layer is made of values and texts: `Json` is
  the value, `Render` the printed text, `Parser` what the recursive-descent parser makes of a text, and `Grammar` the
  grammar of RFC 8259 (sections 2 to 7) as syntax trees with a text and a meaning. The upper layer runs: byte arrays
  with index cursors, `Node` objects with `next`, `prev` and `child`, and an allocator any of whose allocations may
  fail. `Tree` is the ghost picture of a node and everything below it; `Holds` says that the heap is as in the
  picture, `Separate` that nothing is shared, `Blocks` which blocks it owns. Each method is proved against the
  functions of the lower layer, and says exactly which blocks are live afterwards.
- **The message queue** (`utils/RobotMsgQueue.c`): the byte ring, the queue object, and a transition system of any
  number of threads whose calls are cut into semaphore wait, critical section and semaphore post. A second transition
  system has the mutex and the steps inside the sections as well, and refines the first.
- **The servo and motion encoders with the table of motions, and the port rewriting** (`src/RobotApi.c`).
- **The swarm message codec** and the nearest-reading loop (`utils/RobotMsg.c`), on top of the JSON library.

Bytes of texts are `char`s, bytes of buffers are numbers from 0 to 255. A text is the sequence of characters in front
of its NUL. Where the C code would leave its text or buffer, the functions and methods have an outcome of their own
(`Undefined`, `Stray`, `None`, `Unspecified`), so that the other outcomes are about defined behaviour only.

## What the code does that its documentation does not say

- `cJSON_PrintBuffered` reuses the loop counter that holds the start of an object, so that printing a formatted object
  inside another value returns the wrong pointer. Nothing looks at that pointer but the outermost call, whose counter
  is 0, and the text returned is right (`BufferPrinter.PrintTo` states the pointer exactly).
- The string printer tests for a missing string only after it has read it, so an item without its string or its name
  cannot be printed; the printers are stated for trees that have them (`PrintText.Ready`).
- The port rewriting skips `sizeof` of a pointer and two characters, which is right where a pointer has 4 bytes, as on
  the robot; the model takes it so. It looks for the letters `port`, not for the member. In a message with an integer
  member `port` it does what it is for exactly when that name is the first `port` in the text and, if the message is
  formatted, the old port is not negative (`Misplaced.PortReplacedExactly`); in a message without the member, exactly
  when the object is not empty and `port` is nowhere in its text (`Misplaced.PortInsertedExactly`). An account called
  `airport` in front of the port is enough to make the text sent no JSON text (`Misplaced.Airport`).
- A motion of a single frame would have a start frame and no end frame; but every motion there is has two to six poses,
  so every file of a motion repeated at least once has exactly one start and one end frame (`Motions.RoutineFile`).
  Repeat 0, documented as endless, writes no frame. The speed 6, which the documentation does not list, is accepted.
- `cJSON_Minify` takes `/*/` as a whole comment (`MinifyText.ShortComment`), and `parse_string` drops the `\u` escape behind
  the first half of a surrogate pair if it is not a second half (`Unicode.NothingTranscoded`).
- A servo angle of 0 is accepted and ignored; it reads back as 255.
- A swarm message that lost members to failed allocations is still sent and still decoded: every decoder takes a missing
  type for its own, and leaves the fields that are missing as they were (`SwarmExchange.PartlyDecoded`).
- Every swarm encoder leaves the printed text allocated (`SwarmCodec.Finish`), and `cJSON_ReplaceItemInObject` gives up
  a name that the new item had (`Messages.ReplaceItemInObject`).
- A queue message shorter than its slot is received with the tail of an older message, or zeros, behind it
  (`QueueSystem.MessageBytes`).

## Model

| member | source | states |
|---|---|---|
| `Parser.ParseValue` | libs/json/cJSON.c:500-538 | a successful parse leaves less text than there was, on which the mutual recursion of values, arrays and objects terminates |
| `Parser.Unescape` | libs/json/cJSON.c:255-334 | a result never has more bytes than the first scan counted, because the function is undefined where the C code would leave its block, and never more text is left than there was; that the count suffices for every well-formed literal is `Completeness.ScanSuffices`, and that the pass then reaches its end `Completeness.ParseStringComplete` |
| `Numbers.AccumulateReads` | libs/json/cJSON.c:107-114 | the digit loop adds a run of digits to what it had, times the power of ten, and stops at its end |
| `Numbers.DecimalMagnitude` | libs/json/cJSON.c:191-194 | reading the decimal digits that are printed gives the number back |
| `Unicode.Utf8RoundTrip` | libs/json/cJSON.c:300-322 | the bytes emitted for a code point are as many as RFC 3629 section 3 says and decode to it again |
| `Unicode.SurrogateRoundTrip` | libs/json/cJSON.c:291-298 | combining a surrogate pair inverts splitting a code point (RFC 2781 section 2), and the other way round |
| `Unicode.HexValueIsPlace` | libs/json/cJSON.c:212-238 | the arithmetic on character codes finds the place of a digit in `0123456789abcdef` or `0123456789ABCDEF`, and no other character is a digit |
| `Unicode.ParseHex4IsMagnitude` | libs/json/cJSON.c:212-238 | four hexadecimal digits are read as the number they denote in base sixteen, and anything else as 0 |
| `Unicode.NothingTranscoded` | libs/json/cJSON.c:286-298 | zero, half a surrogate pair and digits that are none write nothing; a pair whose second half is wrong is skipped as a whole |
| `Unicode.OtherEscape` | libs/json/cJSON.c:322-325 | a backslash in front of any other character is dropped |
| `Completeness.ScanSuffices` | libs/json/cJSON.c:255-257 | for every well-formed string literal the first scan counts at least as many bytes as its meaning has |
| `Completeness.ParseStringComplete` | libs/json/cJSON.c:242-334 | every string token of the grammar is read in full, with exactly the bytes it denotes |
| `Completeness.ParseNumberComplete` | libs/json/cJSON.c:101-130 | every number token is read in full, with its exact decimal value from digits, scale and exponent |
| `Completeness.ParseValueComplete` | libs/json/cJSON.c:500-538 | every value of the grammar, in front of any text, is accepted with the value it denotes, and nothing after it is read |
| `Completeness.ParseItemsComplete` | libs/json/cJSON.c:612-644 | the same for the elements of an array, with any white space between tokens |
| `Completeness.ParseMembersComplete` | libs/json/cJSON.c:753-803 | the same for the members of an object |
| `Completeness.ParseTextComplete` | libs/json/cJSON.c:444-471 | every JSON text is accepted with the value it denotes, whether or not the NUL is required |
| `Lexemes.ValueReads` | libs/json/cJSON.c:500-538 | conversely, whatever text is accepted, the lexemes read are exactly those of the value returned, in order |
| `Lexemes.GlueText` | libs/json/cJSON.c:541-609 | a printed text is the lexemes of its value with the white space of the layout before each |
| `RoundTrip.LayoutText` | libs/json/cJSON.c:541-609 | what is printed is the text of a syntax tree of the grammar |
| `RoundTrip.LayoutValid` | libs/json/cJSON.c:541-609 | that syntax tree is well formed and denotes the value printed |
| `RoundTrip.ShortestLiteral` | libs/json/cJSON.c:337-420 | no literal of the grammar that denotes a string is shorter than the one printed: nothing is escaped that need not be, and every escape is the shortest |
| `RoundTrip.SmallEscapes` | libs/json/cJSON.c:400-415 | escapes are written without capital letters |
| `Indentation.TabsAreTabs` | libs/json/cJSON.c:935 | the white space of a nesting level is that many tab characters |
| `Indentation.FormattedText` | libs/json/cJSON.c:541-957 | in the formatted text of every value the white space follows from the lexemes alone: a name on a line of its own behind a tab for every open bracket, a closing brace likewise behind one tab less, or two less in an empty object, a tab behind a colon, a space behind a comma between elements, nothing else; the brackets balance |
| `Indentation.UnformattedText` | libs/json/cJSON.c:541-957 | the unformatted text has no white space between lexemes |
| `RoundTrip.PrintThenParse` | libs/json/cJSON.c:479-538 | a printed value in front of any text is parsed back to the same value, and only its own text is read |
| `RoundTrip.PrintParseText` | libs/json/cJSON.c:444-486 | parsing the whole of a printed text gives the value back and consumes all of it |
| `RoundTrip.RenderInjective` | libs/json/cJSON.c:479-486 | two values with the same printed text, formatted or not, are the same value |
| `Minify.MinifyInPlace` | libs/json/cJSON.c:1275-1303 | the buffer ends up with the minified text; the write cursor stays behind the read cursor and nothing behind the NUL is touched; it fails exactly where the C code leaves the text |
| `Minify.CopyLiteral` | libs/json/cJSON.c:1291-1300 | a string literal, escaped quotes and backslashes included, is copied as it is |
| `MinifyText.MinifiesText` | libs/json/cJSON.c:1275-1303 | minifying any JSON text takes out the white space between its tokens and nothing else |
| `MinifyText.MinifiedMeansTheSame` | libs/json/cJSON.c:1275-1303 | the minified text parses to the value of the original |
| `MinifyText.MinifyIsUnformatting` | libs/json/cJSON.c:1275-1303 | minifying what `cJSON_Print` writes gives what `cJSON_PrintUnformatted` writes |
| `MinifyText.MinifyTwice` | libs/json/cJSON.c:1275-1303 | minifying again changes nothing |
| `MinifyText.WhiteSpaceIrrelevant` | libs/json/cJSON.c:437-471 | texts that differ only in the white space between tokens parse to the same value |
| `MinifyText.LineCommentGoes` | libs/json/cJSON.c:1284 | minifying drops a comment up to the end of its line, and the line break |
| `MinifyText.BlockCommentGoes` | libs/json/cJSON.c:1285-1289 | minifying drops a comment up to the first asterisk and slash, where the asterisk that opens it counts |
| `MinifyText.ShortComment` | libs/json/cJSON.c:1285-1289 | so that an asterisk between two slashes is taken as a whole comment |
| `PowerOfTwo.Pow2gtRoundsUp` | libs/json/cJSON.c:132-141 | the shifts and ors round a size up to a power of two, the least that is not below it |
| `Nodes.Heap.Free` | libs/json/cJSON.c:50-51 | only a live block can be freed, so no verified caller frees twice |
| `Deletion.Delete` | libs/json/cJSON.c:86-98 | exactly the blocks of the tree are freed |
| `Deletion.DeleteChain` | libs/json/cJSON.c:86-98 | the same for a chain of siblings and everything below it |
| `Edits.AddItemToArray` | libs/json/cJSON.c:999-1012 | appends to the child sequence; the chain stays well linked and free of sharing; NULL changes nothing |
| `Edits.DetachItemFromArray` | libs/json/cJSON.c:1037-1047 | removes the child at a place (a negative place is the first) and returns it as a tree of its own; past the end nothing happens |
| `Edits.InsertItemInArray` | libs/json/cJSON.c:1066-1080 | inserts at a place, and appends past the end |
| `Edits.ReplaceItemInArray` | libs/json/cJSON.c:1081-1093 | replaces the child at a place and frees exactly the old one; past the end nothing happens |
| `Lookup.StrCaseCmp` | libs/json/cJSON.c:42-48 | is 0 exactly for texts that are equal up to case |
| `Lookup.FoldedAlike` | libs/json/cJSON.c:42-48 | texts compare equal exactly when they have, up to their end, at each place the same character or the two cases of one letter |
| `Lookup.GetObjectItem` | libs/json/cJSON.c:973-978 | returns the first child whose name is equal up to case, or NULL |
| `Lookup.GetArraySize` | libs/json/cJSON.c:960-966 | counts the children |
| `Lookup.DetachItemFromObject` | libs/json/cJSON.c:1052-1059 | removes exactly the child that a lookup finds |
| `Lookup.DeleteItemFromArray` | libs/json/cJSON.c:1048-1051 | removes the child at a place and frees exactly its blocks |
| `Lookup.DeleteItemFromObject` | libs/json/cJSON.c:1060-1063 | removes the child found by name and frees exactly its blocks |
| `Lookup.DetachedNext` | libs/json/cJSON.c:1052-1059 | after a detach, the same lookup finds the next match: only the first was taken |
| `Duplicate.Duplicate` | libs/json/cJSON.c:1220-1273 | the copy is the same tree in fresh blocks, well linked and without sharing; the original is not modified; without memory every block of the copy is freed again |
| `Duplicate.SameValue` | libs/json/cJSON.c:1220-1273 | a copy has the value of the original |
| `HeapText.ScanNumber` | libs/json/cJSON.c:101-130 | the digit, fraction and exponent loops compute the number of the parser function, and its truncation as the integer |
| `HeapText.TruncateIsNearest` | libs/json/cJSON.c:127 | the integer beside a number is the one of largest magnitude between 0 and the number |
| `HeapText.CountLength` | libs/json/cJSON.c:255 | the first scan over a string literal |
| `HeapText.DecodeInto` | libs/json/cJSON.c:260-330 | the second pass writes the unescaped bytes and a NUL, all inside the block of `len + 1` bytes |
| `HeapText.ScanString` | libs/json/cJSON.c:242-334 | the string becomes the item's value in one new block; on failure nothing is allocated |
| `HeapParser.ParseAt` | libs/json/cJSON.c:500-538 | parsing into a node agrees with the parser function, and the picture returned owns every block allocated, on success and on failure |
| `HeapParser.ParseItemsAll` | libs/json/cJSON.c:612-644 | the element loop: the children are linked in order and are the values the parser function gives |
| `HeapParser.ParseMembersAll` | libs/json/cJSON.c:753-803 | the member loop, with each parsed string moved to the name |
| `HeapParser.ParseWithOpts` | libs/json/cJSON.c:444-476 | a tree returned has the value and the parse end of the parser function, in fresh blocks, and the fields that belong to each kind (the integer of a number is its truncation, that of `true` is 1, others are 0); when none is returned every block allocated on the way is freed, and memory ran out or the text is no JSON |
| `PrintBuffer.Ensure` | libs/json/cJSON.c:150-171 | there is room from the offset on, everything before it is kept across the exchange of blocks, and the old block is freed exactly when it is exchanged or there is no memory |
| `PrintBuffer.Update` | libs/json/cJSON.c:173-179 | the offset lands on the NUL of the text printed |
| `StringPrinter.Measure` | libs/json/cJSON.c:369-376 | the length measured for a string with escapes is exact |
| `StringPrinter.QuotedSize` | libs/json/cJSON.c:344-379 | the size asked for is that of the quoted text and its NUL, on both ways through |
| `StringPrinter.Compose` | libs/json/cJSON.c:350-420 | the quoted and escaped text and a NUL are written behind what was there |
| `BufferPrinter.PrintTo` | libs/json/cJSON.c:541-577 | the rendered text stands behind the text printed before, which is unchanged, or there was no memory and the buffer is freed; the pointer returned |
| `BufferPrinter.PrintArrayTo` | libs/json/cJSON.c:647-697 | the same for arrays |
| `BufferPrinter.PrintObjectTo` | libs/json/cJSON.c:806-883 | the same for objects |
| `BufferPrinter.PrintBuffered` | libs/json/cJSON.c:488-496 | for any first size and format, the text is that of the plain printers, in one new block; without memory there is no block |
| `Printer.ItemsFit` | libs/json/cJSON.c:650-724 | what is written of an array up to any element, its closing bracket and a NUL fit into the length added up |
| `Printer.MembersFit` | libs/json/cJSON.c:810-918 | what is written of an object up to any member, its closing line and a NUL fit into the length added up |
| `Printer.PrintValue` | libs/json/cJSON.c:578-609 | the rendered text in one new block, or no memory and no new block |
| `Printer.PrintArray` | libs/json/cJSON.c:698-750 | the same for arrays; the table of entries and every entry are freed on every path |
| `Printer.PrintObject` | libs/json/cJSON.c:884-957 | the same for objects, with two tables |
| `Printer.CollectItems` | libs/json/cJSON.c:705-717 | every element is printed into the table and the sizes are added up, until one fails |
| `Printer.CollectMembers` | libs/json/cJSON.c:898-912 | every name and value is printed into the tables, whether or not one fails |
| `Exchange.PrintBothWays` | libs/json/cJSON.c:479-496 | the buffered and the plain printer produce the same bytes, NUL included |
| `Exchange.PrintMinified` | libs/json/cJSON.c:1275-1303 | printing formatted and minifying in place gives the unformatted text |
| `Exchange.Reparse` | libs/json/cJSON.c:444-486 | printing a tree and parsing the text gives a new tree with the same value, or memory ran out and nothing new is allocated |
| `Exchange.Reformat` | libs/json/cJSON.c:444-486 | parsing and printing any text gives the one text of its value, and only that text stays allocated |
| `Exchange.CopyOutlives` | libs/json/cJSON.c:1220-1273 | a copy prints what the original would have printed, after the original is deleted |
| `Exchange.NodesApart` | libs/json/cJSON.c:1220-1273 | trees without a common block have no common node, so no edit of one shows in the other |
| `Messages.AddItemToObject` | libs/json/cJSON.c:1013-1019 | any item, with whatever children: the name it had is freed, it gets the new one and becomes the last child; exactly the old name leaves the live blocks and exactly the new one joins them; NULL changes nothing |
| `Messages.ReplaceItemInObject` | libs/json/cJSON.c:1094-1104 | the first match is freed and the new item stands in its place under the name looked for; without a match nothing happens |
| `Messages.CreateString` | libs/json/cJSON.c:1142-1151 | a string item of its own; without memory for the string there is still the item |
| `Messages.CreateNumber` | libs/json/cJSON.c:1131-1141 | a number item of its own, with any number and its truncation |
| `Messages.AddString` | include/cJSON.h:139 | the object has one string member more, at its end; without memory the member is left out, or is there without its name or string |
| `Messages.AddNumber` | include/cJSON.h:138 | the same for a member with any number |
| `Ring.PutSlots` | utils/RobotMsgQueue.c:140-147 | a send overlays the slot at the tail with the message and changes no other slot |
| `Ring.SlotAfter` | utils/RobotMsgQueue.c:109-112 | byte positions wrap at the buffer size as slot numbers wrap at the queue size |
| `MessageQueue.Queue.constructor` | utils/RobotMsgQueue.c:27-52 | a queue of zeroed slots with all of them free |
| `MessageQueue.Queue.Peek` | utils/RobotMsgQueue.c:65-84 | copies out the message at an offset and changes nothing else; fails exactly when there is none, and then changes nothing |
| `MessageQueue.Queue.ReceiveSection` | utils/RobotMsgQueue.c:107-113 | the critical section of a receive |
| `MessageQueue.Queue.SendSection` | utils/RobotMsgQueue.c:141-147 | the critical section of a send |
| `MessageQueue.Queue.Receive` | utils/RobotMsgQueue.c:86-118 | a whole receive without interruption: result code, semaphores, ring and buffer |
| `MessageQueue.Queue.Send` | utils/RobotMsgQueue.c:120-152 | a whole send without interruption |
| `QueueSystem.RunInv` | utils/RobotMsgQueue.c:86-152 | in every state of every run of any number of threads the invariant holds: counts, cursors, slot contents and deliveries |
| `QueueSystem.CountersAgree` | utils/RobotMsgQueue.c:86-152 | tx, num, rx and the threads on their way add up to the queue size and to the messages; head and tail are multiples of the slot size and num slots apart |
| `QueueSystem.CountIsPending` | utils/RobotMsgQueue.c:54-63 | the count that is returned is, at every moment of every run, the number of messages sent and not yet received; it never leaves 0 to the queue size, changes by what is sent and received in between, is bounded by the semaphores from both sides, and equals them when no thread is inside a call |
| `QueueSystem.SectionsAreSafe` | utils/RobotMsgQueue.c:107-147 | no send writes a slot that is still to be received, and no receive runs on an empty queue |
| `QueueSystem.DeliversInOrder` | utils/RobotMsgQueue.c:86-152 | the messages received are those sent, in order, in the bytes that sender, receiver and slot have in common |
| `QueueSystem.MessageBytes` | utils/RobotMsgQueue.c:142-143 | what stands behind a short message in its slot |
| `QueueSystem.FrontIsNext` | utils/RobotMsgQueue.c:108-109 | what a receive copies out is the oldest message that has not been received |
| `QueueSystem.SomeoneCanGo` | utils/RobotMsgQueue.c:92-139 | when a sender and a receiver wait, some thread can take a step |
| `QueueSystem.Stuck` | utils/RobotMsgQueue.c:92-139 | when nobody can take a step, waiting senders face a full queue and waiting receivers an empty one |
| `QueueSystem.NoWaitSend` | utils/RobotMsgQueue.c:126-138 | with no other call in flight, a send that does not wait fails exactly when the queue is full |
| `QueueSystem.NoWaitReceive` | utils/RobotMsgQueue.c:92-104 | with no other call in flight, a receive that does not wait fails exactly when the queue is empty |
| `QueueSystem.PeekForesees` | utils/RobotMsgQueue.c:65-84 | a peek returns what the receive that many places later delivers, whatever happens in between, and fails exactly when there are too few messages |
| `QueueLocking.Simulates` | utils/RobotMsgQueue.c:107-147 | with the mutex and the single steps of the sections in view, every step is invisible to the queue system or one of its steps, and only the owner of the mutex has touched the ring |
| `QueueLocking.SeenRun` | utils/RobotMsgQueue.c:86-152 | every run with the mutex in view is a run of the queue system, so that taking a section as one step loses nothing |
| `QueueLocking.LockedDeliversInOrder` | utils/RobotMsgQueue.c:86-152 | the FIFO property for those runs |
| `QueueLocking.CopiesIntoFreeSlot` | utils/RobotMsgQueue.c:141-143 | when a sender is about to copy, its slot is inside the buffer and holds no message still to be received |
| `QueueLocking.OwnerCanGo` | utils/RobotMsgQueue.c:68-147 | the owner of the mutex can always take its next step |
| `QueueLocking.SomeoneGoes` | utils/RobotMsgQueue.c:92-139 | progress with the mutex in view |
| `Servo.Scatter` | src/RobotApi.c:568-592 | each servo in the mask gets the pair of its rank, every other servo `FF`; an empty text is refused, and the text is left exactly when it lacks more than one character |
| `Servo.TranslatIsPlace` | src/RobotApi.c:521-527 | a hexadecimal digit in either case is translated to its place among the digits, any other character to -1 |
| `Servo.AngleIsPair` | src/RobotApi.c:537-557 | the angle of a servo is what its two characters denote, and 255 where the text is too short |
| `Servo.ScatteredAngle` | src/RobotApi.c:537-557 | reading the scattered pose gives the number that the pair of its rank denotes, and 255 for any other servo |
| `Servo.SetServoAngle` | src/RobotApi.c:623-642 | writes one pair, ignores the angle 0, refuses what is out of range |
| `Servo.NoOtherServo` | src/RobotApi.c:623-642 | the angle set is read back and no other servo is disturbed |
| `Servo.BuildPose` | src/RobotApi.c:1101-1180 | the pose of seventeen angles is refused exactly when one is out of range, and otherwise reads back every angle, 255 for 0 |
| `Motion.CreateMotionFrame` | src/RobotApi.c:656-706 | the frame made in the reused buffer, and its bytes appended to the file |
| `Motion.HexPair` | src/RobotApi.c:676 | two hexadecimal digits are read as the number they denote |
| `Motion.AnyPair` | src/RobotApi.c:676 | what `strtol` makes of any two characters |
| `Motion.SpeedIsPace` | src/RobotApi.c:1274 | the pace is the number of times the speed goes into 60, and 5 more for turning around |
| `Motion.FasterPace` | src/RobotApi.c:1274-1561 | a higher speed never has a longer pace |
| `Motion.FramedAgain` | src/RobotApi.c:1274-1309 | what an earlier frame left in the buffer makes no difference |
| `Motion.WriteMotion` | src/RobotApi.c:1274-1309 | refuses a speed out of range and otherwise writes the motion file |
| `Motion.WriteTail` | src/RobotApi.c:1634-1640 | the last record holds the running time |
| `Motion.MotionFileIsGood` | src/RobotApi.c:656-706 | a file of up to 65535 frames: its length, frame numbers 1 to total in order, the total in every frame, the first frame a start, the last an end unless it is the first, all others middle frames, intact head and terminator, checksums, pose bytes, and the running time in the tail |
| `Motions.Choose` | src/RobotApi.c:1295-1632 | every motion there is has two to six poses, and each pose a pair of characters for every servo of its range |
| `Motions.SupportedExactly` | src/RobotApi.c:1295-1632 | the names and directions that are supported, and no others |
| `Motions.TurningIsSlower` | src/RobotApi.c:1557-1564 | turning around, and nothing else, is done at the slower pace |
| `Motions.ArmsMoved` | src/RobotApi.c:1306-1471 | a gesture of the left arm moves servos 4 to 6 and no others, one of the right arm 1 to 3, one of both arms 1 to 6 |
| `Motions.LegsMoved` | src/RobotApi.c:1295-1628 | bending left moves servos 12 to 16, bending right 7 to 11, crouching, walking and turning 7 to 16, bowing 1 to 16 |
| `Motions.BeckonBoth` | src/RobotApi.c:1380-1425 | each pose of beckoning with both arms is the pose of the right arm and that of the left arm side by side |
| `Motions.WaveBoth` | src/RobotApi.c:1426-1471 | the same for waving |
| `Motions.StepsApart` | src/RobotApi.c:1500-1585 | how steps in the four directions and the two turns begin |
| `Motions.GesturesReturn` | src/RobotApi.c:1295-1628 | every motion but walking and turning ends in the pose in which it began |
| `Motions.HeadAngles` | src/RobotApi.c:1587-1614 | the head turns to 40, 120 or 90 degrees |
| `Motions.HeadPose` | src/RobotApi.c:1587-1614 | in the pose sent for it the seventeenth servo has that angle and every other one is left alone |
| `Motions.RangeBits` | src/RobotApi.c:67 | the mask of a range of servos has their bits and no others |
| `Motions.PairOfServo` | src/RobotApi.c:656-680 | in every frame of every motion a servo of the range gets its own pair, never the filler for a text that is too short, and every other servo is left alone |
| `Motions.RoutineFile` | src/RobotApi.c:1295-1640 | the file of any motion at any speed, repeated at least once, is a good motion file with exactly one start frame and one end frame, the pace of the speed in every frame, and twenty times that pace for each frame as its running time |
| `Motions.FasterIsNoLonger` | src/RobotApi.c:1274-1640 | the running time in the file of a motion is never longer at a higher speed |
| `Motions.SetRobotMotion` | src/RobotApi.c:1253-1647 | the result code for every name, direction, speed and repeat count, and the file or the head pose that comes of it; an unsupported name or direction leaves a file with only its head |
| `Motion.EncodersAgree` | src/RobotApi.c:581-683 | for a servo in the mask both give the number that the pair of its rank denotes, for any other 255 |
| `Port.FindFirst` | src/RobotApi.c:378 | the first occurrence, and no earlier one |
| `Port.SplicePort` | src/RobotApi.c:377-395 | the cut and joined text in the send buffer |
| `Port.PortReplaced` | src/RobotApi.c:379-390 | where the name of the member is the first `port` in the text: the text sent parses to the same object with only the port changed, except that it does not parse exactly when the message was formatted and the old port negative |
| `Port.PortInserted` | src/RobotApi.c:391-395 | without any `port` in the text: the text sent parses to the same object with the port in front, except that it does not parse exactly when the object was empty |
| `CutStrings.StringCut` | src/RobotApi.c:379-390 | what the parser may make of a string that is cut behind its `port`, wherever the cut falls in its escapes: a different string, or the old one with the same text behind it |
| `Misplaced.MisplacedPort` | src/RobotApi.c:378-390 | with an integer member `port` whose name is not the first `port` in the text, the text sent never parses to the object with that member changed, for ports of four or more digits (9100 to 9599 are used, src/RobotApi.c:180) that differ from the old one |
| `Misplaced.PortReplacedExactly` | src/RobotApi.c:378-390 | hence exactly when such a message is rewritten as it should be |
| `Misplaced.PortInsertedExactly` | src/RobotApi.c:378-395 | exactly when a message without a member `port` gets one |
| `Misplaced.PortEndsValue` | src/RobotApi.c:379-390 | a first string value that ends in the first `port`, in front of another member: the text sent is turned down |
| `Misplaced.Airport` | src/RobotApi.c:379-390 | an account called `airport` in front of the port is such a message |
| `Swarm.DecodedExactly` | utils/RobotMsg.c:3399-3509 | what each decoder makes of any parsed value: it fails, writing nothing, exactly when the command or the type is there as a string and is another one, and otherwise takes each field that is there as a number and leaves the others |
| `Swarm.DecodesOwnKind` | utils/RobotMsg.c:3399-3509 | on an encoded message the decoder of its kind returns the fields encoded, and the decoder of any other kind fails and writes nothing |
| `Swarm.EncodedThenDecoded` | utils/RobotMsg.c:3544-3642 | the same through the printed text: for all int32 fields and any account, parsing and decoding invert encoding |
| `Swarm.EncodedSays` | utils/RobotMsg.c:3370-3768 | whoever parses a message finds in it the account, the port (except in `goto_xyz`, which has none), the type and every field it was made of |
| `SwarmText.MessageWritten` | utils/RobotMsg.c:3370-3768 | the text of each kind of message, letter by letter, for every account, port and fields |
| `SwarmCodec.EncodeGotoXYZ` | utils/RobotMsg.c:3370-3397 | the buffer holds the text of the members there was memory for, in order, all of them exactly if no allocation failed, cut off where it does not fit; nothing behind is written, the tree is freed and only the printed text stays allocated; on failure the buffer is untouched |
| `SwarmCodec.EncodeXYZ` | utils/RobotMsg.c:3644-3667 | the same for `reach_xyz`, `reach_xyz_ack` and `query_xyz` |
| `SwarmCodec.EncodeActionEnd` | utils/RobotMsg.c:3065-3088 | the same for `action_end` |
| `SwarmExchange.PartlyDecoded` | utils/RobotMsg.c:3399-3509 | what every decoder makes of a message that lost any of its members: its own decoder accepts it, another refuses it exactly if the type is there, and every field is the one sent or the one before |
| `SwarmExchange.Relay` | utils/RobotMsg.c:3370-3509 | encoding into a buffer and decoding that buffer: without a failed allocation the own decoder returns the fields and every other fails untouched; with one, what was left is served |
| `SwarmCodec.Decode` | utils/RobotMsg.c:3399-3509 | the result code and the fields written, for every text; fields are untouched on failure, and every block is freed |
| `SwarmCodec.FoundItem` | libs/json/cJSON.c:973-978 | the child a lookup finds on the heap is the first matching member of the value |
| `SwarmCodec.StrEqual` | utils/RobotMsg.c:3428-3434 | the comparison of a string member with the expected one |
| `Sensor.NearestReading` | utils/RobotMsg.c:1148-1164 | the least reading that is not 0, or 0xffff, and whether any sensor has a reading |
| `Sensor.ReadingInValue` | utils/RobotMsg.c:1153-1161 | the reading on the heap is that of the parsed value |

## Left out

- IEEE doubles: numbers are exact reals, so rounding, `pow`, infinities and the `%e`, `%f` and `%.0f` forms of
  printing are not modelled; printing is stated for trees whose numbers are int32.
- Overflow of `int` in the exponent of a number, in printing lengths, in offsets and in the number of motion frames:
  these are unbounded, except that a buffer above 2^30 bytes counts as one that cannot be allocated, because `pow2gt`
  overflows there. `(int)` of a number outside the int32 range is its unbounded truncation.
- Malformed string escapes, and texts that end inside a literal or a comment: where the C code leaves the text the
  outcome is undefined and nothing more is said.
- Items with the reference or constant-string flags, and `cJSON_AddItemToObjectCS` and the reference functions.
- A string read through `Chars` is read-only: a block whose text is written once is from then on seen as that text.
- The error pointer `ep`, `cJSON_InitHooks`, and the `cJSON_Create...Array` functions, which would add easy members.
- SwarmCodec.Finish: when a name or string could not be allocated, or there is no memory for the text, the C code reads
  NULL; the outcome is then `Unknown` and nothing is said of what stays allocated.
- SwarmCodec.EncodeXYZ: NULL arguments, for which the object just created is not freed, are not modelled.
- SwarmCodec.Decode: one method stands for the five decoders, which differ in the type compared and in whether the
  coordinates are read; NULL arguments are not modelled.
- The decoders of `action_end_ack` and `query_xyz_ack`, which compare the type tag of another message, and the
  remaining encoders and decoders, which repeat these shapes.
- Motions.SetRobotMotion: the random file name and what the robot does with the file or pose are not modelled; that the
  characters of the poses are hexadecimal digits is to be seen in the table and not proved.
- Port.SplicePort: requires that the result fits the send buffer and that the cursor stays inside the message; the
  socket calls around it are not modelled.
- MessageQueue.Queue.Send: the message priority, which the code ignores, interrupted waits, deletion and sizes whose
  product overflows are not modelled. `memcpy` inside a section is one step, also with the mutex in view.
- Sockets, discovery, heartbeat, cameras, scripts and directory scans of `src/RobotApi.c`.
