# Verified models of the platform's trees, timers, JSON, hash table and decoders

This project models six components and proves what they promise, in Dafny.

- **AVL tree** (`AvlSpec`, `AvlTheorems`, `AvlTree`, `AvlTraverse`). `AvlSpec` holds the tree as a
  value with a path (zipper) to the place being worked on; `AvlTheorems` proves that insertion, removal and
  replacement keep balance and the order over the whole tree, and that they are the same operations on a
  sorted list. `AvlTree` holds the nodes linked in place: the loops of the source with their stacks of child
  slots and directions, the swap of nodes in a removal, the patched stack entry and the rotations, each
  proved to leave exactly the nodes of the tree that `AvlSpec` says.
- **Timing wheel** (`TimerTrace`, `TimerCalls`, `TimerWheel`, `WheelMoves`, `WheelOrder`, `TimerManager`).
  `TimerTrace` is a timer service without wheels: a clock and a multiset of pending timers.
  `TimerCalls` says what callers ask for. `TimerWheel` and `WheelMoves` are the five wheels, where
  each timer must be, and how cascades move them; `WheelOrder` is the order in which timers for one tick stand
  and come out; `TimerManager` is the manager with its fields, proved to behave like the plain service. A timer
  of the model also holds the clock when it was set and the number of its setting, which the source does not
  store: they tell settings apart in the statements.
- **cJSON** (`JsonText`, `JsonParse`, `JsonRoundTrip`, `JsonReader`, `JsonUnicode`,
  `JsonLayout`, `JsonPrinter`, `JsonBuffer`, `JsonGrowth`, `JsonMinify`, `JsonSpaced`,
  `JsonComments`). One definition of the printed text and one of parsing; the cursor loops of the reader, both
  printing strategies and the in-place minifier are proved against them. `JsonSpaced` and `JsonComments` are the
  texts with blanks and comments between the tokens, which no printer writes.
- **Hash table** (`Bits`, `HashIndex`, `HashEntries`, `HashTable`). Chained bins linked in
  cycles, against a list of entries, a map, and one queue per key.
- **Sorted-list timer** (`MiniTimer`). The list ordered by a comparison that truncates to milliseconds.
- **Decoders** (`Base64`, `Asn1Length`, `Asn1Parser`, `Asn1Choice`).

A check over a whole structure returns `Sound` or `Broken` (`Common.Status`) where its clauses matter only
together: the verifier then carries one value through the heap changes instead of all the clauses.
Clocks, thread interleavings and the behaviour of callbacks are inputs: a run of the timing wheel gets the
current tick and, for each callback, the batch of timers it sets.

## Model

| member | source | states |
|---|---|---|
| AvlSpec.RotateRepairs | algorithms/avlTree/src/AvlTreeNode.cpp:607-686 | rotating a subtree whose heavy side is two higher repairs every height and state, and the result tells whether the height stayed |
| AvlSpec.RotateKeepsOrder | algorithms/avlTree/src/AvlTreeNode.cpp:607-686 | a rotation leaves the in-order sequence of entries as it was |
| AvlSpec.RotateKeepsItems | algorithms/avlTree/src/AvlTreeNode.cpp:607-686 | a rotation keeps the node objects, each once |
| AvlTheorems.GrowUpAvl | algorithms/avlTree/src/AvlTreeNode.cpp:137-162 | the walk back up after an insertion restores exact balance of the whole tree, early stops included |
| AvlTheorems.GrowUpOrder | algorithms/avlTree/src/AvlTreeNode.cpp:137-162 | and moves no entry |
| AvlTheorems.ShrinkUpAvl | algorithms/avlTree/src/AvlTreeNode.cpp:310-334 | the walk back up after a removal restores exact balance, whether or not a rotation stops it |
| AvlTheorems.ShrinkUpOrder | algorithms/avlTree/src/AvlTreeNode.cpp:310-334 | and moves no entry |
| AvlTheorems.SearchCorrect | algorithms/avlTree/src/AvlTreeNode.cpp:52-85 | following the comparisons finds the entry with the key exactly when the sorted list has it |
| AvlTheorems.InsertCorrect | algorithms/avlTree/src/AvlTreeNode.cpp:96-171 | insertion into a balanced, ordered tree gives one again, whose entries are those of the sorted insertion; a present key changes nothing |
| AvlTheorems.RemoveCorrect | algorithms/avlTree/src/AvlTreeNode.cpp:232-343 | removal through the in-order predecessor gives a balanced, ordered tree without just the entry of that key; an absent key changes nothing |
| AvlTheorems.ReplaceCorrect | algorithms/avlTree/src/AvlTreeNode.cpp:456-505 | replacement keeps balance and order and changes just the entry of the key |
| AvlTheorems.RunRefinesList | algorithms/avlTree/src/AvlTreeNode.cpp:96-171 | any run of insertions, removals and replacements from the empty tree, with fewer than 9,227,464 entries at each step, passes only through balanced, ordered trees that hold what the sorted list holds |
| AvlTheorems.StepRefinesList | algorithms/avlTree/src/AvlTreeNode.cpp:232-343 | one operation on such a tree is the same operation on the sorted list |
| AvlTheorems.FibonacciBound | algorithms/avlTree/inc/AvlTreeNode.h:45 | a balanced tree of height h has at least Fib(h+2)-1 nodes |
| AvlTheorems.SmallTreesFit | algorithms/avlTree/inc/AvlTreeNode.h:45 | with fewer than 9,227,464 nodes the height is below TREE_MAX_HEIGHT |
| AvlTheorems.LowTreesNeverFull | algorithms/avlTree/src/AvlTreeNode.cpp:54-82 | at height 32 or less no search meets a full stack and no removal leaves its stacks |
| AvlTheorems.SmallTreesNeverFull | algorithms/avlTree/src/AvlTreeNode.cpp:114-132 | the same for every tree of fewer than 9,227,464 nodes |
| AvlTheorems.ProbeIsShorter | algorithms/avlTree/src/AvlTreeNode.cpp:71-76 | there is a balanced, ordered tree and an absent key below 33 nodes: Insert(1) has room for it where Probe reports FULL |
| AvlTree.AvlTreeNode.Rotate | algorithms/avlTree/src/AvlTreeNode.cpp:607-686 | the pointer updates turn the linked subtree into the rotated one, in its slot, touching nothing else |
| AvlTree.FindSlot | algorithms/avlTree/src/AvlTreeNode.cpp:109-132 | the search of Insert(1) ends at the match, at a full stack or at the empty slot of the key, with the stacks holding the whole path |
| AvlTree.RebalanceGrown | algorithms/avlTree/src/AvlTreeNode.cpp:137-162 | popping the stacks reaches the rebalanced tree with at most one call of Rotate |
| AvlTree.Insert | algorithms/avlTree/src/AvlTreeNode.cpp:96-171 | Insert(1): the linked nodes are those of the inserted tree, exactly the new node is added, at most one Rotate is called |
| AvlTree.InsertAt | algorithms/avlTree/src/AvlTreeNode.cpp:173-230 | Insert(2) gives the same tree as Insert(1) unless the probe was full, again with at most one Rotate |
| AvlTree.ProbeThenInsert | algorithms/avlTree/src/AvlTreeNode.cpp:173-230 | probing and inserting by path is the direct insertion for every tree, but for an absent key below exactly 33 nodes, where nothing changes; never so at height 32 or less |
| AvlTree.RebalanceShrunk | algorithms/avlTree/src/AvlTreeNode.cpp:310-334 | popping the patched stacks reaches the rebalanced tree |
| AvlTree.SwapOut | algorithms/avlTree/src/AvlTreeNode.cpp:286-299 | the last node of the search takes the place, links and state of the target, and its own slot takes over its left child |
| AvlTree.ReplaceTarget | algorithms/avlTree/src/AvlTreeNode.cpp:286-308 | after the swap and the patch of one saved entry, the stacks hold the path to the hole in the new tree, which has all nodes but the target |
| AvlTree.PatchStack | algorithms/avlTree/src/AvlTreeNode.cpp:301-302 | rewriting the entry behind the target's makes the saved stacks those of the new path |
| AvlTree.Remove | algorithms/avlTree/src/AvlTreeNode.cpp:232-343 | Remove(1): the linked nodes are those of the tree without the match, which is handed back with its children cleared, or null |
| AvlTree.RemoveAt | algorithms/avlTree/src/AvlTreeNode.cpp:345-454 | Remove(2): the same from a probed path |
| AvlTree.ProbeThenRemove | algorithms/avlTree/src/AvlTreeNode.cpp:345-454 | probing and removing by path is the direct removal at height 32 or less |
| AvlTree.Probe | algorithms/avlTree/src/AvlTreeNode.cpp:37-94 | the kept stacks hold the path to the match or to the empty slot; FULL exactly when 33 nodes were passed |
| AvlTree.ProbePath.Access | algorithms/avlTree/src/AvlTreeNode.cpp:37-94 | after a successful probe the kept slot leads to the node with the key |
| AvlTree.ReplaceNode | algorithms/avlTree/src/AvlTreeNode.cpp:483-495 | the new node takes over place, links and state, and the old one is left detached and balanced |
| AvlTree.Replace | algorithms/avlTree/src/AvlTreeNode.cpp:456-505 | Replace(1): the match is exchanged for the given node and handed back; without a match the given node is handed back |
| AvlTree.ReplaceAt | algorithms/avlTree/src/AvlTreeNode.cpp:507-540 | Replace(2): the same from a probed path |
| AvlTraverse.InitTraverse | algorithms/avlTree/src/AvlTreeNode.cpp:551-569 | the stack holds the left spine and all entries are pending in order |
| AvlTraverse.Traverse | algorithms/avlTree/src/AvlTreeNode.cpp:571-605 | each call hands out the next pending entry in order, null when none is left |
| AvlTraverse.TraverseAll | algorithms/avlTree/src/AvlTreeNode.cpp:551-605 | repeated calls return every node once, in strictly increasing key order |
| TimerTrace.Conservation | platform/common/src/mxTimer.cpp.back:555-673 | no timer is lost, invented or fired twice |
| TimerTrace.NeverEarly | platform/common/src/mxTimer.cpp.back:572-670 | no timer fires before its tick, and callbacks are called at non-decreasing clock values |
| TimerTrace.FiresWhenDue | platform/common/src/mxTimer.cpp.back:572-670 | each timer fires at the later of its tick and the clock when it was set, as often as it was set, whatever late timers exist |
| TimerTrace.OnTimeInOrder | platform/common/src/mxTimer.cpp.back:572-670 | timers that fire on time fire in non-decreasing order of their ticks |
| TimerTrace.AllOnTime | platform/common/src/mxTimer.cpp.back:572-670 | when nothing is set late, every timer fires at its tick and all of them in tick order |
| TimerTrace.FiresExactlyTheDue | platform/common/src/mxTimer.cpp.back:555-673 | when the clock has passed T, what has fired is exactly what was pending or set with a tick up to T |
| TimerTrace.FirstSetFiresFirst | platform/common/src/mxTimer.cpp.back:513-514 | of two timers set one after the other for the same tick, while the clock shows the same, the first has fired, once, when the second fires |
| TimerTrace.AllInTurn | platform/common/src/mxTimer.cpp.back:513-514 | so every run is first in, first out among the timers that are set for one tick while the clock stands still, and none of them fires twice |
| TimerCalls.MsToTick | platform/common/src/mxTimer.cpp.back:226-236 | zero only for zero, otherwise the rounded-down number of ticks and at least one, while the product fits 32 bits of ticks |
| TimerCalls.RequestsInOrder | platform/common/src/mxTimer.cpp.back:242-318 | the requests of a sequence of calls are those of the calls, one after the other |
| TimerCalls.PerformedStep | platform/common/src/mxTimer.cpp.back:242-318 | one more call that does what it is asked for extends a sequence of calls that did |
| TimerWheel.ChosenSlotFits | platform/common/src/mxTimer.cpp.back:433-501 | the wheel and slot chosen from the distance are a place where the timer belongs, within 64 blocks of the wheel's next cascade |
| TimerWheel.PutKeeps | platform/common/src/mxTimer.cpp.back:433-515 | linking a timer there keeps the wheels consistent |
| TimerWheel.TakeKeeps | platform/common/src/mxTimer.cpp.back:147-174 | unlinking keeps them consistent |
| WheelMoves.SlotIsOneBlock | platform/common/src/mxTimer.cpp.back:526-552 | the timers in the slot that cascades all belong to the block that starts now |
| WheelMoves.CascadeOne | platform/common/src/mxTimer.cpp.back:537-542 | a cascaded timer lands in a strictly inner wheel, never in the slot being emptied, and none is lost |
| WheelMoves.CascadeEnds | platform/common/src/mxTimer.cpp.back:544-551 | emptying the head drops no timer, and the index goes on to the next block |
| WheelMoves.NoneOutside | platform/common/src/mxTimer.cpp.back:577-584 | the cascade loop stops just where no outer wheel starts a block |
| WheelMoves.TimerPlace | platform/common/src/mxTimer.cpp.back:433-501 | every pending timer is in the slot of its tick or block in one of the wheels |
| WheelMoves.NothingDue | platform/common/src/mxTimer.cpp.back:586-664 | once the current slot is empty, every pending timer lies ahead of the clock |
| WheelMoves.ClockAdvances | platform/common/src/mxTimer.cpp.back:665-670 | advancing the clock by one keeps every timer where it belongs |
| WheelMoves.RevisedStands | platform/common/src/mxTimer.cpp.back:320-346 | the indices set from the current tick stand right for the empty wheels |
| WheelMoves.CountersAddUp | platform/common/src/mxTimer.cpp.back:147-174 | the counters of the wheels add up to the number of pending timers |
| WheelOrder.RankedAdd | platform/common/src/mxTimer.cpp.back:513-514 | a new timer stands behind those set before it for the same tick at the same clock, and in the same wheel as they |
| WheelOrder.SlotMayFall | platform/common/src/mxTimer.cpp.back:526-542 | when a slot starts to cascade, nothing like one of its timers is in the inner slot that timer falls to |
| WheelOrder.EmptyingStep | platform/common/src/mxTimer.cpp.back:537-542 | every timer that cascades is put behind those like it, so a cascade keeps the order of setting |
| WheelOrder.RankedTicks | platform/common/src/mxTimer.cpp.back:665-670 | the order stays when the clock advances |
| WheelOrder.FirstIsOldest | platform/common/src/mxTimer.cpp.back:586-664 | the first timer of the current slot was set before every pending timer that is like it, in whichever wheel |
| WheelOrder.LaterOvertakes | platform/common/src/mxTimer.cpp.back:433-515 | of two timers for tick 300 the one set at clock 250 comes to stand in front of the one set at clock 1, so the order needs equal clocks |
| TimerManager.TimerMgr.constructor | platform/common/src/mxTimer.cpp.back:15-55 | all wheels have their slots, all empty |
| TimerManager.TimerMgr.ReviseBaseTick | platform/common/src/mxTimer.cpp.back:320-346 | sets a valid state; a tick that is a multiple of 256 is skipped |
| TimerManager.TimerMgr.InternalAdd | platform/common/src/mxTimer.cpp.back:433-515 | puts the timer last in the chosen slot, behind those already there, or discards it beyond 2^32-1 ticks and lowers the count |
| TimerManager.TimerMgr.ListDel | platform/common/src/mxTimer.cpp.back:147-174 | takes the first timer off and lowers the counter of the right wheel |
| TimerManager.TimerMgr.CascadeTimers | platform/common/src/mxTimer.cpp.back:526-552 | hands on every timer of the block in the order of setting, changes no outer wheel, empties the slot and moves the index on |
| TimerManager.TimerMgr.CascadeAll | platform/common/src/mxTimer.cpp.back:574-585 | cascades every wheel in which a block starts, and no other |
| TimerManager.TimerMgr.RunSlot | platform/common/src/mxTimer.cpp.back:586-664 | fires everything in the current slot, timers set meanwhile included; each callback sets its own batch before the next |
| TimerManager.TimerMgr.RunTick | platform/common/src/mxTimer.cpp.back:572-671 | one tick: cascade, fire, advance |
| TimerManager.TimerMgr.RunTimerList | platform/common/src/mxTimer.cpp.back:555-673 | running up to `now` is a run of the plain service: exactly the due timers fire, each at its time and first in, first out for one tick and setting clock, the callbacks called set exactly their batches, and the rest of the script is left |
| TimerManager.TimerMgr.SetTimer | platform/common/src/mxTimer.cpp.back:242-318 | sets one timer at msToTick(interval)+tick under the next id, or is refused when the count leaves no id and then lowers the count |
| TimerManager.TimerMgr.GetTmBlkNum | platform/common/src/mxTimer.cpp.back:517-524 | the reported number is the number of pending timers exactly when no request was ever refused |
| TimerManager.TimerMgr.Perform | platform/common/src/mxTimer.cpp.back:242-318 | any sequence of calls: each does what it asks for in the state left by those before, the whole log is a run of the plain service, every timer fires at its time, timers set for one tick at one clock fire in the order of setting, also across calls, and after a final run exactly the due ones have fired |
| JsonRoundTrip.PrintParse | test/test_cjson/cJSON.c:323-343 | parsing the formatted or unformatted text of a value gives the value and consumes the text |
| JsonRoundTrip.ValueRoundTrip | test/test_cjson/cJSON.c:357-403 | the same at any depth and before any text that does not continue a number |
| JsonRoundTrip.PrintInjective | test/test_cjson/cJSON.c:342-343 | different values have different texts |
| JsonSpaced.SpacedValue | test/test_cjson/cJSON.c:406-431 | the text of a value with any blanks between its tokens parses as the value and ends with its last token, whatever closes it |
| JsonSpaced.SpacedMembers | test/test_cjson/cJSON.c:520-547 | so for the members of an object: blanks before and after each name, colon, value, comma and brace |
| JsonSpaced.SpacedParse | test/test_cjson/cJSON.c:320-339 | any text of a value with blanks around and between its tokens parses as the value; with the check for the end it is consumed whole |
| JsonSpaced.TightPrint | test/test_cjson/cJSON.c:343-343 | the tokens with nothing between them are the unformatted text |
| JsonRoundTrip.PrintedVerbatim | test/test_cjson/cJSON.c:256-306 | a string is printed as it is between its quotes exactly when it holds no control character, quote or backslash |
| JsonRoundTrip.LeadingZero | test/test_cjson/cJSON.c:96-115 | one leading zero is read over, a second one ends the number |
| JsonRoundTrip.StringRoundTrip | test/test_cjson/cJSON.c:192-249 | parse_string recovers every NUL-free byte string from its printed form |
| JsonRoundTrip.NumberRoundTrip | test/test_cjson/cJSON.c:96-115 | parse_number recovers every 32-bit integer |
| JsonUnicode.Utf8Decodes | test/test_cjson/cJSON.c:229-237 | the bytes written for a scalar value decode to it by the syntax of section 4 of RFC 3629 |
| JsonUnicode.DecodesToOne | test/test_cjson/cJSON.c:229-237 | and no other bytes do |
| JsonUnicode.EscapeDecodes | test/test_cjson/cJSON.c:216-238 | every non-zero scalar value, as one escape or as a surrogate pair, is decoded to its UTF-8 bytes |
| JsonUnicode.LiteralDecodes | test/test_cjson/cJSON.c:203-243 | so it is inside a string literal |
| JsonUnicode.ShortEscapesDecode | test/test_cjson/cJSON.c:206-215 | each two-character escape of section 7 of RFC 8259 stands for its character |
| JsonUnicode.HexDigitValues | test/test_cjson/cJSON.c:177-189 | a hexadecimal digit has its value, small or capital |
| JsonUnicode.ParsedIsClean | test/test_cjson/cJSON.c:357-368 | whatever is parsed from a NUL-free text has NUL-free strings |
| JsonUnicode.ParsePrintParse | test/test_cjson/cJSON.c:323-343 | printing a parsed value and parsing it again gives the same value |
| JsonReader.TailByte | test/test_cjson/cJSON.c:232-234 | setting 0x80 and masking with 0xBF gives the six low bits under the mark 10; the shift by six leaves the rest |
| JsonReader.LeadByte | test/test_cjson/cJSON.c:235-235 | or with the first-byte mark puts the rest of the code point under it |
| JsonReader.PairBits | test/test_cjson/cJSON.c:226-226 | the shifts and masks join the twenty bits of a surrogate pair |
| JsonReader.SkipBlanks | test/test_cjson/cJSON.c:320-320 | stops at the first character above the blank |
| JsonReader.ReadNumber | test/test_cjson/cJSON.c:96-115 | the digit loop computes the parsed number and the position after it |
| JsonReader.CountString | test/test_cjson/cJSON.c:197-197 | the counting pass computes the length that is allocated |
| JsonReader.ScanStep | test/test_cjson/cJSON.c:197-243 | no character or escape decodes to more bytes than were counted for it |
| JsonReader.WriteUtf8 | test/test_cjson/cJSON.c:229-237 | writes the UTF-8 bytes behind what is decoded so far |
| JsonReader.ReadUnit | test/test_cjson/cJSON.c:216-238 | decodes an escape or a surrogate pair; invalid ones write nothing |
| JsonReader.DecodeString | test/test_cjson/cJSON.c:202-248 | the decoding pass yields the parsed string, within the allocated length |
| JsonReader.ReadString | test/test_cjson/cJSON.c:192-249 | both passes together are the parser of string literals |
| JsonReader.ReadValue | test/test_cjson/cJSON.c:357-368 | the dispatch on the first characters is the parser of values, position of the error included |
| JsonReader.ReadArray | test/test_cjson/cJSON.c:406-431 | the loop that links sibling items is the parser of arrays |
| JsonReader.ReadObject | test/test_cjson/cJSON.c:514-547 | the loop over names and values is the parser of objects, blanks between all tokens skipped (`SpacedMembers`) |
| JsonReader.Parse | test/test_cjson/cJSON.c:323-339 | parsing a text, with or without requiring its end; `SpacedParse` says what that gives for every spaced text |
| JsonLayout.TextAppend | test/test_cjson/cJSON.c:372-403 | what is printed for a value does not depend on what follows it |
| JsonPrinter.CountEscaped | test/test_cjson/cJSON.c:256-278 | the counted length is exactly that of the escaped string, and the flag is clear only if nothing needs escaping |
| JsonPrinter.FillString | test/test_cjson/cJSON.c:262-306 | both filling loops write the quoted string and stay within the counted room |
| JsonPrinter.PrintStringPtr | test/test_cjson/cJSON.c:252-307 | the string printer gives the quoted string |
| JsonPrinter.PrintNumber | test/test_cjson/cJSON.c:147-175 | the number printer gives the decimal text, within the 21 characters it allocates |
| JsonPrinter.PrintValue | test/test_cjson/cJSON.c:372-403 | the sized-allocation printer gives the text of the value |
| JsonPrinter.JoinFits | test/test_cjson/cJSON.c:475-508 | the length added up for an array covers everything copied |
| JsonPrinter.MembersFit | test/test_cjson/cJSON.c:618-655 | and so for an object |
| JsonPrinter.ComposeArray | test/test_cjson/cJSON.c:498-508 | copying the items into the block writes the text of the array and stays in the block |
| JsonPrinter.ComposeObject | test/test_cjson/cJSON.c:640-655 | copying names and entries into the block writes the text of the object and stays in the block |
| JsonPrinter.PrintArray | test/test_cjson/cJSON.c:434-511 | the whole array printer |
| JsonPrinter.PrintObject | test/test_cjson/cJSON.c:550-658 | the whole object printer |
| JsonPrinter.PrintFormatted | test/test_cjson/cJSON.c:342-342 | cJSON_Print gives the formatted text |
| JsonPrinter.PrintPlain | test/test_cjson/cJSON.c:343-343 | cJSON_PrintUnformatted gives the unformatted text |
| JsonGrowth.GrowsToPower | test/test_cjson/cJSON.c:117-117 | pow2gt is the least power of two that is not smaller, up to 2^30 |
| JsonBuffer.TextTerminates | test/test_cjson/cJSON.c:138-144 | no printed text holds a NUL, so update finds its end |
| JsonBuffer.PrintBuffer.Ensure | test/test_cjson/cJSON.c:121-136 | makes room and keeps what is in the buffer |
| JsonBuffer.PrintBuffer.Update | test/test_cjson/cJSON.c:138-144 | gives the offset of the end of what was printed |
| JsonBuffer.PrintBuffer.PrintValue | test/test_cjson/cJSON.c:372-403 | puts the text of the value at the offset, every write within the ensured room; the returned pointer is its start, but for a formatted object with members, where it is the depth |
| JsonBuffer.PrintBuffer.PrintArray | test/test_cjson/cJSON.c:453-468 | the same for arrays |
| JsonBuffer.PrintBuffer.PrintObject | test/test_cjson/cJSON.c:570-607 | the same for objects, with the index that the closing loop overwrites |
| JsonBuffer.PrintBuffered | test/test_cjson/cJSON.c:345-353 | buffered printing gives the same text as the allocating printer for every positive initial size |
| JsonMinify.MinifiedText | test/test_cjson/cJSON.c:735-749 | minifying a printed value, in either format and at any depth, leaves its unformatted text |
| JsonMinify.MinifiedPrint | test/test_cjson/cJSON.c:735-749 | minifying what cJSON_Print gives is what cJSON_PrintUnformatted gives |
| JsonComments.BlanksGo | test/test_cjson/cJSON.c:740-743 | a blank of any of the four kinds is dropped, whatever follows |
| JsonComments.LineCommentGoes | test/test_cjson/cJSON.c:744-744 | a comment from two slashes to the end of its line is dropped with the line break and nothing else, and so is one at the end of the text |
| JsonComments.BlockCommentGoes | test/test_cjson/cJSON.c:745-745 | a comment between slash-star and the first star-slash is dropped, whatever follows |
| JsonComments.MinifiedSpacedText | test/test_cjson/cJSON.c:735-749 | with any blanks and comments before, between and behind its tokens, the text of a value minifies to its unformatted text |
| JsonMinify.CopyLiteral | test/test_cjson/cJSON.c:746-746 | the copying loop moves a string literal down unchanged, escaped quotes included |
| JsonMinify.Minify | test/test_cjson/cJSON.c:735-749 | the in-place loop leaves the minified text with its terminator, never writing past where it reads; `MinifiedSpacedText` says what that is for texts with blanks and comments |
| Bits.AndMask | platform/common/src/mxHashTable.cpp:110-116 | masking with 2^k-1 is the remainder modulo 2^k |
| Bits.PowerTestIsExact | platform/common/src/mxHashTable.cpp:110-116 | n & (n-1) is zero exactly for the powers of two |
| HashIndex.MaskIsEuclidean | platform/common/src/mxHashTable.cpp:618-711 | for a power of two the mask gives the same bin as the remainder, for negative numbers too |
| HashIndex.TruncatedIsEuclidean | platform/common/src/mxHashTable.cpp:618-711 | the truncated remainder with the correction for negative values is the same bin |
| HashIndex.FindBinIndex | platform/common/src/mxHashTable.cpp:618-711 | every accepted key gets its bin, in range, on either path; other keys get -1 |
| HashIndex.MatchesExactly | platform/common/src/mxHashTable.cpp:61-97 | two keys match exactly when they are equal and proper: every number and pair, every string but the empty one, every pointer but null |
| HashEntries.LookupInBin | platform/common/src/mxHashTable.cpp:400-426 | looking in the key's own bin is looking everywhere |
| HashEntries.WithoutInBin | platform/common/src/mxHashTable.cpp:236-275 | removing the first match changes only its own bin |
| HashEntries.QueueOfInsert | platform/common/src/mxHashTable.cpp:128-172 | insertion appends to the queue of its key |
| HashEntries.QueueOfRemove | platform/common/src/mxHashTable.cpp:236-275 | find and remove take the oldest of the key, and removal leaves the other keys alone |
| HashEntries.RunIsMap | platform/common/src/mxHashTable.cpp:155-172 | without duplicates, any run of operations on proper keys holds what a map holds after it |
| HashEntries.RunIsQueue | platform/common/src/mxHashTable.cpp:155-172 | with duplicates, any run of operations on proper keys keeps one queue per key |
| HashTable.LinkLast | platform/common/src/mxHashTable.cpp:132-138 | the four pointer writes make a cycle with the new element last |
| HashTable.Unlink | platform/common/src/mxHashTable.cpp:49-59 | the destructor leaves a cycle of the others |
| HashTable.MxHashTable.constructor | platform/common/src/mxHashTable.cpp:99-116 | an empty table whose mask is set just for powers of two |
| HashTable.MxHashTable.Search | platform/common/src/mxHashTable.cpp:405-425 | walking the cycle finds the first match of the bin, or none |
| HashTable.MxHashTable.Find | platform/common/src/mxHashTable.cpp:400-426 | finds the oldest entry of the key, with its flag |
| HashTable.MxHashTable.InsertThenFind | platform/common/src/mxHashTable.cpp:155-172 | for every kind of table and key: a find after an insertion finds the key exactly when the table takes keys of its kind and the key is proper, and returns the data that was inserted first |
| HashTable.MxHashTable.InsertToBin | platform/common/src/mxHashTable.cpp:128-152 | appends the element to its bin and counts it |
| HashTable.MxHashTable.Insert | platform/common/src/mxHashTable.cpp:155-172 | appends the entry, unless the key is of another kind or is there already and duplicates are off |
| HashTable.MxHashTable.Remove | platform/common/src/mxHashTable.cpp:236-275 | takes the oldest entry of the key out and returns its data; nothing changes without one |
| HashTable.MxHashTable.Size | platform/common/src/mxHashTable.cpp:128-152 | the count is the number of entries |
| MiniTimer.MillisClose | platform/common/src/mxMiniTimer.cpp:155-158 | the truncated difference is within a millisecond of the real one and antisymmetric |
| MiniTimer.DiffIsCut | platform/common/src/mxMiniTimer.cpp:155-158 | the returned difference is the untruncated number of milliseconds exactly when it fits 32 bits |
| MiniTimer.OrderTurns | platform/common/src/mxMiniTimer.cpp:155-158 | a time 2,147,484 seconds later counts as earlier |
| MiniTimer.LaterTransitive | platform/common/src/mxMiniTimer.cpp:155-158 | being later by a millisecond is transitive |
| MiniTimer.InsertSorted | platform/common/src/mxMiniTimer.cpp:170-182 | inserting before the first later timer keeps every pair of the list in order |
| MiniTimer.HeadDecides | platform/common/src/mxMiniTimer.cpp:75-76 | when the head is not due no timer is, and the head is within a millisecond of the earliest |
| MiniTimer.EarlyByLess | platform/common/src/mxMiniTimer.cpp:75-78 | a timer that is popped is less than a millisecond early |
| MiniTimer.DeadlineExact | platform/common/src/mxMiniTimer.cpp:231-240 | the computed deadline is exactly the interval after the clock |
| MiniTimer.DueWhenSet | platform/common/src/mxMiniTimer.cpp:231-240 | a new timer counts as due at once exactly when its interval is zero or above 2^31 ms |
| MiniTimer.WaitFor | platform/common/src/mxMiniTimer.cpp:81-95 | the time to wait is what is left, and at least a millisecond |
| MiniTimer.MiniTimerList.AddToTimerList | platform/common/src/mxMiniTimer.cpp:160-188 | inserts before the first later timer, keeps the order, and wakes the thread only for an empty list |
| MiniTimer.MiniTimerList.AddTimer | platform/common/src/mxMiniTimer.cpp:220-258 | sets exactly one timer with its deadline |
| MiniTimer.MiniTimerList.ProcessTimeout | platform/common/src/mxMiniTimer.cpp:56-103 | fires only timers less than a millisecond early, in the order of the list when no callback sets one, leaves none overdue, loses none, and waits no longer than a millisecond past the earliest deadline |
| Base64.DigitRoundTrip | platform/common/src/chunk.cpp:28-50 | every digit of sections 4 and 5 of RFC 4648 has its value |
| Base64.OnlyDigits | platform/common/src/chunk.cpp:28-50 | every other character but the padding is marked as no digit |
| Base64.GroupRoundTrip | platform/common/src/chunk.cpp:73-75 | the shifts of four digits give back the three bytes |
| Base64.LengthOfEncoding | platform/common/src/chunk.cpp:63-71 | the counted length of a padded encoding is the number of bytes |
| Base64.GroupsOfEncoding | platform/common/src/chunk.cpp:64-76 | the decoded groups start with the bytes |
| Base64.FromBase64 | platform/common/src/chunk.cpp:53-79 | the nested loops decode every whole group and count the length, within the buffer |
| Base64.EncodingDecodes | platform/common/src/chunk.cpp:53-79 | decoding the padded encoding of any bytes returns those bytes and that length |
| Asn1Length.ShortFormAccepted | library/encoder/src/asn1Parser.cpp:195-241 | lengths in the short form of section 8.1.3 of ITU-T X.690 are accepted as they are |
| Asn1Length.LongFormAccepted | library/encoder/src/asn1Parser.cpp:195-241 | and so are long forms of up to four octets, minimal or not |
| Asn1Length.ReadLength | library/encoder/src/asn1Parser.cpp:195-241 | gives the length and moves behind the header exactly when the contents are there and the length is below 2^31 |
| Asn1Length.IsAsn1Encode | library/encoder/src/asn1Parser.cpp:249-278 | true exactly for one sequence, set or octet string that fills the blob, a final newline allowed |
| Asn1Parser.Parser.constructor | library/encoder/src/asn1Parser.cpp:14-26 | one window on the whole blob, none inside, no loop and no choice noted |
| Asn1Parser.Parser.Scan | library/encoder/src/asn1Parser.cpp:97-102 | stops at the first marker of the level |
| Asn1Parser.Parser.Consume | library/encoder/src/asn1Parser.cpp:83-185 | one line: a missing default or option is skipped, otherwise exactly one object is taken, if it is well formed and has the right tag; a loop with contents is noted with the line after it, a choice is noted as open |
| Asn1Parser.Parser.Enter | library/encoder/src/asn1Parser.cpp:128-185 | the tag and choice checks, what is handed out (the object, its contents or nothing), and what is noted of loops and choices |
| Asn1Parser.Parser.Iterate | library/encoder/src/asn1Parser.cpp:33-193 | which line is handled, when it fails, what is handed out, where the parser stands and what it has noted of loops and choices; end markers leave a loop, close a choice or fail on one that was not made; windows move their start and never their end |
| Asn1Parser.Parser.Leave | library/encoder/src/asn1Parser.cpp:56-80 | an end marker clears its loop; the end of all choices fails when none was made; the end of one choice goes on to the end of all |
| Asn1Parser.Parser.TakeSequenceOf | library/encoder/src/asn1Parser.cpp:52-54 | over a loop line, an element line and an end marker, a client is handed the contents of every element of the concatenation, in order, for any number of elements |
| Asn1Parser.ReadSequenceOf | library/encoder/src/asn1Parser.cpp:33-193 | a whole SEQUENCE OF or SET OF, from the constructor to the exit line, gives exactly the contents of its elements |
| Asn1Parser.ShortIsWhole | library/encoder/src/asn1Parser.cpp:195-216 | an object with its length in the short form is whole and has these contents |
| Asn1Parser.LongIsWhole | library/encoder/src/asn1Parser.cpp:218-240 | and so is one with its length in the long form |
| Asn1Choice.NextInChoice | library/encoder/src/asn1Parser.cpp:56-80 | inside a choice each call skips an alternative, hands one out, or leaves for the end of all |
| Asn1Choice.ReadChoice | library/encoder/src/asn1Parser.cpp:101-112 | for any number of alternatives a CHOICE succeeds exactly when one has the tag of the object, and hands out its contents for the first such alternative only |
| Asn1Parser.Parser.Walk | library/encoder/src/asn1Parser.cpp:33-193 | over any number of calls everything handed out lies in the original blob |

## Left out

- AvlTree.Probe: the kept path is not updated by the operation that uses it, while the source writes into its stacks; a path is used once.
- AvlTree.Remove: requires that the search fits the stacks (`RemovalFits`, true at height 32 or less). The source writes the entry after the target's even when nothing was pushed there, and has no check; a deeper tree would leave the arrays.
- AvlTree.Insert: the inserted node must be detached and balanced, since the source does not initialise it; a removed node keeps its state and is therefore not covered.
- AVL tree: keys are integers; `GetPolarNode` and the compiled-out integrity checks, which would only add easy members.
- TimerManager.TimerMgr.ReviseBaseTick: requires empty wheels; a restart of the timer thread with timers pending is not modelled.
- TimerManager.TimerMgr.InternalAdd: the discarding branch locks its mutex again in the source; here it only counts.
- Timing wheel: cancelling by id, the retry code, the thread and its waiting, and ticks of 2^63 and more. The lists of a slot are sequences, so the intrusive pointers are not captured. The count of active timers is wrapped to 32 bits where it is read. Timers set by callbacks go straight to the wheel, without the refusal of `setTimer`.
- JsonParse: fractions, exponents, numbers outside 32 bits and escapes that are cut short or malformed are one outcome, `Outside`, about which nothing is stated.
- JsonReader: items are values; the sibling links are modelled as the order of the items, and the operations that relink, duplicate or delete them are not modelled, nor are case-insensitive lookup, allocator hooks and failing allocations.
- JsonPrinter: lengths are unbounded, so the overflow of the source's 32-bit sums is not captured; `sprintf` is taken to write decimal digits.
- JsonBuffer.PrintBuffered: requires a text of at most 2^30-20 characters, since `pow2gt` overflows beyond.
- JsonMinify.Minify: requires that comments and literals are closed; the source reads past the end otherwise. As in the source, `/*/` counts as a closed comment.
- TimerTrace.FirstSetFiresFirst: says nothing about timers for one tick that were set at different clocks; they may be in different wheels, and then the one that was set later can stand in front (`WheelOrder.LaterOvertakes`).
- HashTable: `clear`, which destroys some elements twice, the side list of all data, keys of mixed kinds in one bin, and tables of no bins or of 2^31 and more. The overloads are one method over a datatype of keys. An empty string and a null pointer match nothing, as in the source; the refinement of a map is stated for the other keys.
- MiniTimer.MiniTimerList.ProcessTimeout: the order and "none is overdue" are stated for times within 2^31-2 ms of each other; beyond, the 32-bit difference wraps (`DiffIsCut`, `DueWhenSet`). Each callback sets one batch of a finite script; the thread, the pipe and `select` are not modelled.
- Base64.FromBase64: the buffer is given; the allocation when none is given is not modelled.
- Asn1Parser.Parser.Iterate: nothing is stated about the windows after a failure; logging levels are left out.
- Not modelled at all: the networking, IPC, logging, credential and database code, and the SOME/IP application, which would add only easy members or wrap external libraries.
