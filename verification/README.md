# Verified models of the Volvox compiler and its runtime

Volvox is a compiled language; its compiler lowers programs to LLVM code, and a small C runtime stands beside it. This
project models the parts of both that carry the most state and branching, and proves what they are for.

* **The runtime map** (`clib/map.cc`): linked nodes with parents and balance factors, on the heap, with the rotations
  and both rebalancing loops as they are written (`Trees`, `Keys`, `NodeWord`, `MapNodes`, `MapRotations`,
  `MapRepair`, `MapInsert`, `MapDelete`, `MapOrder`, `AvlMap`, `MapIter`, `MapAudit`, `MapRuns`). A ghost tree, or a
  tree with a hole (`Ctx`), says what the heap is to hold; every pointer write is described on snapshots of the heap.
* **Control-flow lowering** (`src/codegen.cc`): a structured language with its meaning (`CfgSource`), a machine on
  basic blocks (`CfgMachine`), the generator as a class that emits into a graph (`CfgBuild`, `CfgAssembly`,
  `CfgBuilder`), the relation between statement and blocks (`CfgLayout`), the proof that both agree in both directions
  (`CfgSimulation`, `CfgEntries`, `CfgCorrect`), and what multi-level breaks and constant conditions do (`CfgBreaks`,
  `CfgLaws`). The integer `for` range and the bit arithmetic stand beside it (`Words`, `IntegerOps`, `IntegerRanges`).
* **Protocols**: the reference-counted control block of a thread (`ThreadProtocol`) and emulated thread-local storage
  (`EmulatedTls`), as interleaved steps of any number of threads.
* **Strings**: layout by subtract and mask, growth, and the operations on byte arrays (`StringLayout`,
  `VolvoxStrings`), and the coding of characters (`Utf8`; section 3 of RFC 3629, except that surrogates are accepted).
* **Compact algorithms**: storage of tensor literals (`Tensors`), overload resolution (`Overloads`), and mangled names
  as a uniquely decodable code (`Decimals`, `TypeNames`, `TypeReading`, `Mangler`; the grammar extends section 5.1 of
  the Itanium C++ ABI).

`Bits` and `Options` are shared. `dafny verify dfyconfig.toml` checks everything.

Where the code does not do what its comments or its purpose suggest, the model follows the code, and the failure is
stated with its exact condition: keys with negative characters (`Keys.WalkAntisymmetricIff`), exact quotients and zero
remainders of floored division (`IntegerOps.DivIsFloor`, `IntegerOps.ModIsFloored`), orderings with untyped negative
literals (`IntegerOps.CompareNumbers`), equality of operands of different signedness (`IntegerOps.EqualPatterns`),
overlong or too large characters (`Utf8.Canonical`), alignments of 3, 5, 6 and 7 for thread-local objects
(`EmulatedTls.AlignmentIff`), and a string that is appended to itself (`VolvoxStrings.AddAssignSelf`).

The protocol of a thread's control block demands that its owner waits before it releases;
`ThreadProtocol.SafeIffWaits` says so for a release that the compiler does not emit today.

## Model

| member | source | states |
|---|---|---|
| `Keys.CompareText` | clib/map.cc:282-297 | The comparison loop over two C strings, terminators included, decides at the first difference. |
| `Keys.OrderMeans` | clib/map.cc:282-317 | The order of keys: numbers by size, texts by the first character that differs, the shorter first if there is none. |
| `Keys.WalkIsLexicographic` | clib/map.cc:282-297 | On characters 1..127 the loop goes left, right or stops exactly as the usual definition of lexicographic order says. |
| `Keys.WalkAntisymmetricIff` | clib/map.cc:282-297 | With signed characters two keys are placed consistently if and only if neither goes on with a negative character where the other ends. |
| `Keys.NegativeCharacterBreaksOrder` | clib/map.cc:282-297 | The concrete failure: of "a" and "a\x80" each is sought to the right of the other. |
| `Trees.SizeAtLeastFib` | clib/map.cc:693-725 | Every balanced tree of height h holds at least Fib(h + 2) - 1 keys. |
| `Trees.PathLogarithmic` | clib/map.cc:274-306 | A search path of k nodes needs a tree of at least 2^(k/2) - 1 keys. |
| `NodeWord.PartsAreApart` | clib/map.cc:21-22 | Parent and balance factor share a word: each can be written without changing the other and reads back as written, for addresses that are multiples of four. |
| `MapRotations.RotLeft` | clib/map.cc:92-114 | Left rotation: exactly which words of the heap change, and both new balance factors for a child that was even or leant right. |
| `MapRotations.RotRight` | clib/map.cc:116-138 | The mirror image. |
| `MapRotations.RotRightLeft` | clib/map.cc:140-177 | Double rotation: the grandchild is lifted, all moved subtrees get their parents, and three exact balance factors. |
| `MapRotations.RotLeftRight` | clib/map.cc:179-216 | The mirror image. |
| `MapRepair.RotLeftRepairs` | clib/map.cc:92-114 | After a left rotation the subtree is well-formed, has the same nodes in the same order, and is balanced. |
| `MapRepair.RotRightLeftRepairs` | clib/map.cc:140-177 | The same for the double rotation. |
| `MapRepair.Lift` | clib/map.cc:230-254 | The rotation that insertion chooses repairs an overgrown node. |
| `MapDelete.LiftSibling` | clib/map.cc:599-634 | The rotation that deletion chooses, and whether it gives the old height back (exactly when the sibling was even). |
| `AvlMap.Map.GrowWalk` | clib/map.cc:223-271 | The upward loop of insertion ends with exact balance factors everywhere after at most one rotation. |
| `AvlMap.Map.InsertPriv` | clib/map.cc:218-272 | The new node stands in its place of the order, all links and balance factors are exact, and at most one single or double rotation was made. |
| `AvlMap.Map.ShrinkWalk` | clib/map.cc:591-647 | The upward loop of deletion, with its side flags and its early exit, re-establishes the exact balance factors from any hole. |
| `AvlMap.Map.TakeChild` | clib/map.cc:506-532 | Deleting a node with at most one child: where the child goes and where the level was lost. |
| `AvlMap.Map.TakePredecessor` | clib/map.cc:534-559 | Deleting a node with two children that does not lean right: near and distant predecessor. |
| `AvlMap.Map.TakeSuccessor` | clib/map.cc:560-586 | The same with the successor. |
| `AvlMap.Map.DeletePriv` | clib/map.cc:498-652 | For any node of any well-formed tree the rest is well-formed and has lost only that node, in order. |
| `AvlMap.Map.Find` | clib/map.cc:274-306 | The search ends at the node with the key, or at the empty slot where it belongs and the key is nowhere; it inspects no more nodes than the height, hence logarithmically many. |
| `AvlMap.Map.Get` | clib/map.cc:775-778 | Lookup in the finite map that the tree stands for. |
| `AvlMap.Map.Insert` | clib/map.cc:355-386 | Not replacing: an absent key is added and nothing else; for a key that is there the tree is unchanged and the existing node is returned. |
| `AvlMap.Map.Delete` | clib/map.cc:654-657 | The key and only the key disappears; a missing key changes nothing. |
| `MapRuns.Perform` | clib/map.cc:355-386 | One operation on the linked tree gives the answer and the new contents of a plain finite map. |
| `MapRuns.Run` | clib/map.cc:274-306 | After any run of inserts, deletes and lookups from the empty map all answers are those of a plain finite map. |
| `MapIter.Min` | clib/map.cc:727-734 | The first node of the order, null for the empty map. |
| `MapIter.Max` | clib/map.cc:736-743 | The last node of the order. |
| `MapIter.IterUp` | clib/map.cc:745-758 | The next node of the order, null behind the last; the climb through the parents terminates. |
| `MapIter.IterDown` | clib/map.cc:760-773 | The previous node of the order, null before the first. |
| `MapIter.Ascending` | clib/map.cc:727-758 | From `Min` by `iter_up` to null every node is met exactly once, in order: numbers rise, and of two texts the one that is smaller at the first difference comes first. |
| `MapIter.Descending` | clib/map.cc:736-773 | From `Max` by `iter_down` to null every node is met exactly once, in reverse order: numbers fall, and of two texts the one that is smaller at the first difference comes last. |
| `MapIter.StepAndBack` | clib/map.cc:745-773 | The two steps undo each other inside the map. |
| `MapRuns.Upwards` | clib/map.cc:727-758 | Going through a map upwards lists exactly its entries: numbers strictly from the least to the greatest, texts by their first difference. |
| `MapRuns.Downwards` | clib/map.cc:736-773 | Going downwards lists them strictly from the greatest to the least. |
| `MapAudit.CheckDepth` | clib/map.cc:693-725 | Returns the height of any tree and reports nothing if and only if parents, child orders and balance factors are all right. |
| `MapAudit.CheckWellFormed` | clib/map.cc:693-725 | On every well-formed sorted map nothing is reported. |
| `CfgBuilder.Builder.EmitCond` | src/codegen.cc:2719-2777 | A condition with lazy operators is emitted, or folded if constant, so that the graph holds it from where it started. |
| `CfgBuilder.Builder.EmitPair` | src/codegen.cc:2729-2776 | Lazy `&&`, `\|\|`: right side in its own block, phi at the join. |
| `CfgBuilder.Builder.EmitIf` | src/codegen.cc:3874-3907 | `if`/`else`; with a constant condition the other branch is not emitted and the graph still holds the statement. |
| `CfgBuilder.Builder.EmitWhile` | src/codegen.cc:3806-3956 | `while`/`else` with the switch on "first run or condition" and the blocks that save and restore the stack pointer. |
| `CfgBuilder.Builder.EmitRepeat` | src/codegen.cc:3848-3956 | `repeat`/`until` with its stack blocks. |
| `CfgBuilder.Builder.EmitFor` | src/codegen.cc:3063-3077 | `for`/`else` on ranges: first test, body, second test, step, stack restore. |
| `CfgBuilder.Builder.EmitBrk` | src/codegen.cc:3096-3110 | A conditional break of any depth jumps to the block that the depth selects on the stack of merge points. |
| `CfgBuilder.Builder.EmitStmt` | src/codegen.cc:3761-4170 | Every statement is laid out in the graph between where it starts and where the builder goes on; the stack of merge points is as before. |
| `CfgSimulation.CondSim` | src/codegen.cc:2719-2777 | Running the code of a condition ends where its value is known, with the effects of the lazy evaluation and no others. |
| `CfgSimulation.IfSim` | src/codegen.cc:3874-3907 | The blocks of `if` do what the statement means, breaks out of its branches included. |
| `CfgSimulation.WhileSim` | src/codegen.cc:3806-3956 | The same for `while`: the `else` part runs only if the first test fails, and every iteration starts with the stack pointer saved before the first. |
| `CfgSimulation.RepeatSim` | src/codegen.cc:4058-4091 | The same for `repeat`. |
| `CfgSimulation.ForSim` | src/codegen.cc:3063-3077 | The same for `for`. |
| `CfgSimulation.BranchSim` | src/codegen.cc:3015-3122 | A row of parts with breaks runs up to the break that is taken, or to its end. |
| `CfgSimulation.StmtSim` | src/codegen.cc:3761-4170 | Every emitted statement runs like its meaning: to its end, to the merge block of the loop that a break leaves, or on for as long as the meaning does. |
| `CfgCorrect.Lower` | src/codegen.cc:3761-4170 | Every program whose breaks stay within their nesting is lowered to a graph that holds it. |
| `CfgCorrect.Terminates` | src/codegen.cc:3761-4170 | If the program ends, the machine reaches the open end of the lowered graph, in the same state. |
| `CfgCorrect.Stops` | src/codegen.cc:3761-4170 | Wherever the machine stops it is at an open end and the program ends in that state: no run faults, and a program that diverges has a lowering that does. |
| `CfgCorrect.EndsAlike` | src/codegen.cc:3015-3122 | The machine reaches the end in a state if and only if the program ends in it. |
| `CfgBreaks.BreakLeavesAll` | src/codegen.cc:3096-3110 | A `brk` that counts all constructs around it, of any kinds and in any iteration: execution goes on behind the outermost in the state at the `brk`, and nothing behind an inner one runs. |
| `CfgBreaks.BreakLeaves` | src/codegen.cc:3096-3110 | A `brk` of smaller depth: exactly the tails outside its level run, one after the other. |
| `CfgBreaks.BreakGoesOn` | src/codegen.cc:3096-3110 | What comes right behind the construct that is left decides how the branch around it ends, if that is a loop that goes on, too. |
| `CfgBreaks.CompiledBreak` | src/codegen.cc:3096-3110 | The emitted blocks of such a nest stop, and only in the state behind the last tail. |
| `CfgLaws.IfConst` | src/codegen.cc:3874-3907 | `if true` ends as its first branch and `if false` as its `else` part, with one level less to leave for a `brk`. |
| `CfgLaws.CompiledIfConst` | src/codegen.cc:3874-3907 | The emitted blocks end as the selected branch does. |
| `CfgLaws.LazyOperators` | src/codegen.cc:2719-2777 | `false && r` and `true \|\| r` are decided without `r`; `true && r` and `false \|\| r` are `r`. |
| `CfgLaws.LoopsNever` | src/codegen.cc:3806-3956 | `while false` is its `else` part, and `repeat` until `true` is its body, once. |
| `CfgLaws.LoopsEver` | src/codegen.cc:3806-3956 | `while true` and `repeat` until `false` end only by a `brk`. |
| `CfgLaws.LoopEndsTested` | src/codegen.cc:3806-3956 | Behind a `while` that was entered the condition has just failed, and behind a `repeat` it has just held, unless a `brk` was taken. |
| `CfgEntries.WhileEntries` | src/codegen.cc:3902-3956 | The machine enters the body of `while` for every iteration of the program, in the state of that iteration and with the stack pointer saved before the first. |
| `CfgEntries.RepeatEntries` | src/codegen.cc:3848-3956 | The same for `repeat`. |
| `CfgEntries.ForEntries` | src/codegen.cc:3910-3942 | The same for `for`. |
| `IntegerRanges.NumbersAt` | src/codegen.cc:3382-3403 | The numbers of a range are lo..hi, once each, in order (or reversed), each with a pattern of its own; the first is the initializer and the last the limit, which a descending loop swaps. |
| `IntegerRanges.CountsOn` | src/codegen.cc:3653-3747 | Start test, end test and step are those of the numbers; as long as the end test holds the step does not wrap, at any width and in either signedness. |
| `IntegerRanges.LoopCounts` | src/codegen.cc:3704-3747 | From any number on, and for any body, the loop counts on from whatever the control variable holds behind the body. |
| `IntegerRanges.RangeLoop` | src/codegen.cc:3063-3077 | The whole `for`, for any body: counting from one bound to the other without wrapping, also up to the last number of the type; the `else` part exactly when lo > hi. |
| `IntegerRanges.RangeVisits` | src/codegen.cc:3063-3077 | A body that leaves the control variable alone runs for exactly the numbers lo..hi. |
| `IntegerRanges.RangeLeavesAlone` | src/codegen.cc:3596-3602 | Every variable other than the control variable that body and `else` part leave alone is behind the loop as before it, however the loop ends. |
| `IntegerRanges.IterationsStoreControl` | src/codegen.cc:3742-3748 | For every body: from the end of one iteration to the start of the next, and from the loop's start to its first, only the control variable is stored to. |
| `IntegerRanges.CompiledLeavesAlone` | src/codegen.cc:3596-3748 | Wherever the emitted blocks of the loop stop, such a variable is as before. |
| `IntegerRanges.CompiledRange` | src/codegen.cc:4162 | The blocks emitted for a range loop end as the range loop does, through the body or through the `else` part. |
| `IntegerRanges.CompiledRangeEnds` | src/codegen.cc:4162 | If the body always ends normally the emitted blocks end, having run it for every number. |
| `Words.XorSign` | src/codegen.cc:2664 | The sign bit of an exclusive or tells different signs, at any width. |
| `Words.SignMask` | src/codegen.cc:2665 | Shifting the sign bit through gives all ones or all zeros. |
| `IntegerOps.DivIsFloor` | src/codegen.cc:2660-2668 | The emitted quotient is the floor if and only if not (the signs differ and the division is exact); then it is one less, cut to the width. |
| `IntegerOps.ModIsFloored` | src/codegen.cc:2685-2697 | The emitted remainder is that of floored division if and only if not (it should be zero and the divisor is negative); then it is the divisor. |
| `IntegerOps.ExactQuotient` | src/codegen.cc:2660-2668 | A failing input: -4 / 2 is -3. |
| `IntegerOps.LeastQuotient` | src/codegen.cc:2660-2668 | Another one, where the result wraps: in eight bits -128 / 1 is 127. |
| `IntegerOps.ExactRemainder` | src/codegen.cc:2685-2697 | A failing input: the remainder of 4 and -2 is -2. |
| `IntegerOps.DivisionLaw` | src/codegen.cc:2660-2697 | Inexact divisions satisfy L = qR + r with abs r < abs R and the sign of R. |
| `IntegerOps.CompareNumbers` | src/codegen.cc:2856-2989 | All four orderings compare the numbers that the operands stand for, whatever the mix of signedness, if and only if no negative untyped literal stands beside an unsigned operand whose pattern is not above it (per operator: strictly or not). |
| `IntegerOps.MinusOneNotBelowThree` | src/codegen.cc:2474-2475 | A failing input: `-1 < 3U` is false, while with a typed -1 it is true. |
| `IntegerOps.EqualPatterns` | src/codegen.cc:2843-2847 | `==` compares patterns: equality of the numbers if and only if not (different signedness and one pattern with the top bit set). |
| `IntegerOps.MinusOneEqualsLast` | src/codegen.cc:2843-2847 | A failing input: -1 and 255 in eight bits. |
| `ThreadProtocol.RunKeeps` | src/threads.cc:264-294 | In every interleaving of any number of threads nobody touches a control block that was freed or a descriptor that was closed. |
| `ThreadProtocol.EveryRun` | src/threads.cc:188-192 | At every point of every run the counter is the number of holders minus one, the block is freed at most once, and the owner holds the value that the thread stored. |
| `ThreadProtocol.Progress` | clib/threads_c.c:89-124 | No deadlock: a handle is finished exactly if neither its owner nor its thread can move. |
| `ThreadProtocol.MovesBounded` | clib/threads_c.c:102-117 | No livelock: the polling loop cannot go round in circles. |
| `ThreadProtocol.HandleEnds` | src/threads.cc:296-317 | When all is done `wait` gave what the thread function returned; a released block is freed exactly once, one that is only waited for stays with a counter of zero. |
| `ThreadProtocol.SafeIffWaits` | src/threads.cc:264-294 | Releasing is safe in every run if and only if it follows a wait. |
| `ThreadProtocol.ReleaseOnlyFaults` | src/threads.cc:97-110 | The run in which the owner drops its reference without waiting and then signals through a freed block. |
| `EmulatedTls.NewSize` | clib/emutls.c:338-344 | The new array is large enough and, with its header, a multiple of 16 words. |
| `EmulatedTls.BaseInside` | clib/emutls.c:65-81 | With a power of two as alignment the object is at a multiple of eight, and of the alignment asked for if that is 1, 2, 4 or at least eight; it is inside its block, with a word before it. |
| `EmulatedTls.RunKeeps` | clib/emutls.c:394-400 | In every interleaving of any number of threads no access is outside an array or to a block that is not there. |
| `EmulatedTls.RunStable` | clib/emutls.c:355-375 | Along any run a control keeps its index and a thread the address it has for a control, however often the array grows. |
| `EmulatedTls.EveryRun` | clib/emutls.c:312-325 | At every point of every run distinct controls have distinct indices, different (thread, control) pairs have disjoint objects, and what a call returns is aligned as the control asks for. |
| `EmulatedTls.IndicesDistinct` | clib/emutls.c:312-325 | Distinct controls never share an index. |
| `EmulatedTls.ReturnedObject` | clib/emutls.c:394-400 | What a call returns is the object for this thread and control: at a multiple of eight, and of the control's own alignment from eight on, inside a live block that is long enough. |
| `EmulatedTls.ObjectsApart` | clib/emutls.c:289-310 | Objects of different threads or controls, with the word before them, do not overlap. |
| `EmulatedTls.AbortsIff` | clib/emutls.c:297-302 | The program aborts exactly if an object is to be created whose alignment is more than eight and no power of two. |
| `EmulatedTls.AlignmentIff` | clib/emutls.c:297-302 | Wherever the block is, the object has the alignment asked for if and only if that is 1, 2, 4 or at least eight: 3, 5, 6 and 7 are not refused and are raised to eight. |
| `EmulatedTls.ArrayInside` | clib/emutls.c:345-375 | A thread's array has room for its header and all its addresses, and no other block reaches into it. |
| `EmulatedTls.GoesOn` | clib/emutls.c:312-325 | No deadlock: a thread inside a call can go on with some free region, unless the program aborts or another thread holds the lock; and that one does not wait. |
| `EmulatedTls.FreeMeans` | clib/emutls.c:74-75 | What the allocator may return: a region is free if and only if none of its bytes is in a block. |
| `EmulatedTls.ExitFrees` | clib/emutls.c:260-268 | The end of a thread frees exactly the blocks that it owns. |
| `EmulatedTls.NothingLeaks` | clib/emutls.c:100-114 | When all threads have ended nothing is left. |
| `Utf8.Encode` | clib/str_c.c:448-472 | The packed word is the encoding of the code point, or 0xffffffff; the latter if and only if the code point is 0x110000 or more. |
| `Utf8.Decode` | clib/str_c.c:410-441 | The loop reads one character exactly as the byte-wise definition says, and stops where it says; the result is 0xffffffff if and only if the bytes are no lead byte with its continuation bytes. |
| `Utf8.Unrolled` | clib/str_c.c:410-441 | That definition written out: which sequences of two, three and four bytes are characters, and of which value. |
| `Utf8.CharsOf` | clib/str_c.c:448-472 | The word of an encoding, read as a C string, gives the encoding back. |
| `Utf8.RoundTrip` | clib/str_c.c:410-472 | Decoding the encodings of any non-zero code points gives the code points back and consumes every byte. |
| `Utf8.PrefixFree` | clib/str_c.c:448-472 | No encoding is a prefix of another one. |
| `Utf8.Canonical` | clib/str_c.c:410-441 | What is decoded encodes to the bytes that were read if and only if the first byte is not 0xc0, 0xc1 or above 0xf4, and the second is at least 0xa0 after 0xe0, at least 0x90 after 0xf0 and below 0x90 after 0xf4. |
| `Utf8.OverlongIsRead` | clib/str_c.c:410-441 | An input where it is not: the code point 1 in two bytes. |
| `StringLayout.StartRecovered` | clib/str.h:79 | Subtract and mask recovers the start of the text from the address of the size word. |
| `StringLayout.SizeWordAddress` | clib/str_c.c:1083 | Rounding up behind the terminator gives the place of the size word. |
| `StringLayout.AllocSizeMask` | clib/str_c.c:1005 | The masked sum is the smallest aligned size for text, terminator and both words. |
| `StringLayout.SealedIsString` | clib/str_c.c:1038-1041 | Writing the two words behind a terminated text makes it a string with that text and capacity. |
| `StringLayout.GrownEnough` | clib/str_c.c:1070-1071 | The grown capacity is enough, at most 3/2 (len + 24) + 32, and at least half as much again as before. |
| `StringLayout.AppendsAmortised` | clib/str_c.c:1064-1087 | Over any sequence of appends the capacities given up sum to at most twice the current one. |
| `StringLayout.CopyingLinear` | clib/str_c.c:1064-1087 | All copying done by growing is linear in the final length. |
| `VolvoxStrings.Len` | clib/str.h:77 | The length word gives the length of the text, 0 for a null pointer. |
| `VolvoxStrings.CStr` | clib/str.h:79 | The C pointer computed from any string is the start of its block. |
| `VolvoxStrings.Accumulate` | clib/str_c.c:1011-1042 | A new string holds the concatenation of all texts, null pointers counting as empty; an empty result is a null pointer. |
| `VolvoxStrings.Add` | clib/str_c.c:1044-1047 | Concatenation of two strings. |
| `VolvoxStrings.Dup` | clib/str_c.c:1049-1062 | The copy, which is made word-wise including the size word, is a string of its own with the same text. |
| `VolvoxStrings.AddAssignGen` | clib/str_c.c:1064-1087 | Append from outside the own block: the text is the concatenation, the capacity follows the growth rule, and the block moves exactly if it was too small. |
| `VolvoxStrings.AddAssign` | clib/str_c.c:1089-1099 | The cases of `+=`, null pointers included. |
| `VolvoxStrings.AddAssignSelf` | clib/str_c.c:1089-1099 | `a += a`: the copy is defined if and only if the string is not on the heap (capacity 0), and then the text is doubled in a new block. |
| `VolvoxStrings.AddCAssign` | clib/str_c.c:1172-1180 | Appending a C string up to its terminator. |
| `VolvoxStrings.MakeWritable` | clib/str_c.c:1138-1148 | A heap copy with the same text. |
| `VolvoxStrings.CstrToVolvox` | clib/str.h:125-132 | The string made of a C string has its text, the smallest capacity, and its two words in place although they are written before the text. |
| `VolvoxStrings.Transform` | clib/str_c.c:1188-1203 | A C string in a buffer becomes a string in place if the two words fit, else in a new block. |
| `VolvoxStrings.Mult` | clib/str_c.c:1101-1132 | The text m times. |
| `VolvoxStrings.RepeatedAt` | clib/str_c.c:1101-1132 | Of the text m times, copy i is at i times the length. |
| `Tensors.ComputeSizes` | src/arrays.cc:211-217 | The loop computes the sizes of the partial tensors from the last dimension on. |
| `Tensors.Memory.StoreArray` | src/arrays.cc:134-175 | Storing a literal writes the tensor's image at its address, every byte of it once, and nothing else. |
| `Tensors.StoreArrayValue` | src/arrays.cc:211-217 | The whole allocation holds the image, and each of its bytes was written exactly once. |
| `Tensors.ReadsElement` | src/arrays.cc:134-175 | At its row-major offset every element reads as the literal's element if there is one, else as zero, at any rank. |
| `Tensors.Expand` | src/arrays.cc:765-783 | The expanded constant has the same contents. |
| `Overloads.Classify` | src/functions.cc:275-326 | What matching one prototype finds and what it leaves in the three conversion tables. |
| `Overloads.SelectProto` | src/functions.cc:241-391 | The result is the declarative choice: exact, else the only one of class 2, else the only one of class 3, else rejection; the conversion table is that of the choice, and a converted by-reference parameter is refused. |
| `Overloads.SelectsBest` | src/functions.cc:339-391 | Without variable arguments: the prototype that is returned fits best, judged by the single matches, and is the first exact one or the only one of its class; the call fails otherwise exactly for a tie of the best ones, for the lack of any match, or for a converted by-reference argument. |
| `Overloads.SelectsVarargs` | src/functions.cc:267-269 | A prototype with variable arguments is returned if neither an exact match nor another such comes before it. |
| `Overloads.OwnConversions` | src/functions.cc:328-391 | In a list of functions or a list of methods, with an empty table before: the table given back is exactly what the chosen prototype's own matches ask for, nothing for the receiver, and the call is refused if and only if one of its own by-reference parameters would be converted, although rejected prototypes wrote to the same tables. |
| `Overloads.OrderIrrelevant` | src/functions.cc:241-391 | For such a list without variable arguments and with at most one exact match the whole outcome is the same in any order: the same refusal, or the same prototype with the same conversions. |
| `Overloads.OrderIrrelevantIff` | src/functions.cc:241-391 | Without variable arguments the chosen prototype is the same for every order of the list if and only if no two different prototypes match exactly. |
| `TypeNames.Print` | src/mangler.cc:8-74 | Appends the text of a type; fails exactly on a pointer that is neither shared, unique nor const. |
| `TypeNames.PrintDims` | src/mangler.cc:59-63 | The loop over the dimensions of an array. |
| `TypeNames.IntegerTextsDiffer` | src/mangler.cc:45-56 | Integer types of 8, 16, 32 and 64 bits are printed alike only if width and signedness agree. |
| `TypeReading.PointersDiffer` | src/mangler.cc:16-32 | Two pointers to one type are printed alike only if they agree in reference, sharing and const. |
| `TypeReading.ReadBack` | src/mangler.cc:8-74 | A reader recovers any readable type from its text, in front of anything, up to what the printer drops. |
| `TypeReading.ListsDecode` | src/mangler.cc:202-210 | Two lists of argument types have the same text if and only if they agree up to what the printer drops. |
| `TypeReading.ArrayRunsIntoName` | src/mangler.cc:57-63 | The texts of array dimensions and of a name behind them that is itself the text of types have a second reading. |
| `TypeReading.HalfRunsIntoName` | src/mangler.cc:65-70 | The half-precision float, printed by its plain name, has one, too. |
| `Mangler.MangleBase` | src/mangler.cc:142-174 | Scope, receiver, name and its mark, with the closing letter, are appended; fails exactly on an unknown operator. |
| `Mangler.PrintParams` | src/mangler.cc:204-210 | The loop over the parameter types, which leaves out the receiver. |
| `Mangler.Mangle` | src/mangler.cc:176-216 | The mangled name is the text of the function's symbol; there is none exactly if an operator or a type is refused. |
| `Mangler.SymbolReadBack` | src/mangler.cc:176-216 | The parts of the symbol can be read back from the text. |
| `Mangler.SymbolsDecode` | src/mangler.cc:142-216 | Two functions have the same mangled name if and only if their symbols agree up to what the printer drops from the types. |
| `Mangler.FreeFunctionsDecode` | src/mangler.cc:142-216 | For free functions: if and only if path, name and printed types agree. |
| `Mangler.CodesDiffer` | src/mangler.cc:76-140 | The code of an operator tells the operator and whether it is unary. |
| `Mangler.DeclareOperator` | src/parser.cc:2759-2793 | From the operands in the order of the source text: the name with its prefix, or refusal, and in place the swap of the operands when only the right one is a struct or complex. |
| `Mangler.DeclaredSymbol` | src/mangler.cc:191-206 | For every declared operator the swap and the choice of the receiver in the mangler cancel out: the symbol has the name of the left operand and prints the type of the right one. |
| `Mangler.MangleOperator` | src/parser.cc:2978-2992 | From the declaration to the mangled name; there is none exactly if the operands, the operator or a type is refused. |
| `Mangler.OperatorsDecode` | src/parser.cc:2759-2793 | Two operators, with operands in the order of the source text, have the same mangled name if and only if path, operator, number of operands, the name of the left operand and the printed type of the right one agree; a right operand that is swapped is printed as a reference. |
| `Mangler.BuiltinCodes` | src/mangler.cc:37-56 | The mangled name, letter by letter, of a free function with one parameter of each builtin type. |
| `Mangler.ConstructorNames` | src/mangler.cc:161-165 | The mangled name of a constructor: the object itself is not printed, all other parameters are. |
| `Mangler.DestructorNames` | src/mangler.cc:156-160 | The mangled name of a destructor. |
| `Mangler.ScopesInOrder` | src/mangler.cc:147-155 | Modules are printed from the outermost in, and then the name. |
| `Mangler.ContainerCodes` | src/mangler.cc:8-65 | The codes of maps, sets, vectors, arrays and C strings, letter by letter. |
| `Decimals.DigitsInOrder` | src/mangler.cc:147-155 | Lengths are printed with the digits in their usual order. |
| `Mangler.OperatorsEndInSigns` | src/mangler.cc:179-189 | A name is that of an operator if it ends in a sign, and is not if it ends in a letter, a digit or an underscore. |
| `Mangler.TypeNameIsBase` | src/main.cc:687-691 | The name of a declared type is what the same routine gives for its scope and name. |

## Left out

Map:
- The replacing path of insertion (`clib/map.cc:369-379` and the numeric macro): it runs the rebalancing on a key that
  is there and does not re-parent the children, so it does not keep the tree.
- Node layout, `malloc` sizes, printing and `destroy`; parent and balance factor are two fields, with `NodeWord` as
  the bridge. NaN keys. A value written through a pointer that `string_get` returned.
- `delete_priv` is cut into several methods, which is how its proof is cut; the order of the pointer writes is kept.

Control flow:
- `return` at the end of a branch, values of branches and the merging of variables, destructors.
- `for` with iterator methods, which is emitted like `while`; arrays, vectors and floating-point ranges; `for x in n`.
- The parts of a branch are a recursive datatype instead of a vector, so the loop over them is a recursion.
- CfgBuilder.Builder.EmitFor: the tests and the step of the loop are arbitrary actions there; `IntegerRanges` says
  which ones they are.
- CfgEntries.WhileEntries: every iteration of the source is an entry of the machine; that no other code jumps into the
  body is not recorded in the layout, so the converse is not stated on its own. `CfgCorrect.EndsAlike` compares the
  whole runs.
- CfgEntries.RepeatEntries: the same.
- CfgEntries.ForEntries: the same.
- IntegerRanges.RangeVisits: for bodies that do not assign to the control variable; `RangeLoop` says what happens
  otherwise.
- IntegerOps.CompareNumbers: the operands have been brought to one width; how a literal is widened is not modelled.
- IntegerOps.DivisionLaw: for divisions that are not exact; the exact ones are decided by the two lemmas before it.
- Floating-point division and remainder.

Threads and thread-local storage:
- Detached threads, the variant with pipes, `kill`, Windows.
- ThreadProtocol.SafeIffWaits: the release is hypothetical; `CreateReleaseRefC` is called for the thread itself only
  (`src/threads.cc:126`).
- ThreadProtocol.ReleaseOnlyFaults: the same.
- ThreadProtocol.HandleEnds: nothing in the repository releases the owner's reference after a wait; what code
  generation emits today is the script that only waits, and its block is never freed. The release is modelled as the
  script that the protocol is made for.
- Failing allocation (it aborts), the width of addresses, the delayed rounds of the key destructor, `posix_memalign`,
  initial values of objects, Windows.

Strings:
- `__string_mult_assign`, which reads a block after it was reallocated.
- VolvoxStrings.AddAssignGen: the appended bytes are in another block; `AddAssignSelf` treats the one caller for which
  they are not. Sizes fit into a word.
- VolvoxStrings.AddAssign: two different strings; `AddAssignSelf` is the case of one string.
- Words of four bytes; freeing. A reallocated block is a new one, the old one is not used again.

Compact algorithms:
- Tensor values that are copied from a pointer, padding between elements.
- Tensors.StoreArrayValue: literals that are nowhere larger than the target, as the compiler checks before.
- The text of diagnostics in overload resolution, and how a single conversion is classified: the match of an argument
  is an input.
- Lists that mix functions and methods, which the compiler does not build (`src/main.cc:601-622`,
  `src/parser.cc:3136-3167`).
- TypeReading.ReadBack: without arrays of a type whose text starts with a number and without the half-precision float;
  `ArrayRunsIntoName` and `HalfRunsIntoName` show how their texts run into what follows.
- TypeReading.ListsDecode: the same.
- Mangler.SymbolReadBack: the same for the types of parameters.
- Mangler.FreeFunctionsDecode: the same, and scopes and names that do not start with a digit.
- Mangler.OperatorsDecode: the same for the right operand, and a left operand that has a name, as every declared or
  builtin type does. The marks that the swap of a reversed operator sets on a type record that other declarations
  share are set on its own copy here.
- Mangler.SymbolsDecode: the same, and scopes and names that do not start with a digit. Function types are all printed
  as the name `func`.
- Names of anonymous functions and names given by `extern` declarations.

Not modelled at all: lexer and parser, LLVM types, constructors and destructors, debug information, linking, formatted
output, files and consoles, line editing, options.
