# Ultima 8 / Crusader usecode machine

A model of the usecode virtual machine of the Ultima 8 engine
(`engines/ultima/ultima8/usecode/uc_machine.cpp`). The machine runs the
bytecode ("usecode") of the games' object classes. It has these parts:

- **Heaps.** A string heap and a list heap, each indexed by 16-bit handles
  from its own id allocator. Handle 0 is never handed out, and an unknown
  handle reads as the empty string or as no list.
- **Global store.** Bit-packed in Ultima 8, byte-packed in the Crusader
  games.
- **Segmented 32-bit pointers.** The segment tag is in the high 16 bits and
  the offset in the low 16. A pointer reaches a process stack, the string
  heap, the list heap, an object id or the global store.
- **The dispatcher `execProcess`.** It fetches, decodes and executes one
  opcode at a time on the process's stack and frame. It writes the
  instruction pointer back after every instruction that did not fail. It
  stops when the process cedes, fails or ends, and it terminates (deferred)
  a process that failed.

How the model is built:

- Each opcode is a function over a value snapshot `State.Slice`. The
  snapshot holds the heaps, the globals, the scheduler's view, the process,
  the code stream and its position, and the three loop flags (cede, error,
  go-until-cede).
- A decoding fault is `None`: a stack access outside the buffer, a missing
  class, a jump out of the code, or a failed assertion. `Dispatch.Step`
  turns a fault into an error of the instruction.
- The machine itself is the class `Machine.UCMachine`. Its fields are the
  two heaps with their allocators and the global store. Each heap
  operation, `reset`, `loadLists` and `execProcess` is a method, proved
  against the functions of modules `Heap` and `Dispatch`.
- The dispatcher loop is `Machine.RunLoop`, a `while` loop. It is proved
  equal to `Dispatch.Iterate`.

Words are bounded integers (`u8`, `u16`, `u32`). Signed views, C's
truncating division and 16- and 32-bit wrap-around are written out in
module `Words`.

Things the dispatcher consults but does not change are parameters of
`State.Env`:

- the code of each class;
- the Crusader event table;
- the intrinsic functions;
- the set of live world items;
- the result of a world search;
- the process count per (item, type);
- the id the scheduler gives a spawned process.

## Model

| member | source | states |
|---|---|---|
| Words.SignExtend16 | engines/ultima/ultima8/usecode/uc_machine.cpp:1502-1509 | the 32-bit word pushed by 0x60 has the signed value of the popped 16-bit word |
| Words.ShlIsMultiplication | engines/ultima/ultima8/usecode/uc_machine.cpp:1004-1018 | a 16-bit left shift that does not overflow multiplies by 2^count |
| Words.SarKeepsSign | engines/ultima/ultima8/usecode/uc_machine.cpp:1019-1033 | the arithmetic right shift keeps the sign of its operand |
| Ids.NewId | engines/ultima/ultima8/usecode/uc_machine.cpp:108-109 | a fresh id lies in [1, 65534], was not in use and is now in use; 0 leaves the allocator unchanged |
| Ids.ClearId | engines/ultima/ultima8/usecode/uc_machine.cpp:2060-2070 | the cleared id is free again, every other used id stays used, and clearing a free id changes nothing |
| Ids.NewIdLowest | engines/ultima/ultima8/usecode/uc_machine.cpp:108-109 | the allocator hands out the lowest free id, and it fails exactly when all of [1, 65534] is in use |
| Ids.FreedIdReused | engines/ultima/ultima8/usecode/uc_machine.cpp:2060-2070 | a freed id is handed out again when every id below it is in use |
| Lists.AppendList | engines/ultima/ultima8/usecode/uc_machine.cpp:498-536 | the appended list is the first list's elements followed by the second's, with the width unchanged |
| Lists.AssignElem | engines/ultima/ultima8/usecode/uc_machine.cpp:244-277 | an in-range index replaces exactly that element and nothing else; an index past the end is a fault |
| Lists.StringIndex | engines/ultima/ultima8/usecode/uc_machine.cpp:1113-1148 | an element is read as a handle exactly when it exists and holds two bytes |
| Lists.RemoveMatching | engines/ultima/ultima8/usecode/uc_machine.cpp:580-600 | the result holds exactly the elements that do not match, each as often as before, and no matching one |
| Lists.RemoveMatchingAppend | engines/ultima/ultima8/usecode/uc_machine.cpp:580-600 | removal works element by element: on a concatenation it is the concatenation of the removals, so the survivors keep their order |
| Lists.SubtractKeeps | engines/ultima/ultima8/usecode/uc_machine.cpp:580-600 | an element survives subtractList if and only if it matches none of the other list's elements |
| Heap.CStr | engines/ultima/ultima8/usecode/uc_machine.cpp:2036-2043 | a stored C string is the prefix of the bytes before the first NUL |
| Heap.GetString | engines/ultima/ultima8/usecode/uc_machine.cpp:2013-2023 | the text under a known handle; the empty text for an unknown one |
| Heap.GetList | engines/ultima/ultima8/usecode/uc_machine.cpp:2025-2032 | a list exactly when the handle is in the heap, and then the stored one |
| Heap.AssignString | engines/ultima/ultima8/usecode/uc_machine.cpp:2036-2043 | a fresh handle maps to the C string and nothing else changes; with the allocator exhausted, 0 and no change |
| Heap.DuplicateString | engines/ultima/ultima8/usecode/uc_machine.cpp:2045-2047 | a nonzero result is a handle not handed out before that reads the C string of the original's text; every other handle reads as before; the list heap is untouched |
| Heap.AssignList | engines/ultima/ultima8/usecode/uc_machine.cpp:2050-2058 | a fresh handle, not in use before, maps to the list; 0 changes nothing; every stored list stays tracked by the allocator |
| Heap.FreeString | engines/ultima/ultima8/usecode/uc_machine.cpp:2060-2070 | the handle is gone and its id released; an unknown handle changes nothing |
| Heap.FreeList | engines/ultima/ultima8/usecode/uc_machine.cpp:2072-2080 | the list is gone and its id released; an unknown handle changes nothing |
| Heap.FreeStrings | engines/ultima/ultima8/usecode/uc_machine.cpp:2082-2090 | every freed handle is gone and every other string is kept unchanged |
| Heap.FreeStringList | engines/ultima/ultima8/usecode/uc_machine.cpp:2082-2090 | the list and every string it holds are gone, the list id is released, every other string keeps its text, and list tracking is kept; an unknown handle changes nothing |
| Heap.UnionStrings | engines/ultima/ultima8/usecode/uc_machine.cpp:537-559 | the destination keeps its elements as a prefix and gains only source elements; a source element left out has had its string freed; only source strings are freed and the rest keep their texts |
| Heap.UnionTexts | engines/ultima/ultima8/usecode/uc_machine.cpp:537-559 | with every element holding its own handle: every result element reads its text as before, every source text is in the result, and no appended element repeats an earlier text |
| Heap.SubtractStrings | engines/ultima/ultima8/usecode/uc_machine.cpp:560-579 | what remains is part of the destination, every element that went has had its string freed, strings not held by the destination are kept, and the list heap is untouched |
| Heap.SubtractStringsKeeps | engines/ultima/ultima8/usecode/uc_machine.cpp:560-579 | with the destination's elements holding handles of their own and none of the source's: an element survives exactly when its text is the text of no source element |
| Heap.RemoveString | engines/ultima/ultima8/usecode/uc_machine.cpp:560-579 | no survivor reads as t, every element whose text is not t survives, a removed element's string is freed, and only strings with text t are freed |
| Heap.RemoveStringFreesMatches | engines/ultima/ultima8/usecode/uc_machine.cpp:560-579 | the string of every element whose text is t is freed, whether or not the element stays |
| Heap.UnmatchedDistinct | engines/ultima/ultima8/usecode/uc_machine.cpp:560-579 | filtering a list whose elements hold distinct handles keeps them distinct |
| Heap.RemoveStringFilters | engines/ultima/ultima8/usecode/uc_machine.cpp:560-579 | with distinct handles, removeString keeps exactly the elements whose text is not t, in order, and frees exactly the strings of the others |
| Heap.RemoveStringStep | engines/ultima/ultima8/usecode/uc_machine.cpp:560-579 | one removal keeps the survivors' texts, the source's texts and the distinct-handle hypotheses for the rest of the subtraction |
| Heap.CopyStrings | engines/ultima/ultima8/usecode/uc_machine.cpp:1093-1112 | one two-byte element per source element; each nonzero handle is fresh and differs from the others; every string handed out before reads as before |
| Heap.CopyStringsTexts | engines/ultima/ultima8/usecode/uc_machine.cpp:1093-1112 | each nonzero copy reads the C string of the text of the element it copies |
| Heap.CopyStringsPlainTexts | engines/ultima/ultima8/usecode/uc_machine.cpp:1093-1112 | with no NUL byte in any stored text, each nonzero copy reads exactly the copied text |
| Heap.CopyStringsKeepsPlain | engines/ultima/ultima8/usecode/uc_machine.cpp:1093-1112 | copying a string list brings in no text with a NUL byte |
| Heap.FreeingKeepsPlain | engines/ultima/ultima8/usecode/uc_machine.cpp:537-2090 | freeStringList, union and subtraction of string lists and removeString bring in no text with a NUL byte |
| Heap.GetAfterAssign | engines/ultima/ultima8/usecode/uc_machine.cpp:2036-2043 | a stored string reads back as its C string, and every other handle reads as before |
| Heap.GetAfterFree | engines/ultima/ultima8/usecode/uc_machine.cpp:2060-2070 | a freed handle reads as the empty text |
| Heap.FreeTwice | engines/ultima/ultima8/usecode/uc_machine.cpp:2060-2090 | freeString, freeList and freeStringList are idempotent |
| Heap.DuplicateKeepsText | engines/ultima/ultima8/usecode/uc_machine.cpp:2045-2047 | the duplicate is a new handle with the original's text, and other handles read as before |
| Heap.AssignListFresh | engines/ultima/ultima8/usecode/uc_machine.cpp:2050-2058 | the assertion of assignList holds while every stored list is tracked |
| Globals.GetEntries | engines/ultima/ultima8/usecode/uc_machine.cpp:1211-1220 | an access succeeds exactly when it lies inside the store and is at most 32 bits wide |
| Globals.SetEntries | engines/ultima/ultima8/usecode/uc_machine.cpp:1221-1242 | a write succeeds exactly when it lies inside the store, and keeps the packing and size |
| Globals.GetAfterSet | engines/ultima/ultima8/usecode/uc_machine.cpp:1221-1242 | a written global reads back as the value masked to its width |
| Globals.SetLeavesOthers | engines/ultima/ultima8/usecode/uc_machine.cpp:1221-1242 | writing a global leaves every disjoint global as it was |
| Globals.Initial | engines/ultima/ultima8/usecode/uc_machine.cpp:84-105 | 1-bit entries for Ultima 8 and 8-bit entries for Crusader, 0x1000 of them |
| Globals.InitialAvatar | engines/ultima/ultima8/usecode/uc_machine.cpp:126-137 | after construction or reset the avatar global (0x3C / 0x1E) reads 1 in the Crusader games |
| Globals.InitialClear | engines/ultima/ultima8/usecode/uc_machine.cpp:84-137 | after construction or reset every global reads 0, except the Crusader avatar entry |
| State.ReadCode | engines/ultima/ultima8/usecode/uc_machine.cpp:152-158 | code bytes from the position, zero past the end, with the position stopping at the end |
| Arith.Arithmetic16 | engines/ultima/ultima8/usecode/uc_machine.cpp:463-627 | 16-bit add, sub and mul of b and a are the signed results modulo 2^16 |
| Arith.Arithmetic32 | engines/ultima/ultima8/usecode/uc_machine.cpp:472-636 | 32-bit add, sub and mul of b and a are the signed results modulo 2^32 |
| Arith.Div16 | engines/ultima/ultima8/usecode/uc_machine.cpp:637-650 | b / a truncated toward zero (mod 2^16); 0 for a zero divisor |
| Arith.Mod16 | engines/ultima/ultima8/usecode/uc_machine.cpp:665-679 | C's remainder of b by a; 0 for a zero divisor |
| Arith.Div32AsWritten | engines/ultima/ultima8/usecode/uc_machine.cpp:651-664 | the source's 32-bit division is undefined exactly for INT32_MIN / -1 |
| Arith.Mod32AsWritten | engines/ultima/ultima8/usecode/uc_machine.cpp:680-692 | the source's 32-bit remainder is undefined exactly for INT32_MIN % -1 |
| Arith.Div32 | engines/ultima/ultima8/usecode/uc_machine.cpp:651-664 | truncating 32-bit division that wraps; it agrees with the source wherever the source is defined |
| Arith.Mod32 | engines/ultima/ultima8/usecode/uc_machine.cpp:680-692 | C's 32-bit remainder, 0 for INT32_MIN % -1; it agrees with the source wherever the source is defined |
| Arith.DivisionOverflow | engines/ultima/ultima8/usecode/uc_machine.cpp:651-692 | INT32_MIN / -1 and % -1: undefined as written, INT32_MIN and 0 corrected |
| Arith.Division16Wraps | engines/ultima/ultima8/usecode/uc_machine.cpp:637-679 | the 16-bit opcodes already give -32768 / -1 == -32768 and a remainder of 0 |
| Arith.ExecArith | engines/ultima/ultima8/usecode/uc_machine.cpp:463-1517 | an arithmetic, comparison or logical opcode changes nothing but the process stack |
| Arith.Binary16Pushes | engines/ultima/ultima8/usecode/uc_machine.cpp:463-1033 | a binary 16-bit opcode replaces its two words by the one result of b op a |
| Arith.Binary32Pushes | engines/ultima/ultima8/usecode/uc_machine.cpp:472-940 | a binary 32-bit opcode replaces its two double words by the one result |
| Arith.SubDivMod16 | engines/ultima/ultima8/usecode/uc_machine.cpp:601-679 | sub, div and mod leave b - a, b / a and b % a (popped first is the right operand); a zero divisor gives 0 |
| Arith.SubDivMod32 | engines/ultima/ultima8/usecode/uc_machine.cpp:610-692 | the same for the 32-bit opcodes |
| Arith.Compare16Pushes | engines/ultima/ultima8/usecode/uc_machine.cpp:694-941 | each 16-bit comparison or logical opcode leaves one 16-bit word, 1 if the relation holds and 0 otherwise |
| Arith.Compare32Pushes | engines/ultima/ultima8/usecode/uc_machine.cpp:707-941 | the 32-bit comparisons pop 8 bytes and push one 16-bit 0/1 |
| Arith.NotPushes | engines/ultima/ultima8/usecode/uc_machine.cpp:841-864 | logical not leaves one 16-bit word, 1 exactly for a zero operand |
| Frame.InitSize | engines/ultima/ultima8/usecode/uc_machine.cpp:1444-1456 | the locals reserved by 0x5A are the count rounded up to an even number |
| Frame.ExecFrame | engines/ultima/ultima8/usecode/uc_machine.cpp:193-300 | a push, pop or frame opcode leaves the heaps, globals, scheduler, code position, ip, bp and pid alone |
| Frame.StoreLocalResult | engines/ultima/ultima8/usecode/uc_machine.cpp:202-236 | 0x01, 0x02 and 0x03 pop two, four or yy bytes and the slot at bp+xx then holds them as they were on the stack |
| Frame.PushByteResult | engines/ultima/ultima8/usecode/uc_machine.cpp:278-285 | 0x0A pushes one word whose signed value is that of the signed immediate byte |
| Frame.PushImmediateResult | engines/ultima/ultima8/usecode/uc_machine.cpp:286-301 | 0x0B and 0x0C push their operand bytes unchanged |
| Frame.PushLocalByteResult | engines/ultima/ultima8/usecode/uc_machine.cpp:1034-1042 | 0x3E pushes one word whose signed value is that of the byte at bp+xx |
| Frame.PushLocalResult | engines/ultima/ultima8/usecode/uc_machine.cpp:1043-1060 | 0x3F and 0x40 push a copy of the two or four bytes at bp+xx |
| HeapOps.PushString | engines/ultima/ultima8/usecode/uc_machine.cpp:302-329 | a literal string becomes a new handle on the stack; a heap opcode keeps ip, code, globals and list tracking |
| HeapOps.Gather | engines/ultima/ultima8/usecode/uc_machine.cpp:330-349 | the count stack values, in push order, each read at its own offset |
| HeapOps.CreateList | engines/ultima/ultima8/usecode/uc_machine.cpp:330-349 | the new list's handle is pushed, with the heap frame kept |
| HeapOps.AssignElement | engines/ultima/ultima8/usecode/uc_machine.cpp:244-277 | list element assignment keeps ip, code, globals and list tracking |
| HeapOps.ConcatHeap | engines/ultima/ultima8/usecode/uc_machine.cpp:481-497 | string b becomes b's text followed by a's; a is freed; other strings and the lists are unchanged |
| HeapOps.ConcatResult | engines/ultima/ultima8/usecode/uc_machine.cpp:481-497 | 0x16 pushes b with the heaps of ConcatHeap; b == 0 is an error with both handles popped |
| HeapOps.AppendHeap | engines/ultima/ultima8/usecode/uc_machine.cpp:498-536 | list b gains a's elements when the widths match and is unchanged otherwise; a is freed; nothing else changes |
| HeapOps.AppendBoth | engines/ultima/ultima8/usecode/uc_machine.cpp:498-536 | with both lists present, 0x17 pushes b and fails exactly on differing widths; appending a list to itself is a fault |
| HeapOps.AppendMissing | engines/ultima/ultima8/usecode/uc_machine.cpp:498-536 | with a list missing, 0x17 pushes a if present, else b, else 0, and leaves the heaps untouched |
| HeapOps.UnionSlists | engines/ultima/ultima8/usecode/uc_machine.cpp:537-559 | string-list union keeps the heap frame |
| HeapOps.UnionHeap | engines/ultima/ultima8/usecode/uc_machine.cpp:537-559 | list b holds what unionStringList leaves in it and the strings are those it leaves; a is gone; every other list is unchanged |
| HeapOps.UnionSlistsResult | engines/ultima/ultima8/usecode/uc_machine.cpp:537-559 | with both lists present 0x19 replaces the two handles by b, the heaps become UnionHeap's, and it fails only for a width other than 2 |
| HeapOps.UnionSlistsMissing | engines/ultima/ultima8/usecode/uc_machine.cpp:537-559 | with a list missing 0x19 replaces the two handles by b, keeps the heaps and fails |
| HeapOps.SubtractSlists | engines/ultima/ultima8/usecode/uc_machine.cpp:560-579 | string-list subtraction keeps the heap frame |
| HeapOps.SubtractHeap | engines/ultima/ultima8/usecode/uc_machine.cpp:560-579 | list b holds what subtractStringList leaves of it, a is gone with all of its strings, no freed string comes back, and every other list is unchanged |
| HeapOps.SubtractSlistsResult | engines/ultima/ultima8/usecode/uc_machine.cpp:560-579 | with both lists present 0x1A replaces the two handles by b and the heaps become SubtractHeap's |
| HeapOps.SubtractLists | engines/ultima/ultima8/usecode/uc_machine.cpp:580-600 | list subtraction keeps the heap frame |
| HeapOps.CompareStrings | engines/ultima/ultima8/usecode/uc_machine.cpp:720-736 | string comparison keeps the heap frame |
| HeapOps.FreeBoth | engines/ultima/ultima8/usecode/uc_machine.cpp:730-731 | both strings are freed, and every other string reads as before |
| HeapOps.CompareStringsResult | engines/ultima/ultima8/usecode/uc_machine.cpp:720-736 | 0x26 replaces the two handles by 1 exactly when their texts are equal (0 otherwise) and frees both strings |
| HeapOps.InListOp | engines/ultima/ultima8/usecode/uc_machine.cpp:943-977 | the in-list test keeps the heap frame |
| HeapOps.InListOf | engines/ultima/ultima8/usecode/uc_machine.cpp:943-977 | the in-list test after the pop of the list handle keeps the heap frame |
| HeapOps.InListPops | engines/ultima/ultima8/usecode/uc_machine.cpp:943-950 | 0x38 pops the list handle and goes on with InListOf |
| HeapOps.InListStrings | engines/ultima/ultima8/usecode/uc_machine.cpp:943-977 | for a string list the handle and the string are replaced by 1 exactly when some element has the string's text, the list and its strings are freed, and a width other than 2 fails |
| HeapOps.InListOfStrings | engines/ultima/ultima8/usecode/uc_machine.cpp:943-977 | the string-list branch after both pops pushes the membership answer and frees the list with its strings |
| HeapOps.InListPlain | engines/ultima/ultima8/usecode/uc_machine.cpp:943-977 | for a plain list the handle and xx bytes are replaced by 1 exactly when the value under the handle is an element, and the list is freed |
| HeapOps.InListMissing | engines/ultima/ultima8/usecode/uc_machine.cpp:943-977 | with no such list the handle is popped and the opcode fails |
| HeapOps.PushStringCopy | engines/ultima/ultima8/usecode/uc_machine.cpp:1061-1070 | the string copy keeps the heap frame |
| HeapOps.PushListCopy | engines/ultima/ultima8/usecode/uc_machine.cpp:1071-1092 | the list copy keeps the heap frame |
| HeapOps.ListCopy | engines/ultima/ultima8/usecode/uc_machine.cpp:1071-1092 | the new list has width yy and the elements of the list in the slot, none when there is no such list |
| HeapOps.PushListCopyResult | engines/ultima/ultima8/usecode/uc_machine.cpp:1071-1092 | 0x42 stores that list under a handle not handed out before and pushes it, leaving the strings alone; 0 leaves the heaps untouched |
| HeapOps.PushSlistCopy | engines/ultima/ultima8/usecode/uc_machine.cpp:1093-1112 | the string-list copy keeps the heap frame |
| HeapOps.PushSlistCopyResult | engines/ultima/ultima8/usecode/uc_machine.cpp:1093-1112 | 0x43 pushes a fresh string list of width 2 with one element per source element; each nonzero string in it is fresh and reads the C string of the text it copies; older strings read as before |
| HeapOps.SlistCopyHeaps | engines/ultima/ultima8/usecode/uc_machine.cpp:1093-1112 | copying a string list keeps every older string, stores the list of copies under a handle not handed out before, and gives each nonzero copy a fresh handle reading the C string of its source text |
| HeapOps.PushElement | engines/ultima/ultima8/usecode/uc_machine.cpp:1113-1148 | the element push keeps the heap frame |
| HeapOps.PushIndexed | engines/ultima/ultima8/usecode/uc_machine.cpp:1113-1148 | what 0x44 pushes once index and list are popped keeps the heap frame |
| HeapOps.PushElementMissing | engines/ultima/ultima8/usecode/uc_machine.cpp:1113-1148 | with no list the two words are replaced by xx zero bytes |
| HeapOps.PushElementString | engines/ultima/ultima8/usecode/uc_machine.cpp:1113-1148 | for a string list the two words are replaced by a fresh handle reading the C string of the indexed element's text, and no other string changes |
| HeapOps.PushElementPlain | engines/ultima/ultima8/usecode/uc_machine.cpp:1113-1148 | for a plain list the two words are replaced by the first xx bytes of the indexed element |
| HeapOps.PushElementPast | engines/ultima/ultima8/usecode/uc_machine.cpp:1113-1148 | an index past the end pops the two words and pushes nothing |
| HeapOps.PushElementNarrow | engines/ultima/ultima8/usecode/uc_machine.cpp:1113-1148 | an operand wider than the element is a fault |
| HeapOps.FreeAt | engines/ultima/ultima8/usecode/uc_machine.cpp:1518-1575 | the free opcodes apply exactly freeString, freeStringList or freeList to the handle they read, and fault only when the read does |
| HeapOps.ParamCopy | engines/ultima/ultima8/usecode/uc_machine.cpp:1595-1644 | the parameter copy keeps the heap frame |
| HeapOps.ParamCopyHeap | engines/ultima/ultima8/usecode/uc_machine.cpp:1595-1644 | kind 1 gives a fresh string reading the same C string, kind 2 a fresh string list of as many elements, kind 3 a fresh list equal to the old one; a missing list or another kind copies nothing and gives 0 |
| HeapOps.ParamCopyResult | engines/ultima/ultima8/usecode/uc_machine.cpp:1595-1644 | 0x6C replaces the handle in bp+xx by the copy's, takes ParamCopyHeap's heaps, registers the copy to be freed at the end of the process, and fails exactly for a kind other than 1, 2 or 3 |
| HeapOps.ExecHeap | engines/ultima/ultima8/usecode/uc_machine.cpp:244-1644 | every heap opcode keeps ip, pid, bp, code position, globals, scheduler and list tracking |
| Pointers.MakePtr | engines/ultima/ultima8/usecode/uc_machine.cpp:2093-2130 | the tag lands in the high 16 bits and the offset in the low 16 |
| Pointers.ListToPtr | engines/ultima/ultima8/usecode/uc_machine.cpp:2093-2099 | segment SEG_LIST, offset the handle |
| Pointers.StringToPtr | engines/ultima/ultima8/usecode/uc_machine.cpp:2101-2107 | segment SEG_STRING, offset the handle |
| Pointers.StackToPtr | engines/ultima/ultima8/usecode/uc_machine.cpp:2109-2115 | segment the pid, offset the stack offset |
| Pointers.GlobalToPtr | engines/ultima/ultima8/usecode/uc_machine.cpp:2117-2123 | segment SEG_GLOBAL, offset the global's position |
| Pointers.ObjectToPtr | engines/ultima/ultima8/usecode/uc_machine.cpp:2125-2130 | segment SEG_OBJ, offset the object id |
| Pointers.PointerRoundTrip | engines/ultima/ultima8/usecode/uc_machine.cpp:2230-2234 | every 32-bit word is the pointer built from its own segment and offset |
| Pointers.SpaceOf | engines/ultima/ultima8/usecode/uc_machine.cpp:2230-2259 | a pointer names a process stack exactly when its segment lies in [1, 0x7FFE] |
| Pointers.BuildersResolve | engines/ultima/ultima8/usecode/uc_machine.cpp:2093-2259 | each builder's pointer resolves to its own space and offset; stack pointers only for pids in the stack range |
| Resolver.Dereference | engines/ultima/ultima8/usecode/uc_machine.cpp:2175-2229 | a successful read yields exactly the requested number of bytes |
| Resolver.AssignPointer | engines/ultima/ultima8/usecode/uc_machine.cpp:2132-2174 | a refused write changes nothing, and no write touches the heaps or the code position |
| Resolver.PtrToObject | engines/ultima/ultima8/usecode/uc_machine.cpp:2230-2259 | object and string pointers give their offset; a dead process's stack, the list segment and unknown segments give 0 |
| Resolver.PtrToObjectOfBuilders | engines/ultima/ultima8/usecode/uc_machine.cpp:2230-2259 | ptrToObject returns the id an object or string pointer was built from |
| Resolver.DeadProcessRefused | engines/ultima/ultima8/usecode/uc_machine.cpp:2132-2229 | a pointer into the stack of a missing process is refused for reading and writing and changes nothing |
| Resolver.StackWriteRead | engines/ultima/ultima8/usecode/uc_machine.cpp:2132-2229 | bytes written through a stack pointer read back through it |
| Resolver.GlobalWriteRead | engines/ultima/ultima8/usecode/uc_machine.cpp:2132-2229 | in the Crusader games a two-byte global written through a pointer reads back whole |
| PointerOps.PushIndirect | engines/ultima/ultima8/usecode/uc_machine.cpp:1172-1192 | 0x4C leaves heaps, globals, scheduler, code position, ip, bp and pid alone |
| PointerOps.PopIndirect | engines/ultima/ultima8/usecode/uc_machine.cpp:1193-1210 | 0x4D leaves heaps, code position, ip, bp and pid alone |
| PointerOps.PopGlobal | engines/ultima/ultima8/usecode/uc_machine.cpp:1221-1242 | 0x4F changes only the stack and the globals |
| PointerOps.ExecPointer | engines/ultima/ultima8/usecode/uc_machine.cpp:1164-1978 | every pointer or global opcode leaves heaps, code position, ip, bp and pid alone |
| PointerOps.PopGlobalAssertHolds | engines/ultima/ultima8/usecode/uc_machine.cpp:1221-1242 | the read-back assertion of 0x4F never fails for a global inside the store |
| Control.CallIntrinsic | engines/ultima/ultima8/usecode/uc_machine.cpp:350-418 | only the temp register changes, and an unknown intrinsic gives 0 |
| Control.Call | engines/ultima/ultima8/usecode/uc_machine.cpp:419-446 | the callee's class exists, its code is now running and ip is at the new position |
| Control.Return | engines/ultima/ultima8/usecode/uc_machine.cpp:1243-1269 | return keeps heaps, globals, pid and the error flag, and stays inside the code |
| Control.CallFrame | engines/ultima/ultima8/usecode/uc_machine.cpp:419-446 | a call leaves the caller's bp, return position and class on top of the stack, sets bp to the new top and makes the callee's class current |
| Control.ReturnFrame | engines/ultima/ultima8/usecode/uc_machine.cpp:1243-1269 | a return pops the saved bp, ip and class at bp and resumes in that class at that ip |
| Control.ReturnToCaller | engines/ultima/ultima8/usecode/uc_machine.cpp:1243-1269 | a return on a frame a call built restores the caller's class, code, position, ip, bp and stack pointer, and keeps heaps, globals and the error flag |
| Control.CallReturn | engines/ultima/ultima8/usecode/uc_machine.cpp:419-446 | a call followed by a return comes back to the caller at the position after the call, with its bp and stack pointer |
| Control.Implies | engines/ultima/ultima8/usecode/uc_machine.cpp:1301-1357 | implies keeps heaps, globals and pid |
| Control.ImpliesWaits | engines/ultima/ultima8/usecode/uc_machine.cpp:1301-1357 | with both processes present a is pushed back, the wait of b on a is recorded, the slice runs on to its next cede, and the running process suspends exactly when it is b |
| Control.ImpliesMissing | engines/ultima/ultima8/usecode/uc_machine.cpp:1301-1357 | with a process missing a is pushed back, no wait is recorded, and the opcode fails exactly when a missing process has a nonzero id |
| Control.Spawn | engines/ultima/ultima8/usecode/uc_machine.cpp:1358-1395 | exactly one process is spawned and its id is in the temp register |
| Control.SpawnInline | engines/ultima/ultima8/usecode/uc_machine.cpp:1396-1436 | an inline spawn happens only in Ultima 8 |
| Control.ExecControl | engines/ultima/ultima8/usecode/uc_machine.cpp:1270-1300 | every control opcode keeps heaps, globals and pid, and a failing one keeps ip |
| Loops.SearchArea | engines/ultima/ultima8/usecode/uc_machine.cpp:1680-1790 | a search kind is handled exactly for kinds 2-6, each reserving at least 0x28 bytes |
| Loops.ItemList | engines/ultima/ultima8/usecode/uc_machine.cpp:1680-1790 | the item list holds each found id as a two-byte element, in order |
| Loops.Scan | engines/ultima/ultima8/usecode/uc_machine.cpp:1814-1861 | the scan stops at the first live item, and every item passed over is dead |
| Loops.LoopNext | engines/ultima/ultima8/usecode/uc_machine.cpp:1814-1861 | 0x73 keeps globals, scheduler, code position, ip and list tracking |
| Loops.SearchSetup | engines/ultima/ultima8/usecode/uc_machine.cpp:1680-1812 | the setup fails exactly for an unhandled search kind |
| Loops.StartSearch | engines/ultima/ultima8/usecode/uc_machine.cpp:1680-1861 | corrected 0x70: an unhandled kind ends in the error |
| Loops.NextCursor | engines/ultima/ultima8/usecode/uc_machine.cpp:1870-1939 | the cursor after 0xFFFF is 0, otherwise it is one further |
| Loops.ForeachEnd | engines/ultima/ultima8/usecode/uc_machine.cpp:1870-1939 | past the end the list is freed (with its strings for 0x76), two words are popped and the jump is taken |
| Loops.ForeachStore | engines/ultima/ultima8/usecode/uc_machine.cpp:1870-1939 | the cursor is stored back and the element's bytes land in the loop variable |
| Loops.Foreach | engines/ultima/ultima8/usecode/uc_machine.cpp:1870-1939 | foreach keeps globals, scheduler, code, ip and list tracking |
| Loops.ForeachDone | engines/ultima/ultima8/usecode/uc_machine.cpp:1870-1939 | a finished foreach frees the list, drops two words and jumps, failing for a string list of width other than 2 |
| Loops.ForeachElement | engines/ultima/ultima8/usecode/uc_machine.cpp:1870-1939 | an unfinished foreach stores the next cursor and copies the element into the loop variable, with the heaps unchanged |
| Loops.SetupUnhandled | engines/ultima/ultima8/usecode/uc_machine.cpp:1680-1812 | an unhandled search kind pops operands and script and fails, laying nothing out |
| Loops.NextOverEmpty | engines/ultima/ultima8/usecode/uc_machine.cpp:1814-1861 | 0x73 over an empty list pushes 0 and frees the list |
| Loops.UnhandledSearchFreesList | engines/ultima/ultima8/usecode/uc_machine.cpp:1680-1861 | as written, 0x70 with an unhandled kind falls into 0x73 and frees a list it does not own; corrected, the list survives |
| Dispatch.Fetch | engines/ultima/ultima8/usecode/uc_machine.cpp:173-190 | the opcode byte and its operand bytes, taken from the code at the position |
| Dispatch.StepLiteral | engines/ultima/ultima8/usecode/uc_machine.cpp:302-329 | 0x0D keeps code, ip and pid, keeps list tracking and stays inside the code |
| Dispatch.Execute | engines/ultima/ultima8/usecode/uc_machine.cpp:193-1985 | every instruction keeps ip on failure, list tracking, the position inside some class's code, and the pid |
| Dispatch.Step | engines/ultima/ultima8/usecode/uc_machine.cpp:173-1985 | the same for fetch-decode-execute with faults turned into errors |
| Dispatch.IterateKeeps | engines/ultima/ultima8/usecode/uc_machine.cpp:169-2000 | whatever one loop iteration preserves holds after the whole loop |
| Dispatch.Finish | engines/ultima/ultima8/usecode/uc_machine.cpp:2005-2009 | the process is terminated exactly when it was already or the slice failed, and nothing else changes |
| Dispatch.Begin | engines/ultima/ultima8/usecode/uc_machine.cpp:152-168 | a run starts in the process's class at its ip with the loop flags clear |
| Dispatch.CycleWriteBack | engines/ultima/ultima8/usecode/uc_machine.cpp:1994-2000 | ip is written back (truncated) only when the instruction did not fail |
| Dispatch.CyclePosition | engines/ultima/ultima8/usecode/uc_machine.cpp:1994-2000 | one cycle keeps the position inside some class's code with ip equal to it |
| Dispatch.ShortCode | engines/ultima/ultima8/usecode/uc_machine.cpp:1994-1996 | the truncation of the position to 16 bits is harmless for code shorter than 64K |
| Dispatch.RunKeepsTracked | engines/ultima/ultima8/usecode/uc_machine.cpp:169-2001 | every stored list keeps an allocated id for the whole run |
| Dispatch.RunKeepsPosition | engines/ultima/ultima8/usecode/uc_machine.cpp:169-2001 | the position never leaves the code, and ip equals it after a run without error |
| Dispatch.ErrorTerminates | engines/ultima/ultima8/usecode/uc_machine.cpp:2005-2009 | a run that ends in an error terminates the process; otherwise the end state is the loop's |
| Machine.LoadedKeys | engines/ultima/ultima8/usecode/uc_machine.cpp:2341-2364 | the loaded heap holds exactly the old handles plus those of the records |
| Machine.LoadedTracked | engines/ultima/ultima8/usecode/uc_machine.cpp:2341-2364 | a load whose allocator knows every handle keeps every list tracked |
| Machine.RunLoop | engines/ultima/ultima8/usecode/uc_machine.cpp:169-2001 | the while loop computes exactly the fuel-bounded iteration of the cycle |
| Machine.UCMachine.constructor | engines/ultima/ultima8/usecode/uc_machine.cpp:84-112 | empty heaps, fresh allocators and the initial global store of the game |
| Machine.UCMachine.Reset | engines/ultima/ultima8/usecode/uc_machine.cpp:126-145 | globals back to their initial contents, both heaps emptied, allocators kept |
| Machine.UCMachine.GetString | engines/ultima/ultima8/usecode/uc_machine.cpp:2013-2023 | the result is Heap.GetString of the machine's heaps |
| Machine.UCMachine.GetList | engines/ultima/ultima8/usecode/uc_machine.cpp:2025-2032 | the result is Heap.GetList of the machine's heaps |
| Machine.UCMachine.AssignString | engines/ultima/ultima8/usecode/uc_machine.cpp:2036-2043 | the heaps and handle are those of Heap.AssignString, the globals are unchanged, and a valid machine stays valid |
| Machine.UCMachine.DuplicateString | engines/ultima/ultima8/usecode/uc_machine.cpp:2045-2047 | the heaps and handle are those of Heap.DuplicateString, and a valid machine stays valid |
| Machine.UCMachine.AssignList | engines/ultima/ultima8/usecode/uc_machine.cpp:2050-2058 | the heaps and handle are those of Heap.AssignList, and the machine stays valid |
| Machine.UCMachine.FreeString | engines/ultima/ultima8/usecode/uc_machine.cpp:2060-2070 | the heaps are those of Heap.FreeString, and a valid machine stays valid |
| Machine.UCMachine.FreeList | engines/ultima/ultima8/usecode/uc_machine.cpp:2072-2080 | the heaps are those of Heap.FreeList, and a valid machine stays valid |
| Machine.UCMachine.FreeStringList | engines/ultima/ultima8/usecode/uc_machine.cpp:2082-2090 | the loop of frees and the list free give the heaps of Heap.FreeStringList, and a valid machine stays valid |
| Machine.UCMachine.LoadLists | engines/ultima/ultima8/usecode/uc_machine.cpp:2341-2364 | success exactly when the allocator was read, the count is at most 65536 and every record was read; then the lists are those loaded; a load that stops at the first unreadable record keeps the lists stored before it |
| Machine.UCMachine.ExecProcess | engines/ultima/ultima8/usecode/uc_machine.cpp:152-2010 | heaps, globals, scheduler and process become those of Dispatch.ExecSlice, and list tracking is preserved |
| Intrinsics.ITrue | engines/ultima/ultima8/usecode/uc_machine.cpp:2367-2369 | I_true returns a value every condition reads as true |
| Intrinsics.IFalseAsWritten | engines/ultima/ultima8/usecode/uc_machine.cpp:2371-2373 | I_false as written also returns a true value |
| Intrinsics.IFalse | engines/ultima/ultima8/usecode/uc_machine.cpp:2371-2373 | corrected I_false returns a value every condition reads as false |
| Intrinsics.FalseIsTrue | engines/ultima/ultima8/usecode/uc_machine.cpp:2367-2373 | I_false as written equals I_true for every argument; the corrected one is false |
| Intrinsics.DecimalRoundTrip | engines/ultima/ultima8/usecode/uc_machine.cpp:2386-2393 | the "%d" text of every integer parses back to that integer |
| Intrinsics.NumToStr | engines/ultima/ultima8/usecode/uc_machine.cpp:2386-2393 | the new string is the decimal text of the signed argument, at most six characters so never cut by the 16-byte buffer |

## Left out

- The UCStack, UCList, idMan, BitSet/ByteSet, Kernel and UCProcess classes are not part of this model. They are modelled from the way the machine uses them: a stack buffer with a stack pointer, a list of fixed-width elements, the lowest-free id allocator, a bit array, and the scheduler view `State.Sched`.
- A stack access outside the buffer, a list index past the end, a missing class, a missing list in 0x75/0x76 (the null `getList` result dereferenced at line 1913) and a failed `assert` are undefined behaviour or aborts in the source. The model turns each into an error of the instruction (a fault).
- Machine.UCMachine.ExecProcess: runs at most `fuel` instructions, because Dafny needs a bound. A process that never cedes is not modelled.
- Dispatch.Execute: the machine runs the corrected opcodes of the "## Findings" table, not the source as written. For 0x70 with an unhandled search kind it runs Loops.StartSearch, which stops with the error; the source falls through into 0x73 and frees whatever list handle is on the stack (Loops.StartSearchAsWritten, not dispatched). For 0x21 and 0x23 it runs the wrapping Arith.Div32 and Arith.Mod32, where the source is undefined for INT32_MIN / -1 and INT32_MIN % -1. Dispatch.Step, Dispatch.Run and Machine.UCMachine.ExecProcess inherit both.
- Dispatch.Begin: a process whose class is missing, or whose ip lies past the end of its code, fails before any instruction runs. The source reads the class table and seeks without checking.
- The intrinsic functions are an arbitrary map from argument bytes to a 32-bit result (`Env.intrinsics`), and no intrinsic changes the heaps or the world. I_true, I_false and I_numToStr are modelled as stand-alone functions in module Intrinsics; the dispatcher's 0x0F does not call them.
- I_urandom and I_rndRange (randomness), I_getName (the main actor's name) and I_dummyProcess (a kernel process) are not modelled.
- World searches in 0x70 come from the oracle `Env.search`. Whether an item is alive (`getItem`) comes from `Env.items`.
- The scheduler opcodes 0x54, 0x57, 0x58 and 0x78 are modelled only through `State.Sched` and `Env.newPid` / `Env.processCount`. A spawned process is recorded but not run.
- The stack branch of the pointer functions reaches other processes only through `Sched.stacks`.
- Debug tracing is not modelled, and the line-number opcodes 0x5B/0x5C only skip their operands.
- In 0x0D, the replacement of one German string (lines 313-317) is not modelled.
- In 0x0F, the workaround for the stasis intrinsic (lines 410-413) is not modelled.
- Saving and loading are not modelled: the stream formats of saveGlobals, saveStrings, saveLists and the matching load functions, and idMan's own stream. Machine.UCMachine.LoadLists takes the allocator and the records as already read. When it fails part way, the lists stored so far remain, as in the source.
- The destructor, loadIntrinsics and usecodeStats are not modelled.
- Arith.Add32, Arith.Sub32, Arith.Mul32: signed 32-bit overflow is undefined in C++ (uc_machine.cpp:475-477, 612-614, 628-630). The model wraps modulo 2^32, as compilers do in practice.
- Words.Shl16: a shift count of 32 or more is undefined in C++. The model gives 0, the same as for counts 16 to 31.
- Words.Sar16: counts of 15 or more are modelled as 15. The source shifts the promoted int by the full count, which is undefined from 32 on.
- Frame.ExecFrame: its contract states only what a frame opcode leaves unchanged. The effect on the stack is proved for 0x01-0x03 (Frame.StoreLocalResult), 0x0A-0x0C (Frame.PushByteResult, Frame.PushImmediateResult) and 0x3E-0x40 (Frame.PushLocalByteResult, Frame.PushLocalResult), not for the other frame opcodes.
- Control.ExecControl: its contract states only what a control opcode leaves unchanged, not each opcode's effect on the stack.
- PointerOps.ExecPointer: its contract states only what a pointer opcode leaves unchanged. Only the builders, the resolver and the 0x4F assertion are proved in detail.
- HeapOps.ExecHeap: its contract is the heap frame. Contents are proved per opcode in the lemmas named below: 0x16, 0x17, 0x19, 0x1A, 0x26, 0x38, 0x42, 0x43, 0x44, 0x6C and the free opcodes.
- HeapOps.UnionSlists: states only the heap frame. The result is stated by HeapOps.UnionSlistsResult and HeapOps.UnionHeap, and what the union keeps by Heap.UnionStrings and Heap.UnionTexts.
- HeapOps.SubtractSlists: states only the heap frame. The result is stated by HeapOps.SubtractSlistsResult and HeapOps.SubtractHeap, and which elements survive by Heap.SubtractStringsKeeps. It has no lemma for a missing list, which pushes b and fails.
- Heap.UnionTexts, Heap.SubtractStringsKeeps, Heap.RemoveStringFilters: the exact results assume that no two elements of the lists involved hold the same string handle, as when each element's string was made for its list. The source tests each element against the heap as the earlier frees left it, so with a shared handle a later element reads the empty text. Without that assumption only the bounds and freeing facts of Heap.UnionStrings, Heap.SubtractStrings and Heap.RemoveString are proved.
- HeapOps.SubtractLists: states only the heap frame. Which elements survive is proved in Lists.SubtractKeeps.
- HeapOps.CompareStrings: states only the heap frame. The pushed truth value and the freeing of both strings are proved in HeapOps.CompareStringsResult.
- HeapOps.InListOp: states only the heap frame. The pushed truth value and the freeing are proved in HeapOps.InListStrings, HeapOps.InListPlain and HeapOps.InListMissing.
- HeapOps.PushStringCopy: states only the heap frame. The copy's text is proved in Heap.DuplicateKeepsText.
- HeapOps.PushListCopy: the new list takes the width yy from the operand and the elements of the source list, whatever that list's own width. A yy that differs from the source list's width is not checked and not reported. The effect of UCList::copyList on such a list is not modelled, because uc_list.h is not part of this model. The result is stated by HeapOps.PushListCopyResult.
- HeapOps.PushSlistCopy: states only the heap frame. The copy is stated by HeapOps.PushSlistCopyResult, for a list whose elements all hold stored strings. It has no lemma for a missing list, which pushes a new empty string list.
- HeapOps.PushElement: states only the heap frame. The pushed element is stated by HeapOps.PushElementMissing, PushElementString, PushElementPlain and PushElementPast.
- HeapOps.PushElement: a width operand xx larger than the element is a fault (HeapOps.PushElementNarrow). The source (line 1139) then copies that many bytes starting at the element, running into the elements after it in the list's buffer, and past the buffer's end for the last element.
- HeapOps.AssignElement: states only the heap frame. The element update is proved in Lists.AssignElem.
- HeapOps.CreateList: states only the heap frame. The gathered elements are proved in HeapOps.Gather.
- HeapOps.ParamCopy: states only the heap frame. The copy, the stored handle and the free-on-terminate entry are stated by HeapOps.ParamCopyResult and HeapOps.ParamCopyHeap.
- HeapOps.PushString: states only the heap frame. The stored text is proved in Heap.GetAfterAssign.
- PointerOps.PushIndirect: states only the pointer-opcode frame. The bytes read are those of Resolver.Dereference.
- PointerOps.PopIndirect: states only the pointer-opcode frame. The write is that of Resolver.AssignPointer.
- PointerOps.PopGlobal: states only the frame. The stored value is proved in Globals.GetAfterSet. The masks of the read-back assertion (lines 1235 and 1237) shift the int 1 by the width in bits, which is undefined behaviour when that width is 32. PointerOps.Masked cuts the value to that many bits instead, so at 32 bits it keeps the whole value, as a mask of 2^32 - 1 would.
- Control.Return: its own contract states only the control frame; the restored registers are stated by Control.ReturnFrame and the round trip by Control.CallReturn.
- Control.Implies: states only the control frame. The recorded wait and the suspension are proved in Control.ImpliesWaits, and the missing-process case in Control.ImpliesMissing.
- Loops.LoopNext: states only the loop frame. Which item it selects is proved in Loops.Scan and Loops.NextOverEmpty.
- Loops.Foreach: states only the loop frame. Its two outcomes are proved in Loops.ForeachDone and Loops.ForeachElement.
- Loops.Foreach: a width operand larger than the element is a fault. The source (line 1936) then copies that many bytes starting at the element, running into the elements after it in the list's buffer, and past the buffer's end for the last element.
- Machine.UCMachine.ExecProcess: preserves list tracking but not the absence of NUL bytes in stored texts, so it does not promise Machine.UCMachine.Valid. The heap operations and the machine's heap methods do preserve that absence (Heap.FreeingKeepsPlain, Heap.CopyStringsKeepsPlain and the StringsPlain clauses of the heap functions), but it is not carried through the dispatcher.
- freeList and freeStringList also check for a null list pointer. Lists here are values, so that case cannot arise.

## Findings

| source | as written | input that shows it | evidently intended | confidence | as-written member | corrected member |
|---|---|---|---|---|---|---|
| engines/ultima/ultima8/usecode/uc_machine.cpp:651-692 | the 32-bit div and mod compute `si32b / si32a` and `si32b % si32a` on int32 values after checking only for a zero divisor | b = 0x80000000 (INT32_MIN), a = 0xFFFFFFFF (-1): the quotient does not fit in int32, which is undefined behaviour (a trap on x86) | wrap like the 16-bit opcodes: INT32_MIN / -1 = INT32_MIN, INT32_MIN % -1 = 0 | not executed | Arith.Div32AsWritten | Arith.Div32 |
| engines/ultima/ultima8/usecode/uc_machine.cpp:1680-1861 | after an unhandled search kind, 0x70 sets the error flag and still falls through into 0x73, which reads a list handle, an index and a variable from whatever the stack holds | search kind 7 with the handle of an empty list on the stack under the popped operands: 0x73 frees that list, which belongs to the caller | end the instruction with the error, without running 0x73 | not executed | Loops.UnhandledSearchFreesList | Loops.StartSearch |
| engines/ultima/ultima8/usecode/uc_machine.cpp:2371-2373 | I_false returns 1 | any call of I_false: a jump-if-false after it is never taken | return 0 | not executed | Intrinsics.FalseIsTrue | Intrinsics.IFalse |
