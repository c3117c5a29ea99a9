/** The opcodes that work on the string and list heaps: building, copying,
    combining, searching and freeing strings and lists whose handles live on
    the process stack. */
module HeapOps {
  import opened Words
  import opened Wrappers
  import Stacks
  import opened Lists
  import opened Heap
  import opened State
  import opened Opcodes

  /** What a heap opcode leaves alone: the code position, the instruction
      pointer, the process id, the globals and the scheduler; and it keeps
      every stored list under an id its allocator handed out. */
  predicate HeapStep(s: Slice, t: Slice)
  {
    t.p.ip == s.p.ip && t.p.pid == s.p.pid && t.p.bp == s.p.bp && t.code == s.code && t.pos == s.pos
    && t.g == s.g && t.k == s.k && (ListsTracked(s.h) ==> ListsTracked(t.h))
  }

  /** Replace list l (which exists) by nl. */
  function SetList(s: Slice, l: u16, nl: UCList): (r: Slice)
    ensures r.h.lists == s.h.lists[l := nl]
    ensures r.h.strings == s.h.strings && r.h.stringIds == s.h.stringIds && r.h.listIds == s.h.listIds
  {
    s.(h := s.h.(lists := s.h.lists[l := nl]))
  }

  /** 0x0D: push a literal string (the bytes before the first NUL) as a new
      handle; a missing zero terminator is an error after the push. */
  function PushString(s: Slice, text: seq<u8>, terminator: u8): (r: Option<Slice>)
    ensures r.Some? ==> HeapStep(s, r.value)
  {
    var (h1, id) := AssignString(s.h, text);
    var s1 :- Push2(WithHeaps(s, h1), id);
    Some(if terminator != 0 then Fail(s1) else s1)
  }

  /** 0x09 xx yy zz: pop an index (counted from 1), then overwrite that
      element of the list in bp+xx with the element-width bytes on top of
      the stack; a string list pops one handle, a plain list yy bytes. */
  function AssignElement(s: Slice, slot: u8, size: u8, slist: u8): (r: Option<Slice>)
    ensures r.Some? ==> HeapStep(s, r.value)
  {
    var (ix, s1) :- Pop2(s);
    var index := Pred16(ix);
    var lid :- Read2(s1, Local(s1, S8(slot)));
    if lid !in s1.h.lists then Some(Fail(s1))
    else
      var l := s1.h.lists[lid];
      var e :- Read(s1, SP(s1), l.elemSize);
      var l1 :- AssignElem(l, index, e);
      var s2 := SetList(s1, lid, l1);
      if S8(slist) != 0 then
        var (_, s3) :- Pop2(s2);
        Some(if size != 2 then Fail(s3) else s3)
      else Some(MoveSP(s2, size))
  }

  /** The count values of width size on the stack from offset base up, in
      the order they were pushed: the deepest first. */
  function Gather(st: Stacks.UCStack, base: int, size: nat, count: nat): (r: Option<seq<seq<u8>>>)
    ensures r.Some? ==> |r.value| == count
    ensures r.Some? ==> forall i :: 0 <= i < count ==>
      Stacks.Access(st, base + size * (count - 1 - i), size) == Some(r.value[i])
    decreases count
  {
    if count == 0 then Some([])
    else
      var e :- Stacks.Access(st, base + size * (count - 1), size);
      var rest :- Gather(st, base, size, count - 1);
      Some([e] + rest)
  }

  /** 0x0E xx yy: pop yy values of width xx into a new list, the first
      pushed first, and push its handle. */
  function CreateList(s: Slice, size: u8, count: u8): (r: Option<Slice>)
    ensures r.Some? ==> HeapStep(s, r.value)
  {
    var elems :- Gather(s.p.stack, SP(s), size, count);
    var s1 := MoveSP(s, size * count);
    var (h1, id) := AssignList(s1.h, UCList(size, elems));
    Push2(WithHeaps(s1, h1), id)
  }

  /** The heaps after 0x16 appends the text of a to string b (creating b
      empty if unknown) and frees a. Concatenating a string to itself
      frees it. */
  function ConcatHeap(h: Heaps, a: u16, b: u16): (r: Heaps)
    ensures a != b ==> GetString(r, b) == GetString(h, b) + GetString(h, a) && a !in r.strings
    ensures a == b ==> b !in r.strings
    ensures forall x :: x != a && x != b ==> GetString(r, x) == GetString(h, x)
    ensures r.lists == h.lists && r.listIds == h.listIds
  {
    FreeString(h.(strings := h.strings[b := GetString(h, b) + GetString(h, a)]), a)
  }

  /** 0x16: pop a then b, append the text of a to string b, free a and
      push b; b == 0 is an error. */
  function Concat(s: Slice): (r: Option<Slice>)
    ensures r.Some? ==> HeapStep(s, r.value)
  {
    var (a, s1) :- Pop2(s);
    var (b, s2) :- Pop2(s1);
    if b == 0 then Some(Fail(s2))
    else Push2(WithHeaps(s2, ConcatHeap(s2.h, a, b)), b)
  }

  /** The heaps after 0x17 appends list a to list b (both present and
      distinct) and frees a; lists of different widths are not appended. */
  function AppendHeap(h: Heaps, a: u16, b: u16): (r: Heaps)
    requires a in h.lists && b in h.lists && a != b
    ensures a !in r.lists && b in r.lists
    ensures h.lists[a].elemSize == h.lists[b].elemSize ==>
      r.lists[b].elems == h.lists[b].elems + h.lists[a].elems && r.lists[b].elemSize == h.lists[b].elemSize
    ensures h.lists[a].elemSize != h.lists[b].elemSize ==> r.lists[b] == h.lists[b]
    ensures forall l :: l in r.lists && l != b ==> l in h.lists && r.lists[l] == h.lists[l]
    ensures r.strings == h.strings && r.stringIds == h.stringIds
    ensures ListsTracked(h) ==> ListsTracked(r)
  {
    var la := h.lists[a];
    var lb := h.lists[b];
    var h1 := if la.elemSize != lb.elemSize then h else h.(lists := h.lists[b := AppendList(lb, la)]);
    FreeList(h1, a)
  }

  /** 0x17: pop a then b. With both lists present, append a to b (an error,
      and no append, when their widths differ), free a and push b; appending
      a list to itself fails an assertion. Otherwise push whichever exists,
      or 0. */
  function AppendLists(s: Slice): (r: Option<Slice>)
    ensures r.Some? ==> HeapStep(s, r.value)
  {
    var (a, s1) :- Pop2(s);
    var (b, s2) :- Pop2(s1);
    if a in s2.h.lists && b in s2.h.lists then
      if a == b then None
      else
        var s3 :- Push2(WithHeaps(s2, AppendHeap(s2.h, a, b)), b);
        Some(if s2.h.lists[a].elemSize != s2.h.lists[b].elemSize then Fail(s3) else s3)
    else
      Push2(s2, if a in s2.h.lists then a else if b in s2.h.lists then b else 0)
  }

  /** The heaps after 0x19 adds the strings of slist a to slist b and frees
      the emptied a: b holds what unionStringList leaves in it, a is gone,
      and the strings are those the union leaves (a's own strings moved or
      were freed by it). */
  function UnionHeap(h: Heaps, a: u16, b: u16): (r: Heaps)
    requires a in h.lists && b in h.lists
    ensures var u := UnionStrings(h, h.lists[b].elems, h.lists[a].elems);
      a != b ==> (b in r.lists && r.lists[b] == h.lists[b].(elems := u.1)
        && r.strings == u.0.strings && r.stringIds == u.0.stringIds)
    ensures a !in r.lists
    ensures forall l :: l in r.lists && l != b ==> l in h.lists && r.lists[l] == h.lists[l]
    ensures ListsTracked(h) ==> ListsTracked(r)
  {
    var u := UnionStrings(h, h.lists[b].elems, h.lists[a].elems);
    var h1 := u.0.(lists := u.0.lists[b := h.lists[b].(elems := u.1)]);
    var h2 := h1.(lists := h1.lists[a := h1.lists[a].(elems := [])]);
    assert Handles(h2.lists[a].elems) == [];
    var r := FreeStringList(h2, a);
    assert r.strings.Keys == h2.strings.Keys;
    r
  }

  /** 0x19 02: pop a then b; add the strings of slist a to slist b, freeing
      the duplicates, free the emptied slist a and push b. */
  function UnionSlists(s: Slice, width: u8): (r: Option<Slice>)
    ensures r.Some? ==> HeapStep(s, r.value)
  {
    var (a, s1) :- Pop2(s);
    var (b, s2) :- Pop2(s1);
    var s3 :=
      if a !in s2.h.lists || b !in s2.h.lists then Fail(s2)
      else WithHeaps(s2, UnionHeap(s2.h, a, b));
    var s5 :- Push2(s3, b);
    Some(if width != 2 then Fail(s5) else s5)
  }

  /** The heaps after 0x1A removes from slist b the strings whose text is
      in slist a and frees a: b holds what subtractStringList leaves of it,
      a is gone with all of its strings, and no string survives that the
      subtraction freed. */
  function SubtractHeap(h: Heaps, a: u16, b: u16): (r: Heaps)
    requires a in h.lists && b in h.lists
    ensures var u := SubtractStrings(h, h.lists[b].elems, h.lists[a].elems);
      a != b ==> (b in r.lists && r.lists[b] == h.lists[b].(elems := u.1)
        && forall x :: x in r.strings ==> x in u.0.strings && r.strings[x] == u.0.strings[x])
    ensures a !in r.lists
    ensures forall x :: x in h.lists[a].elems ==> ElemHandle(x) !in r.strings
    ensures forall l :: l in r.lists && l != b ==> l in h.lists && r.lists[l] == h.lists[l]
    ensures ListsTracked(h) ==> ListsTracked(r)
  {
    var u := SubtractStrings(h, h.lists[b].elems, h.lists[a].elems);
    var h1 := u.0.(lists := u.0.lists[b := h.lists[b].(elems := u.1)]);
    var r := FreeStringList(h1, a);
    forall x | x in h.lists[a].elems && a != b ensures ElemHandle(x) !in r.strings {
      var i :| 0 <= i < |h.lists[a].elems| && h.lists[a].elems[i] == x;
      assert Handles(h1.lists[a].elems)[i] == ElemHandle(x);
    }
    r
  }

  /** 0x1A 02: pop a then b; remove from slist b (freeing them) the strings
      whose text is in slist a, free slist a and push b. */
  function SubtractSlists(s: Slice): (r: Option<Slice>)
    ensures r.Some? ==> HeapStep(s, r.value)
  {
    var (a, s1) :- Pop2(s);
    var (b, s2) :- Pop2(s1);
    if a !in s2.h.lists || b !in s2.h.lists then
      var s3 :- Push2(s2, b);
      Some(Fail(s3))
    else
      Push2(WithHeaps(s2, SubtractHeap(s2.h, a, b)), b)
  }

  /** 0x1B xx: pop a then b; remove from list b every element matching one
      of list a, free list a and push b. */
  function SubtractLists(s: Slice): (r: Option<Slice>)
    ensures r.Some? ==> HeapStep(s, r.value)
  {
    var (a, s1) :- Pop2(s);
    var (b, s2) :- Pop2(s1);
    if a !in s2.h.lists || b !in s2.h.lists then
      var s3 :- Push2(s2, b);
      Some(Fail(s3))
    else
      var s3 := SetList(s2, b, SubtractList(s2.h.lists[b], s2.h.lists[a]));
      Push2(WithHeaps(s3, FreeList(s3.h, a)), b)
  }

  /** Strings a and b hold the same text (an unknown handle holds the empty
      one). */
  predicate SameText(h: Heaps, a: u16, b: u16)
  {
    GetString(h, b) == GetString(h, a)
  }

  /** The heaps after 0x26 frees both of its strings: a first, then b. */
  function FreeBoth(h: Heaps, a: u16, b: u16): (r: Heaps)
    ensures a !in r.strings && b !in r.strings
    ensures forall x :: x != a && x != b ==> GetString(r, x) == GetString(h, x)
    ensures r.lists == h.lists && r.listIds == h.listIds
  {
    FreeString(FreeString(h, a), b)
  }

  /** 0x26: pop a then b, push whether their texts are equal, free both. */
  function CompareStrings(s: Slice): (r: Option<Slice>)
    ensures r.Some? ==> HeapStep(s, r.value)
  {
    var (a, s1) :- Pop2(s);
    var (b, s2) :- Pop2(s1);
    var s3 :- PushBool(s2, SameText(s2.h, a, b));
    Some(WithHeaps(s3, FreeBoth(s3.h, a, b)))
  }

  /** 0x38 xx yy: pop a list handle and test whether the value under it (a
      string handle for a string list, else xx bytes) is in the list; push
      the answer and free the list. */
  function InListOp(s: Slice, size: u8, slist: u8): (r: Option<Slice>)
    ensures r.Some? ==> HeapStep(s, r.value)
  {
    var (lid, s1) :- Pop2(s);
    InListOf(s1, lid, size, slist)
  }

  /** The rest of 0x38 once the list handle lid is popped. */
  function InListOf(s: Slice, lid: u16, size: u8, slist: u8): (r: Option<Slice>)
    ensures r.Some? ==> HeapStep(s, r.value)
  {
    if lid !in s.h.lists then Some(Fail(s))
    else
      var l := s.h.lists[lid];
      if slist != 0 then
        var (x, s2) :- Pop2(s);
        var s3 :- PushBool(s2, StringInList(s2.h, l.elems, x));
        var s4 := WithHeaps(s3, FreeStringList(s3.h, lid));
        Some(if size != 2 then Fail(s4) else s4)
      else
        var e :- Read(s, SP(s), l.elemSize);
        var s3 :- PushBool(MoveSP(s, size), InList(l, e));
        Some(WithHeaps(s3, FreeList(s3.h, lid)))
  }

  /** 0x38 with list handle lid on top pops it and goes on with the rest. */
  lemma InListPops(s: Slice, lid: u16, size: u8, slist: u8)
    requires Read2(s, SP(s)) == Some(lid)
    ensures InListOp(s, size, slist) == InListOf(MoveSP(s, 2), lid, size, slist)
  {
    Pop2Reads(s, lid);
  }

  /** 0x41 xx: push a copy of the string in bp+xx. */
  function PushStringCopy(s: Slice, slot: u8): (r: Option<Slice>)
    ensures r.Some? ==> HeapStep(s, r.value)
  {
    var str :- Read2(s, Local(s, S8(slot)));
    var (h1, d) := DuplicateString(s.h, str);
    Push2(WithHeaps(s, h1), d)
  }

  /** The list 0x42 builds: width yy, holding the elements of the list in
      the slot (none when there is no such list). */
  function ListCopy(h: Heaps, lid: u16, size: u8): (r: UCList)
    ensures r.elemSize == size
    ensures lid in h.lists ==> r.elems == h.lists[lid].elems
    ensures lid !in h.lists ==> r.elems == []
  {
    UCList(size, if lid in h.lists then h.lists[lid].elems else [])
  }

  /** 0x42 xx yy: push a new list of width yy holding the elements of the
      list in bp+xx (an empty one when there is none). */
  function PushListCopy(s: Slice, slot: u8, size: u8): (r: Option<Slice>)
    ensures r.Some? ==> HeapStep(s, r.value)
  {
    var lid :- Read2(s, Local(s, S8(slot)));
    var (h1, d) := AssignList(s.h, ListCopy(s.h, lid, size));
    Push2(WithHeaps(s, h1), d)
  }

  /** 0x43 xx: push a copy of the string list in bp+xx whose strings are
      themselves copies (an empty one when there is none). */
  function PushSlistCopy(s: Slice, slot: u8): (r: Option<Slice>)
    ensures r.Some? ==> HeapStep(s, r.value)
  {
    var lid :- Read2(s, Local(s, S8(slot)));
    var (h1, elems) := if lid in s.h.lists then CopyStrings(s.h, s.h.lists[lid].elems) else (s.h, []);
    var (h2, d) := AssignList(h1, UCList(2, elems));
    Push2(WithHeaps(s, h2), d)
  }

  /** 0x44 xx yy: pop an index (from 1) and a list; push a copy of the
      indexed string of a string list, or the first xx bytes of the indexed
      element (nothing past the end); a missing list pushes xx zero bytes. */
  function PushElement(s: Slice, size: u8, slist: u8): (r: Option<Slice>)
    ensures r.Some? ==> HeapStep(s, r.value)
  {
    var ix :- Read2(s, SP(s));
    var lid :- Read2(s, SP(s) + 2);
    PushIndexed(MoveSP(s, 4), lid, Pred16(ix), size, slist)
  }

  /** What 0x44 pushes once the index (now counted from 0) and the list
      handle are popped. */
  function PushIndexed(s: Slice, lid: u16, index: u16, size: u8, slist: u8): (r: Option<Slice>)
    ensures r.Some? ==> HeapStep(s, r.value)
  {
    if lid !in s.h.lists then Push0(s, size)
    else
      var l := s.h.lists[lid];
      if slist != 0 then
        var str :- StringIndex(l, index);
        var (h1, d) := DuplicateString(s.h, str);
        Push2(WithHeaps(s, h1), d)
      else if index < |l.elems| then
        if size <= |l.elems[index]| then PushN(s, l.elems[index][..size]) else None
      else Some(s)
  }

  /** What a free opcode releases: a string, a string list (its strings
      too) or a list. */
  datatype Kind = KString | KStringList | KList

  function FreeKind(h: Heaps, kind: Kind, handle: u16): (r: Heaps)
  {
    match kind
    case KString => FreeString(h, handle)
    case KStringList => FreeStringList(h, handle)
    case KList => FreeList(h, handle)
  }

  /** 0x62-0x64 xx: free the string / string list / list whose handle is in
      bp+xx; 0x65-0x67 xx: the same for the handle at sp+xx. */
  function FreeAt(s: Slice, kind: Kind, off: int): (r: Option<Slice>)
    ensures r.Some? ==> HeapStep(s, r.value)
    ensures r.Some? <==> Read2(s, off).Some?
    ensures r.Some? ==> r.value == WithHeaps(s, FreeKind(s.h, kind, Read2(s, off).value))
  {
    var handle :- Read2(s, off);
    Some(WithHeaps(s, FreeKind(s.h, kind, handle)))
  }

  /** The copy 0x6C makes of handle old_ and its new handle: kind 1 a
      fresh string reading the same C string, kind 2 a fresh string list
      of as many elements, kind 3 a fresh list equal to the old one (0 when
      the allocator is exhausted); a missing list or another kind copies
      nothing and gives 0. */
  function ParamCopyHeap(h: Heaps, old_: u16, kind: u8): (r: (Heaps, u16))
    ensures kind == 1 && r.1 != 0 ==> r.1 !in h.stringIds.used && GetString(r.0, r.1) == CStr(GetString(h, old_))
    ensures kind == 2 && old_ in h.lists && r.1 != 0 ==> (r.1 !in h.listIds.used && r.1 in r.0.lists
      && r.0.lists[r.1].elemSize == 2 && |r.0.lists[r.1].elems| == |h.lists[old_].elems|)
    ensures kind == 3 && old_ in h.lists && r.1 != 0 ==> r.1 !in h.listIds.used && r.0.lists == h.lists[r.1 := h.lists[old_]]
    ensures kind == 0 || kind > 3 || (kind > 1 && old_ !in h.lists) ==> r == (h, 0)
    ensures ListsTracked(h) ==> ListsTracked(r.0)
  {
    if kind == 1 then DuplicateString(h, old_)
    else if kind == 2 && old_ in h.lists then
      var (h0, elems) := CopyStrings(h, h.lists[old_].elems);
      AssignList(h0, UCList(2, elems))
    else if kind == 3 && old_ in h.lists then AssignList(h, h.lists[old_])
    else (h, 0)
  }

  /** 0x6C xx yy: replace the handle in bp+xx by a copy of what it refers
      to (1 string, 2 string list, 3 list; a missing list copies as 0) and
      register the copy to be freed when the process ends; another kind is
      an error and stores 0. */
  function ParamCopy(s: Slice, slot: u8, kind: u8): (r: Option<Slice>)
    ensures r.Some? ==> HeapStep(s, r.value)
  {
    var off := Local(s, S8(slot));
    var old_ :- Read2(s, off);
    var (h1, nb) := ParamCopyHeap(s.h, old_, kind);
    var s1 :- Write2(WithHeaps(s, h1), off, nb);
    var s2 := s1.(p := s1.p.(freeMe := s1.p.freeMe + [(nb, kind)]));
    Some(if kind == 0 || kind > 3 then Fail(s2) else s2)
  }

  predicate IsHeapOp(op: u8)
  {
    op == 0x09 || op == 0x0E || op == 0x16 || op == 0x17 || op == 0x19 || op == 0x1A || op == 0x1B
    || op == 0x26 || op == 0x38 || op == 0x41 || op == 0x42 || op == 0x43 || op == 0x44
    || op == 0x62 || op == 0x63 || op == 0x64 || op == 0x65 || op == 0x66 || op == 0x67
    || op == 0x6C
  }

  /** One heap opcode, with its operand bytes. */
  function ExecHeap(s: Slice, op: u8, arg: seq<u8>): (r: Option<Slice>)
    requires IsHeapOp(op) && |arg| == Operands(op)
    ensures r.Some? ==> HeapStep(s, r.value)
  {
    match op
    case 0x09 => AssignElement(s, arg[0], arg[1], arg[2])
    case 0x0E => CreateList(s, arg[0], arg[1])
    case 0x16 => Concat(s)
    case 0x17 => AppendLists(s)
    case 0x19 => UnionSlists(s, arg[0])
    case 0x1A => SubtractSlists(s)
    case 0x1B => SubtractLists(s)
    case 0x26 => CompareStrings(s)
    case 0x38 => InListOp(s, arg[0], arg[1])
    case 0x41 => PushStringCopy(s, arg[0])
    case 0x42 => PushListCopy(s, arg[0], arg[1])
    case 0x43 => PushSlistCopy(s, arg[0])
    case 0x44 => PushElement(s, arg[0], arg[1])
    case 0x62 => FreeAt(s, KString, Local(s, S8(arg[0])))
    case 0x63 => FreeAt(s, KStringList, Local(s, S8(arg[0])))
    case 0x64 => FreeAt(s, KList, Local(s, S8(arg[0])))
    case 0x65 => FreeAt(s, KString, SP(s) + S8(arg[0]))
    case 0x66 => FreeAt(s, KList, SP(s) + S8(arg[0]))
    case 0x67 => FreeAt(s, KStringList, SP(s) + S8(arg[0]))
    case 0x6C => ParamCopy(s, arg[0], arg[1])
  }

  /** 0x16 with a on top and b under it: for b == 0 the opcode fails with
      the two handles popped and the heaps untouched; otherwise b replaces
      the two handles and the heaps are those of ConcatHeap. */
  lemma ConcatResult(s: Slice, a: u16, b: u16)
    requires Read2(s, SP(s)) == Some(a) && Read2(s, SP(s) + 2) == Some(b)
    ensures b == 0 ==> Concat(s) == Some(Fail(MoveSP(s, 4)))
    ensures b != 0 ==> Concat(s).Some?
    ensures b != 0 ==> var t := Concat(s).value;
      t.error == s.error && SP(t) == SP(s) + 2 && Read2(t, SP(t)) == Some(b) && t.h == ConcatHeap(s.h, a, b)
  {
    PopTwo2(s, a, b);
    var s2 := MoveSP(s, 4);
    if b != 0 {
      Push2Reads(WithHeaps(s2, ConcatHeap(s2.h, a, b)), b);
    }
  }

  /** 0x17 with two distinct lists a (on top) and b: b is pushed back, the
      heaps are those of AppendHeap, and the opcode fails exactly when the
      widths differ; with a == b the source's assertion fails. */
  lemma AppendBoth(s: Slice, a: u16, b: u16)
    requires Read2(s, SP(s)) == Some(a) && Read2(s, SP(s) + 2) == Some(b)
    requires a in s.h.lists && b in s.h.lists
    ensures a == b ==> AppendLists(s).None?
    ensures a != b ==> AppendLists(s).Some?
    ensures a != b ==> var t := AppendLists(s).value;
      SP(t) == SP(s) + 2 && Read2(t, SP(t)) == Some(b) && t.h == AppendHeap(s.h, a, b)
      && (t.error <==> s.error || s.h.lists[a].elemSize != s.h.lists[b].elemSize)
  {
    PopTwo2(s, a, b);
    var s2 := MoveSP(s, 4);
    if a != b {
      Push2Reads(WithHeaps(s2, AppendHeap(s2.h, a, b)), b);
    }
  }

  /** 0x17 when a list is missing: the one that exists is pushed (a
      first), or 0 when neither does, and the heaps are untouched. */
  lemma AppendMissing(s: Slice, a: u16, b: u16)
    requires Read2(s, SP(s)) == Some(a) && Read2(s, SP(s) + 2) == Some(b)
    requires a !in s.h.lists || b !in s.h.lists
    ensures AppendLists(s).Some?
    ensures var t := AppendLists(s).value;
      SP(t) == SP(s) + 2 && t.h == s.h && t.error == s.error
      && Read2(t, SP(t)) == Some(if a in s.h.lists then a else if b in s.h.lists then b else 0)
  {
    PopTwo2(s, a, b);
    var s2 := MoveSP(s, 4);
    Push2Reads(s2, if a in s2.h.lists then a else if b in s2.h.lists then b else 0);
  }

  /** 0x26 with a on top and b under it replaces the two handles by one
      16-bit word, 1 exactly when the two texts are equal, and frees both
      strings. */
  lemma CompareStringsResult(s: Slice, a: u16, b: u16)
    requires Read2(s, SP(s)) == Some(a) && Read2(s, SP(s) + 2) == Some(b)
    ensures CompareStrings(s).Some?
    ensures var t := CompareStrings(s).value;
      SP(t) == SP(s) + 2 && t.error == s.error && t.h == FreeBoth(s.h, a, b)
      && Read2(t, SP(t)) == Some(if SameText(s.h, a, b) then 1 else 0)
  {
    PopTwo2(s, a, b);
    var v := if SameText(s.h, a, b) then 1 else 0;
    Push2Reads(MoveSP(s, 4), v);
  }

  /** 0x19 02 with both string lists present, a on top of b: b replaces
      the two handles, the heaps become UnionHeap's, and the opcode fails
      only for a width other than 2. */
  lemma UnionSlistsResult(s: Slice, a: u16, b: u16, width: u8)
    requires Read2(s, SP(s)) == Some(a) && Read2(s, SP(s) + 2) == Some(b)
    requires a in s.h.lists && b in s.h.lists
    ensures UnionSlists(s, width).Some?
    ensures var t := UnionSlists(s, width).value;
      SP(t) == SP(s) + 2 && Read2(t, SP(t)) == Some(b) && (t.error <==> s.error || width != 2)
      && t.h == UnionHeap(s.h, a, b)
  {
    PopTwo2(s, a, b);
    var s2 := MoveSP(s, 4);
    Push2Reads(WithHeaps(s2, UnionHeap(s2.h, a, b)), b);
  }

  /** 0x19 02 when a list is missing: b replaces the two handles, the heaps
      are untouched and the opcode fails. */
  lemma UnionSlistsMissing(s: Slice, a: u16, b: u16, width: u8)
    requires Read2(s, SP(s)) == Some(a) && Read2(s, SP(s) + 2) == Some(b)
    requires a !in s.h.lists || b !in s.h.lists
    ensures UnionSlists(s, width).Some?
    ensures var t := UnionSlists(s, width).value;
      SP(t) == SP(s) + 2 && Read2(t, SP(t)) == Some(b) && t.error && t.h == s.h
  {
    PopTwo2(s, a, b);
    Push2Reads(Fail(MoveSP(s, 4)), b);
  }

  /** 0x1A 02 with both string lists present, a on top of b: b replaces
      the two handles and the heaps become SubtractHeap's. */
  lemma SubtractSlistsResult(s: Slice, a: u16, b: u16)
    requires Read2(s, SP(s)) == Some(a) && Read2(s, SP(s) + 2) == Some(b)
    requires a in s.h.lists && b in s.h.lists
    ensures SubtractSlists(s).Some?
    ensures var t := SubtractSlists(s).value;
      SP(t) == SP(s) + 2 && Read2(t, SP(t)) == Some(b) && t.error == s.error && t.h == SubtractHeap(s.h, a, b)
  {
    PopTwo2(s, a, b);
    var s2 := MoveSP(s, 4);
    Push2Reads(WithHeaps(s2, SubtractHeap(s2.h, a, b)), b);
  }

  /** 0x38 xx 01 with a string list lid on top and a string handle x under
      it: the two are replaced by 1 exactly when some element has the text
      of x, the list and its strings are freed, and the opcode fails only
      for a width other than 2. */
  lemma InListStrings(s: Slice, lid: u16, x: u16, size: u8, slist: u8)
    requires Read2(s, SP(s)) == Some(lid) && Read2(s, SP(s) + 2) == Some(x)
    requires lid in s.h.lists && slist != 0
    ensures InListOp(s, size, slist).Some?
    ensures var t := InListOp(s, size, slist).value;
      SP(t) == SP(s) + 2 && t.h == FreeStringList(s.h, lid) && (t.error <==> s.error || size != 2)
      && Read2(t, SP(t)) == Some(if StringInList(s.h, s.h.lists[lid].elems, x) then 1 else 0)
  {
    InListPops(s, lid, size, slist);
    var s1 := MoveSP(s, 2);
    var s2 := MoveSP(s, 4);
    Pop2Reads(s1, x);
    assert Pop2(s1) == Some((x, s2));
    InListOfStrings(s1, lid, x, s2, size, slist);
    assert s1.h == s.h && SP(s2) == SP(s) + 4;
  }

  /** The string branch of InListOf once the value x is popped. */
  lemma InListOfStrings(s: Slice, lid: u16, x: u16, s2: Slice, size: u8, slist: u8)
    requires lid in s.h.lists && slist != 0 && Pop2(s) == Some((x, s2))
    ensures InListOf(s, lid, size, slist).Some?
    ensures var t := InListOf(s, lid, size, slist).value;
      SP(t) == SP(s2) - 2 && t.h == FreeStringList(s.h, lid) && (t.error <==> s.error || size != 2)
      && Read2(t, SP(t)) == Some(if StringInList(s.h, s.h.lists[lid].elems, x) then 1 else 0)
  {
    var v := if StringInList(s.h, s.h.lists[lid].elems, x) then 1 else 0;
    Push2Reads(s2, v);
  }

  /** 0x38 xx 00 with a list lid on top of a value e of the list's width:
      the handle and xx bytes are replaced by 1 exactly when e is an element
      of the list, and the list is freed. */
  lemma InListPlain(s: Slice, lid: u16, size: u8)
    requires Read2(s, SP(s)) == Some(lid) && lid in s.h.lists
    requires Read(s, SP(s) + 2, s.h.lists[lid].elemSize).Some?
    requires Stacks.InBuffer(s.p.stack, SP(s) + size, 2)
    ensures InListOp(s, size, 0).Some?
    ensures var e := Read(s, SP(s) + 2, s.h.lists[lid].elemSize).value;
      var t := InListOp(s, size, 0).value;
      SP(t) == SP(s) + size && t.h == FreeList(s.h, lid) && t.error == s.error
      && Read2(t, SP(t)) == Some(if InList(s.h.lists[lid], e) then 1 else 0)
  {
    InListPops(s, lid, size, 0);
    var l := s.h.lists[lid];
    var e := Read(s, SP(s) + 2, l.elemSize).value;
    var s1 := MoveSP(s, 2);
    assert Read(s1, SP(s1), l.elemSize) == Some(e);
    Push2Reads(MoveSP(s1, size), if InList(l, e) then 1 else 0);
  }

  /** 0x38 with no list under the handle on top: the handle is popped and
      the opcode fails. */
  lemma InListMissing(s: Slice, lid: u16, size: u8, slist: u8)
    requires Read2(s, SP(s)) == Some(lid) && lid !in s.h.lists
    ensures InListOp(s, size, slist) == Some(Fail(MoveSP(s, 2)))
  {
    InListPops(s, lid, size, slist);
  }

  /** 0x42 xx yy: a new list of width yy holding the elements of the list
      in bp+xx (none when there is no such list) is stored under a handle
      the allocator had not handed out, and that handle is pushed; when the
      allocator is exhausted 0 is pushed and the heaps are untouched. */
  lemma PushListCopyResult(s: Slice, slot: u8, size: u8, lid: u16)
    requires Read2(s, Local(s, S8(slot))) == Some(lid)
    requires Stacks.InBuffer(s.p.stack, SP(s) - 2, 2)
    ensures PushListCopy(s, slot, size).Some?
    ensures var t := PushListCopy(s, slot, size).value;
      SP(t) == SP(s) - 2 && Read2(t, SP(t)).Some? && t.error == s.error
      && t.h.strings == s.h.strings && t.h.stringIds == s.h.stringIds
      && var d := Read2(t, SP(t)).value;
      (d == 0 ==> t.h == s.h)
      && (d != 0 ==>
        d !in s.h.listIds.used
        && t.h.lists == s.h.lists[d := UCList(size, if lid in s.h.lists then s.h.lists[lid].elems else [])])
  {
    var (h1, d) := AssignList(s.h, ListCopy(s.h, lid, size));
    Push2Reads(WithHeaps(s, h1), d);
  }

  /** 0x43 xx: a new string list of duplicates of the strings of the string
      list in bp+xx, one per element, is stored under a fresh handle that is
      pushed (0 when the allocator is exhausted). Each nonzero string handle
      in it is fresh and reads the C string of the text it copies, and
      every string handed out before reads as before. */
  lemma PushSlistCopyResult(s: Slice, slot: u8, lid: u16)
    requires Read2(s, Local(s, S8(slot))) == Some(lid) && lid in s.h.lists
    requires Stacks.InBuffer(s.p.stack, SP(s) - 2, 2)
    requires forall x :: x in s.h.lists[lid].elems ==> ElemHandle(x) in s.h.strings
    requires forall x :: x in s.h.strings ==> x in s.h.stringIds.used
    ensures PushSlistCopy(s, slot).Some?
    ensures var src := s.h.lists[lid].elems;
      var t := PushSlistCopy(s, slot).value;
      SP(t) == SP(s) - 2 && Read2(t, SP(t)).Some? && t.error == s.error
      && (forall x :: x in s.h.stringIds.used ==> GetString(t.h, x) == GetString(s.h, x))
      && var d := Read2(t, SP(t)).value;
      d != 0 ==>
        d !in s.h.listIds.used && d in t.h.lists
        && var copy := t.h.lists[d];
        copy.elemSize == 2 && |copy.elems| == |src|
        && forall i :: 0 <= i < |src| && ElemHandle(copy.elems[i]) != 0 ==>
          ElemHandle(copy.elems[i]) !in s.h.stringIds.used && TextOf(t.h, copy.elems[i]) == CStr(TextOf(s.h, src[i]))
  {
    var src := s.h.lists[lid].elems;
    PushSlistCopyIs(s, slot, lid);
    SlistCopyHeaps(s.h, src);
    var c := CopyStrings(s.h, src);
    var a := AssignList(c.0, UCList(2, c.1));
    Push2Reads(WithHeaps(s, a.0), a.1);
  }

  /** 0x43 on a string list pushes the handle AssignList gives the list of
      copies. */
  lemma PushSlistCopyIs(s: Slice, slot: u8, lid: u16)
    requires Read2(s, Local(s, S8(slot))) == Some(lid) && lid in s.h.lists
    ensures var c := CopyStrings(s.h, s.h.lists[lid].elems);
      var a := AssignList(c.0, UCList(2, c.1));
      PushSlistCopy(s, slot) == Push2(WithHeaps(s, a.0), a.1)
  {
  }

  /** The heaps after 0x43 copies the string list src: every string handed
      out before reads as before, the new list holds the copies, and each
      nonzero copy is a fresh handle reading the C string of the text it
      copies. */
  lemma SlistCopyHeaps(h: Heaps, src: seq<seq<u8>>)
    requires forall x :: x in src ==> ElemHandle(x) in h.strings
    requires forall x :: x in h.strings ==> x in h.stringIds.used
    ensures var c := CopyStrings(h, src);
      var a := AssignList(c.0, UCList(2, c.1));
      (forall x :: x in h.stringIds.used ==> GetString(a.0, x) == GetString(h, x))
      && (a.1 != 0 ==> a.1 !in h.listIds.used && a.1 in a.0.lists && a.0.lists[a.1] == UCList(2, c.1))
      && |c.1| == |src|
      && forall i :: 0 <= i < |src| && ElemHandle(c.1[i]) != 0 ==>
        ElemHandle(c.1[i]) !in h.stringIds.used && TextOf(a.0, c.1[i]) == CStr(TextOf(h, src[i]))
  {
    forall i | 0 <= i < |src| ensures ElemHandle(src[i]) in h.strings {
      assert src[i] in src;
    }
    CopyStringsTexts(h, src);
  }

  /** 0x44 xx yy with an index on top and no list under it: the two words
      are replaced by xx zero bytes. */
  lemma PushElementMissing(s: Slice, ix: u16, lid: u16, size: u8, slist: u8)
    requires Read2(s, SP(s)) == Some(ix) && Read2(s, SP(s) + 2) == Some(lid) && lid !in s.h.lists
    requires Stacks.InBuffer(s.p.stack, SP(s) + 4 - size, size)
    ensures PushElement(s, size, slist).Some?
    ensures var t := PushElement(s, size, slist).value;
      SP(t) == SP(s) + 4 - size && Read(t, SP(t), size) == Some(seq(size, i => 0)) && t.h == s.h && t.error == s.error
  {
  }

  /** 0x44 xx 01 with index ix (counted from 1) on top of a string list:
      the two words are replaced by a fresh handle reading the C string of
      the text of the ix-th element (0 when the allocator is exhausted), and
      no other string changes. */
  lemma PushElementString(s: Slice, ix: u16, lid: u16, size: u8, slist: u8, str: u16)
    requires Read2(s, SP(s)) == Some(ix) && Read2(s, SP(s) + 2) == Some(lid) && lid in s.h.lists
    requires slist != 0 && StringIndex(s.h.lists[lid], Pred16(ix)) == Some(str)
    ensures PushElement(s, size, slist).Some?
    ensures var t := PushElement(s, size, slist).value;
      SP(t) == SP(s) + 2 && Read2(t, SP(t)).Some? && t.error == s.error
      && var d := Read2(t, SP(t)).value;
      (d != 0 ==> d !in s.h.stringIds.used && GetString(t.h, d) == CStr(GetString(s.h, str)))
      && (forall x :: x != d ==> GetString(t.h, x) == GetString(s.h, x))
  {
    PushElementStringIs(s, ix, lid, size, slist, str);
    var (h1, d) := DuplicateString(s.h, str);
    Push2Reads(WithHeaps(MoveSP(s, 4), h1), d);
  }

  /** 0x44 on a string list pops the two words and pushes the handle of the
      duplicate of the indexed string. */
  lemma PushElementStringIs(s: Slice, ix: u16, lid: u16, size: u8, slist: u8, str: u16)
    requires Read2(s, SP(s)) == Some(ix) && Read2(s, SP(s) + 2) == Some(lid) && lid in s.h.lists
    requires slist != 0 && StringIndex(s.h.lists[lid], Pred16(ix)) == Some(str)
    ensures var (h1, d) := DuplicateString(s.h, str);
      PushElement(s, size, slist) == Push2(WithHeaps(MoveSP(s, 4), h1), d)
  {
  }

  /** 0x44 xx 00 with index ix (counted from 1) on top of a plain list:
      the two words are replaced by the first xx bytes of the ix-th
      element. */
  lemma PushElementPlain(s: Slice, ix: u16, lid: u16, size: u8)
    requires Read2(s, SP(s)) == Some(ix) && Read2(s, SP(s) + 2) == Some(lid) && lid in s.h.lists
    requires Pred16(ix) < |s.h.lists[lid].elems| && size <= |s.h.lists[lid].elems[Pred16(ix)]|
    requires Stacks.InBuffer(s.p.stack, SP(s) + 4 - size, size)
    ensures PushElement(s, size, 0).Some?
    ensures var t := PushElement(s, size, 0).value;
      SP(t) == SP(s) + 4 - size && t.h == s.h && t.error == s.error
      && Read(t, SP(t), size) == Some(s.h.lists[lid].elems[Pred16(ix)][..size])
  {
  }

  /** 0x44 xx 00 with an index past the end of the list: the two words are
      popped and nothing is pushed. */
  lemma PushElementPast(s: Slice, ix: u16, lid: u16, size: u8)
    requires Read2(s, SP(s)) == Some(ix) && Read2(s, SP(s) + 2) == Some(lid) && lid in s.h.lists
    requires Pred16(ix) >= |s.h.lists[lid].elems|
    ensures PushElement(s, size, 0) == Some(MoveSP(s, 4))
  {
  }

  /** 0x44 xx 00 with an element narrower than xx bytes: a fault. */
  lemma PushElementNarrow(s: Slice, ix: u16, lid: u16, size: u8)
    requires Read2(s, SP(s)) == Some(ix) && Read2(s, SP(s) + 2) == Some(lid) && lid in s.h.lists
    requires Pred16(ix) < |s.h.lists[lid].elems| && size > |s.h.lists[lid].elems[Pred16(ix)]|
    ensures PushElement(s, size, 0).None?
  {
  }

  /** 0x6C xx yy: the handle in bp+xx is replaced by the handle of the copy
      ParamCopyHeap makes, the heaps become its heaps, (copy, yy) is
      registered to be freed at the end of the process, and the opcode
      fails exactly for a kind other than 1, 2 or 3. */
  lemma ParamCopyResult(s: Slice, slot: u8, kind: u8, old_: u16)
    requires Read2(s, Local(s, S8(slot))) == Some(old_)
    ensures ParamCopy(s, slot, kind).Some?
    ensures var c := ParamCopyHeap(s.h, old_, kind);
      var t := ParamCopy(s, slot, kind).value;
      SP(t) == SP(s) && Read2(t, Local(s, S8(slot))) == Some(c.1) && t.h == c.0
      && t.p.freeMe == s.p.freeMe + [(c.1, kind)] && (t.error <==> s.error || kind == 0 || kind > 3)
  {
    var c := ParamCopyHeap(s.h, old_, kind);
    Write2Reads(WithHeaps(s, c.0), Local(s, S8(slot)), c.1);
  }
}
