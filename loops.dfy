/** The loop opcodes: the world search 0x70 and its iterator 0x73, which
    keep their state in an area on the operand stack, and foreach over a
    list or string list (0x75, 0x76), which keeps a cursor and a list handle
    on top of the stack. */
module Loops {
  import opened Words
  import opened Wrappers
  import opened Globals
  import opened Lists
  import opened Heap
  import opened State
  import Stacks
  import opened Opcodes

  /** What a loop opcode leaves alone: the globals, the scheduler, the code,
      the instruction pointer and the process id; and it keeps every stored
      list under an allocated id. */
  predicate LoopStep(s: Slice, t: Slice)
  {
    t.g == s.g && t.k == s.k && t.code == s.code && t.p.ip == s.p.ip && t.p.pid == s.p.pid
    && t.p.bp == s.p.bp && (ListsTracked(s.h) ==> ListsTracked(t.h))
    && (s.pos <= |s.code| ==> t.pos <= |t.code|)
  }

  predicate IsLoopOp(op: u8)
  {
    op == 0x70 || op == 0x73 || op == 0x75 || op == 0x76
  }

  /** The size of the stack area a search of this kind reserves (2/3 area,
      4/5 container, 6 surface), None for a kind the source does not
      handle. */
  function SearchArea(variant: Variant, kind: u8): (r: Option<nat>)
    ensures r.Some? <==> 2 <= kind <= 6
    ensures r.Some? ==> r.value >= 0x28
  {
    if kind == 2 || kind == 3 then Some(if variant == U8 then 0x34 else 0x3A)
    else if kind == 4 then Some(if variant == U8 then 0x28 else 0x2A)
    else if kind == 5 then Some((if variant == U8 then 0x28 else 0x2A) + 2)
    else if kind == 6 then Some(if variant == U8 then 0x3D else 0x43)
    else None
  }

  /** The list of object ids a search found. */
  function ItemList(items: seq<u16>): (l: UCList)
    ensures l.elemSize == 2 && |l.elems| == |items|
    ensures forall i :: 0 <= i < |items| ==> l.elems[i] == LE16(items[i])
  {
    UCList(2, seq(|items|, i requires 0 <= i < |items| => LE16(items[i])))
  }

  /** Scan a search list from index i on: write each candidate id into the
      loop variable until one names a live item. */
  function Scan(env: Env, s: Slice, elems: seq<seq<u8>>, i: nat, slot: int): (r: Option<(Option<nat>, Slice)>)
    ensures r.Some? && r.value.0.Some? ==>
      i <= r.value.0.value < |elems| && |elems[r.value.0.value]| >= 2
      && FromLE16(elems[r.value.0.value][..2]) in env.items
    ensures r.Some? ==> forall j :: i <= j < |elems| && (r.value.0.None? || j < r.value.0.value) ==>
      |elems[j]| >= 2 && FromLE16(elems[j][..2]) !in env.items
    ensures r.Some? ==> r.value.1 == WithStack(s, r.value.1.p.stack)
    decreases |elems| - i
  {
    if i >= |elems| then Some((None, s))
    else if |elems[i]| < 2 then None
    else
      var s1 :- Write(s, slot, elems[i][..2]);
      if FromLE16(elems[i][..2]) in env.items then Some((Some(i), s1))
      else Scan(env, s1, elems, i + 1, slot)
  }

  /** 0x73: with the search list handle at sp, the index at sp+2 and the
      loop variable's offset at sp+4, find the next live item from the
      index on (left in the variable); push 1 and store the index after it,
      or push 0 and free the list when none is left. A missing list is an
      error. */
  function LoopNext(env: Env, s: Slice): (r: Option<Slice>)
    ensures r.Some? ==> LoopStep(s, r.value) && r.value.pos == s.pos
  {
    var sp := SP(s);
    var lid :- Read2(s, sp);
    var index :- Read2(s, sp + 2);
    var v :- Read2(s, sp + 4);
    if lid !in s.h.lists then Some(Fail(s))
    else
      var (found, s1) :- Scan(env, s, s.h.lists[lid].elems, index, Local(s, S16(v)));
      match found
      case None =>
        var s2 :- Push2(s1, 0);
        Some(WithHeaps(s2, FreeList(s2.h, lid)))
      case Some(i) =>
        var s2 :- Push2(s1, 1);
        Write2(s2, sp + 2, Wrap16(i + 1))
  }

  /** The part of 0x70 xx yy zz before the iteration: pop the two search
      operands and the yy-byte loop script, ask the world for the matching
      items, and lay out the search area: filler, the script, its length,
      the loop variable xx, index 0 and the handle of the item list. An
      unhandled kind is an error and lays out nothing. */
  function SearchSetup(env: Env, s: Slice, slot: u8, scriptSize: u8, kind: u8): (r: Option<Slice>)
    requires scriptSize <= 0x20
    ensures r.Some? ==> LoopStep(s, r.value) && r.value.pos == s.pos
    ensures r.Some? ==> (r.value.error <==> s.error || SearchArea(env.variant, kind).None?)
  {
    var (a, s1) :- Pop2(s);
    var (b, s2) :- Pop2(s1);
    var (script, s3) :- PopN(s2, scriptSize);
    match SearchArea(env.variant, kind)
    case None => Some(Fail(s3))
    case Some(area) =>
      var items := env.search(kind, a, b, script);
      var s4 :- Push0(s3, area - scriptSize - 8);
      var s5 :- PushN(s4, script);
      var s6 :- Push2(s5, scriptSize);
      var s7 :- Push2(s6, Wrap16(S8(slot)));
      var s8 :- Push2(s7, 0);
      var (h1, id) := AssignList(s8.h, ItemList(items));
      Push2(WithHeaps(s8, h1), id)
  }

  /** 0x70 as the source has it: a script longer than 0x20 bytes is an
      error, and otherwise the case falls through into 0x73, even when the
      search kind was unhandled and nothing was laid out. */
  function StartSearchAsWritten(env: Env, s: Slice, slot: u8, scriptSize: u8, kind: u8): (r: Option<Slice>)
  {
    var (a, s1) :- Pop2(s);
    var (b, s2) :- Pop2(s1);
    if scriptSize > 0x20 then Some(Fail(s2))
    else
      var s3 :- SearchSetup(env, s, slot, scriptSize, kind);
      LoopNext(env, s3)
  }

  /** 0x70 as evidently intended: after an unhandled search kind, stop with
      the error instead of running 0x73 on whatever the stack holds. */
  function StartSearch(env: Env, s: Slice, slot: u8, scriptSize: u8, kind: u8): (r: Option<Slice>)
    ensures r.Some? ==> LoopStep(s, r.value) && r.value.pos == s.pos
    ensures r.Some? && !s.error && SearchArea(env.variant, kind).None? ==> r.value.error
  {
    var (a, s1) :- Pop2(s);
    var (b, s2) :- Pop2(s1);
    if scriptSize > 0x20 then Some(Fail(s2))
    else
      var s3 :- SearchSetup(env, s, slot, scriptSize, kind);
      if s3.error then Some(s3) else LoopNext(env, s3)
  }

  /** The cursor after 0xFFFF ("before the first") is 0; otherwise the
      cursor moves on by one. */
  function NextCursor(ix: u16): (c: u16)
    ensures ix == 0xFFFF ==> c == 0
    ensures ix != 0xFFFF ==> c == ix + 1
  {
    if ix == 0xFFFF then 0 else ix + 1
  }

  /** The end of a foreach: free the list (with its strings for 0x76),
      drop the cursor and the handle, and jump by offset. */
  function ForeachEnd(s: Slice, op: u8, lid: u16, offset: u16): (r: Option<Slice>)
    ensures r.Some? <==> Wrap16(s.pos + S16(offset)) <= |s.code|
    ensures r.Some? ==> LoopStep(s, r.value)
    ensures r.Some? ==> var t := r.value;
      t.pos == Wrap16(s.pos + S16(offset)) && SP(t) == SP(s) + 4 && t.error == s.error
      && t.h == (if op == 0x75 then FreeList(s.h, lid) else FreeStringList(s.h, lid))
  {
    var h1 := if op == 0x75 then FreeList(s.h, lid) else FreeStringList(s.h, lid);
    Jump(MoveSP(WithHeaps(s, h1), 4), offset)
  }

  /** One foreach iteration: store the cursor back at sp and copy the
      element bytes e into the loop variable at bp+slot. */
  function ForeachStore(s: Slice, slot: u8, cursor: u16, e: seq<u8>): (r: Option<Slice>)
    ensures r.Some? ==> LoopStep(s, r.value)
    ensures r.Some? ==> var t := r.value;
      t.pos == s.pos && t.h == s.h && SP(t) == SP(s) && t.error == s.error
      && Read(t, Local(s, S8(slot)), |e|) == Some(e)
    ensures r.Some? && (Local(s, S8(slot)) + |e| <= SP(s) || SP(s) + 2 <= Local(s, S8(slot))) ==>
      Read2(r.value, SP(s)) == Some(cursor)
  {
    var s2 :- Write2(s, SP(s), cursor);
    Write2Reads(s, SP(s), cursor);
    var off := Local(s2, S8(slot));
    var r :- Write(s2, off, e);
    WriteReads(s2, off, e, SP(s), 2);
    Some(r)
  }

  /** A store whose cursor word and loop variable both lie in the stack
      buffer succeeds. */
  lemma ForeachStoreFits(s: Slice, slot: u8, cursor: u16, e: seq<u8>)
    requires Stacks.InBuffer(s.p.stack, SP(s), 2)
    requires Stacks.InBuffer(s.p.stack, Local(s, S8(slot)), |e|)
    ensures ForeachStore(s, slot, cursor, e).Some?
  {
    var s2 := Write2(s, SP(s), cursor).value;
    assert Local(s2, S8(slot)) == Local(s, S8(slot));
  }

  /** 0x75/0x76 xx yy zzzz: advance the cursor at sp over the list (0x75)
      or string list (0x76) whose handle is at sp+2. Past the end: free the
      list, pop both words and jump by zzzz. Otherwise store the cursor back
      and copy the first yy bytes of that element into bp+xx. A string-list
      foreach of a width other than 2 is an error; a missing list is a
      fault. */
  function Foreach(s: Slice, op: u8, slot: u8, size: u8, offset: u16): (r: Option<Slice>)
    requires op == 0x75 || op == 0x76
    ensures r.Some? ==> LoopStep(s, r.value)
  {
    var ix :- Read2(s, SP(s));
    var lid :- Read2(s, SP(s) + 2);
    var cursor := NextCursor(ix);
    if lid !in s.h.lists then None
    else
      var l := s.h.lists[lid];
      var s1 :-
        if cursor >= |l.elems| then ForeachEnd(s, op, lid, offset)
        else if size > |l.elems[cursor]| then None
        else ForeachStore(s, slot, cursor, l.elems[cursor][..size]);
      Some(if op == 0x76 && size != 2 then Fail(s1) else s1)
  }

  /** One loop opcode, with its operand bytes. */
  function ExecLoop(env: Env, s: Slice, op: u8, arg: seq<u8>): (r: Option<Slice>)
    requires IsLoopOp(op) && |arg| == Operands(op)
    ensures r.Some? ==> LoopStep(s, r.value)
  {
    match op
    case 0x70 => StartSearch(env, s, arg[0], arg[1], arg[2])
    case 0x73 => LoopNext(env, s)
    case _ => Foreach(s, op, arg[0], arg[1], FromLE16(arg[2..4]))
  }

  /** A foreach whose cursor has passed the last element frees the list,
      drops its two words and jumps; a jump out of the code is a fault. */
  lemma ForeachDone(s: Slice, op: u8, slot: u8, size: u8, offset: u16, ix: u16, lid: u16)
    requires op == 0x75 || op == 0x76
    requires Read2(s, SP(s)) == Some(ix) && Read2(s, SP(s) + 2) == Some(lid) && lid in s.h.lists
    requires NextCursor(ix) >= |s.h.lists[lid].elems|
    ensures Foreach(s, op, slot, size, offset).Some? <==> Wrap16(s.pos + S16(offset)) <= |s.code|
    ensures Foreach(s, op, slot, size, offset).Some? ==> var t := Foreach(s, op, slot, size, offset).value;
      t.pos == Wrap16(s.pos + S16(offset)) && SP(t) == SP(s) + 4 && lid !in t.h.lists
      && t.h == (if op == 0x75 then FreeList(s.h, lid) else FreeStringList(s.h, lid))
      && (t.error <==> s.error || (op == 0x76 && size != 2))
  {
  }

  /** With an element left and a store that fits, the foreach is that
      store, failed for a string list of another width. */
  lemma ForeachPicks(s: Slice, op: u8, slot: u8, size: u8, offset: u16, ix: u16, lid: u16)
    requires op == 0x75 || op == 0x76
    requires Read2(s, SP(s)) == Some(ix) && Read2(s, SP(s) + 2) == Some(lid) && lid in s.h.lists
    requires NextCursor(ix) < |s.h.lists[lid].elems| && size <= |s.h.lists[lid].elems[NextCursor(ix)]|
    requires ForeachStore(s, slot, NextCursor(ix), s.h.lists[lid].elems[NextCursor(ix)][..size]).Some?
    ensures var s1 := ForeachStore(s, slot, NextCursor(ix), s.h.lists[lid].elems[NextCursor(ix)][..size]).value;
      Foreach(s, op, slot, size, offset) == Some(if op == 0x76 && size != 2 then Fail(s1) else s1)
  {
  }

  /** A foreach with an element left stores the advanced cursor (0 after
      0xFFFF) and copies the element's first bytes into the loop variable,
      leaving the heaps and the code position alone. */
  lemma ForeachElement(s: Slice, op: u8, slot: u8, size: u8, offset: u16, ix: u16, lid: u16)
    requires op == 0x75 || op == 0x76
    requires Read2(s, SP(s)) == Some(ix) && Read2(s, SP(s) + 2) == Some(lid) && lid in s.h.lists
    requires NextCursor(ix) < |s.h.lists[lid].elems| && size <= |s.h.lists[lid].elems[NextCursor(ix)]|
    requires Stacks.InBuffer(s.p.stack, Local(s, S8(slot)), size)
    requires Local(s, S8(slot)) + size <= SP(s) || SP(s) + 2 <= Local(s, S8(slot))
    ensures Foreach(s, op, slot, size, offset).Some?
    ensures var t := Foreach(s, op, slot, size, offset).value;
      t.pos == s.pos && SP(t) == SP(s) && t.h == s.h
      && Read2(t, SP(t)) == Some(NextCursor(ix))
      && Read(t, Local(s, S8(slot)), size) == Some(s.h.lists[lid].elems[NextCursor(ix)][..size])
      && (t.error <==> s.error || (op == 0x76 && size != 2))
  {
    var cursor := NextCursor(ix);
    var e := s.h.lists[lid].elems[cursor][..size];
    ForeachStoreFits(s, slot, cursor, e);
    ForeachPicks(s, op, slot, size, offset, ix, lid);
    var s1 := ForeachStore(s, slot, cursor, e).value;
    var t := Foreach(s, op, slot, size, offset).value;
    assert t.p.stack == s1.p.stack;
  }

  /** With an unhandled search kind the setup pops the two operands and
      the script and stops with an error, laying nothing out. */
  lemma SetupUnhandled(env: Env, s: Slice, slot: u8, scriptSize: u8, kind: u8)
    requires scriptSize <= 0x20 && SearchArea(env.variant, kind).None?
    requires Read2(s, SP(s)).Some? && Read2(s, SP(s) + 2).Some?
    requires Stacks.InBuffer(s.p.stack, SP(s) + 4, scriptSize)
    ensures SearchSetup(env, s, slot, scriptSize, kind) == Some(Fail(MoveSP(s, 4 + scriptSize)))
  {
    PopTwo2(s, Read2(s, SP(s)).value, Read2(s, SP(s) + 2).value);
    assert MoveSP(MoveSP(s, 4), scriptSize) == MoveSP(s, 4 + scriptSize);
  }

  /** 0x73 over an empty list pushes 0 and frees the list. */
  lemma NextOverEmpty(env: Env, t: Slice, lid: u16)
    requires Read2(t, SP(t)) == Some(lid) && Read2(t, SP(t) + 2).Some? && Read2(t, SP(t) + 4).Some?
    requires lid in t.h.lists && t.h.lists[lid].elems == []
    requires Stacks.InBuffer(t.p.stack, SP(t) - 2, 2)
    ensures LoopNext(env, t).Some?
    ensures lid !in LoopNext(env, t).value.h.lists
    ensures Read2(LoopNext(env, t).value, SP(t) - 2) == Some(0)
  {
    Push2Reads(t, 0);
  }

  /** The fall-through of 0x70 into 0x73 after an unhandled search kind:
      when the word left on top of the stack is the handle of an empty
      list, the code as written frees that list, which belongs to someone
      else, while the corrected opcode stops with the error and leaves the
      heaps alone. */
  lemma UnhandledSearchFreesList(env: Env, s: Slice, slot: u8, scriptSize: u8, kind: u8, lid: u16)
    requires scriptSize <= 0x20 && SearchArea(env.variant, kind).None?
    requires Read2(s, SP(s)).Some? && Read2(s, SP(s) + 2).Some?
    requires Stacks.InBuffer(s.p.stack, SP(s) + 4, scriptSize)
    requires var t := MoveSP(s, 4 + scriptSize);
      Read2(t, SP(t)) == Some(lid) && Read2(t, SP(t) + 2).Some? && Read2(t, SP(t) + 4).Some?
      && Stacks.InBuffer(t.p.stack, SP(t) - 2, 2)
    requires lid in s.h.lists && s.h.lists[lid].elems == []
    ensures StartSearchAsWritten(env, s, slot, scriptSize, kind).Some?
    ensures lid !in StartSearchAsWritten(env, s, slot, scriptSize, kind).value.h.lists
    ensures StartSearch(env, s, slot, scriptSize, kind) == Some(Fail(MoveSP(s, 4 + scriptSize)))
    ensures lid in StartSearch(env, s, slot, scriptSize, kind).value.h.lists
  {
    SetupUnhandled(env, s, slot, scriptSize, kind);
    PopTwo2(s, Read2(s, SP(s)).value, Read2(s, SP(s) + 2).value);
    var t := Fail(MoveSP(s, 4 + scriptSize));
    assert StartSearchAsWritten(env, s, slot, scriptSize, kind) == LoopNext(env, t);
    NextOverEmpty(env, t, lid);
  }
}
