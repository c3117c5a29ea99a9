/** The usecode machine as an object: the string and list heaps with their
    allocators and the global store are fields that the heap operations,
    reset, the list loader and the dispatcher loop update in place. Each
    method is proved against the functions of modules Heap and Dispatch. */
module Machine {
  import opened Words
  import opened Wrappers
  import opened Ids
  import opened Lists
  import opened Heap
  import opened Globals
  import opened Stacks
  import opened State
  import opened Dispatch

  /** The largest list count a saved game may claim. */
  const MAX_SAVED_LISTS: nat := 65536

  /** One list record of a saved game: its handle, and the list if it could
      be read. */
  datatype SavedList = SavedList(lid: u16, list: Option<UCList>)

  predicate AllRead(records: seq<SavedList>)
  {
    forall i :: 0 <= i < |records| ==> records[i].list.Some?
  }

  /** The list heap after storing each record in turn over m; a later
      record with the same handle replaces an earlier one. */
  function Loaded(m: map<u16, UCList>, records: seq<SavedList>): (r: map<u16, UCList>)
    requires AllRead(records)
    decreases |records|
  {
    if records == [] then m
    else
      var last := records[|records| - 1];
      Loaded(m, records[..|records| - 1])[last.lid := last.list.value]
  }

  /** The handles a load installs are exactly the old ones and those of the
      records. */
  lemma {:induction false} LoadedKeys(m: map<u16, UCList>, records: seq<SavedList>)
    requires AllRead(records)
    ensures Loaded(m, records).Keys == m.Keys + set i | 0 <= i < |records| :: records[i].lid
    decreases |records|
  {
    if records != [] {
      var front := records[..|records| - 1];
      LoadedKeys(m, front);
      var all := set i | 0 <= i < |records| :: records[i].lid;
      var before := set i | 0 <= i < |front| :: front[i].lid;
      assert all == before + {records[|records| - 1].lid} by {
        forall x | x in all ensures x in before + {records[|records| - 1].lid} {
          var i :| 0 <= i < |records| && records[i].lid == x;
          if i < |front| {
            assert front[i].lid == x;
          }
        }
        forall x | x in before ensures x in all {
          var i :| 0 <= i < |front| && front[i].lid == x;
          assert records[i].lid == x;
        }
      }
    }
  }

  /** A load keeps every stored list tracked when the loaded allocator
      holds every loaded handle and every handle already in the heap. */
  lemma LoadedTracked(h: Heaps, ids: IdMan, records: seq<SavedList>)
    requires AllRead(records)
    requires forall l :: l in h.lists ==> l in ids.used
    requires forall i :: 0 <= i < |records| ==> records[i].lid in ids.used
    ensures ListsTracked(h.(lists := Loaded(h.lists, records), listIds := ids))
  {
    LoadedKeys(h.lists, records);
  }

  /** The dispatcher loop: one step per iteration while the slice is
      running, for at most fuel iterations. */
  method RunLoop(step: Slice -> Slice, s0: Slice, fuel: nat) returns (s: Slice)
    ensures s == Iterate(step, s0, fuel)
  {
    s := s0;
    var n: nat := fuel;
    while n > 0 && Running(s)
      invariant Iterate(step, s, n) == Iterate(step, s0, fuel)
      decreases n
    {
      s := step(s);
      n := n - 1;
    }
  }

  /** A usecode process: the fields the dispatcher reads and writes. */
  class UCProcess {
    var pid: u16
    var itemNum: u16
    var procType: u16
    var classId: u16
    var ip: u16
    var bp: u16
    var stack: UCStack
    var temp32: u32
    var result: u32
    var suspended: bool
    var terminated: bool
    var freeMe: seq<(u16, u8)>

    /** The process's fields as a value. */
    function Snapshot(): Proc
      reads this
    {
      Proc(pid, itemNum, procType, classId, ip, bp, stack, temp32, result, suspended, terminated, freeMe)
    }

    constructor (p: Proc)
      ensures Snapshot() == p
    {
      pid, itemNum, procType, classId := p.pid, p.itemNum, p.procType, p.classId;
      ip, bp, stack := p.ip, p.bp, p.stack;
      temp32, result := p.temp32, p.result;
      suspended, terminated, freeMe := p.suspended, p.terminated, p.freeMe;
    }

    /** Write every field from a value. */
    method Store(p: Proc)
      modifies this
      ensures Snapshot() == p
    {
      pid, itemNum, procType, classId := p.pid, p.itemNum, p.procType, p.classId;
      ip, bp, stack := p.ip, p.bp, p.stack;
      temp32, result := p.temp32, p.result;
      suspended, terminated, freeMe := p.suspended, p.terminated, p.freeMe;
    }
  }

  class UCMachine {
    const variant: Variant
    var strings: map<u16, Text>
    var stringIds: IdMan
    var lists: map<u16, UCList>
    var listIds: IdMan
    var globals: GlobalStore

    /** The heaps as a value. */
    function HeapState(): Heaps
      reads this
    {
      Heaps(strings, stringIds, lists, listIds)
    }

    /** Every stored list holds an id its allocator has handed out, no
        stored text has a NUL byte, and the global store has the packing of
        the game. */
    predicate Valid()
      reads this
    {
      ListsTracked(HeapState()) && StringsPlain(HeapState()) && globals.unit == Initial(variant).unit
    }

    /** A new machine: empty heaps, fresh allocators, and the initial global
        store of the game (the avatar entry set in the Crusader games). */
    constructor (variant: Variant)
      ensures this.variant == variant
      ensures HeapState() == EmptyHeaps() && globals == Initial(variant)
      ensures Valid()
    {
      this.variant := variant;
      strings, stringIds := map[], IdMan({});
      lists, listIds := map[], IdMan({});
      globals := Initial(variant);
    }

    /** reset: the global store back to its initial contents and both heaps
        emptied; the allocators keep every id they have handed out. */
    method Reset()
      modifies this
      ensures globals == Initial(variant)
      ensures strings == map[] && lists == map[]
      ensures stringIds == old(stringIds) && listIds == old(listIds)
      ensures Valid()
    {
      globals := Initial(variant);
      lists := map[];
      strings := map[];
    }

    method GetString(s: u16) returns (t: Text)
      ensures t == Heap.GetString(HeapState(), s)
    {
      if s in strings {
        t := strings[s];
      } else {
        t := [];
      }
    }

    method GetList(l: u16) returns (r: Option<UCList>)
      ensures r == Heap.GetList(HeapState(), l)
    {
      if l in lists {
        r := Some(lists[l]);
      } else {
        r := None;
      }
    }

    method AssignString(text: seq<u8>) returns (id: u16)
      modifies this
      ensures (HeapState(), id) == Heap.AssignString(old(HeapState()), text)
      ensures globals == old(globals)
      ensures old(Valid()) ==> Valid()
    {
      var (ids, newId) := NewId(stringIds);
      if newId == 0 {
        return 0;
      }
      strings := strings[newId := CStr(text)];
      stringIds := ids;
      id := newId;
    }

    method DuplicateString(s: u16) returns (id: u16)
      modifies this
      ensures (HeapState(), id) == Heap.DuplicateString(old(HeapState()), s)
      ensures globals == old(globals)
      ensures old(Valid()) ==> Valid()
    {
      if s !in strings {
        strings := strings[s := []];
      }
      id := AssignString(strings[s]);
    }

    /** assignList; the source asserts the new id is not in the heap,
        which holds while every stored list is tracked. */
    method AssignList(l: UCList) returns (id: u16)
      requires Valid()
      modifies this
      ensures (HeapState(), id) == Heap.AssignList(old(HeapState()), l)
      ensures globals == old(globals) && Valid()
    {
      var (ids, newId) := NewId(listIds);
      if newId == 0 {
        return 0;
      }
      assert newId !in lists;
      lists := lists[newId := l];
      listIds := ids;
      id := newId;
    }

    method FreeString(s: u16)
      modifies this
      ensures HeapState() == Heap.FreeString(old(HeapState()), s)
      ensures globals == old(globals)
      ensures old(Valid()) ==> Valid()
    {
      if s in strings {
        strings := strings - {s};
        stringIds := ClearId(stringIds, s);
      }
    }

    method FreeList(l: u16)
      modifies this
      ensures HeapState() == Heap.FreeList(old(HeapState()), l)
      ensures globals == old(globals)
      ensures old(Valid()) ==> Valid()
    {
      if l in lists {
        lists := lists - {l};
        listIds := ClearId(listIds, l);
      }
    }

    /** freeStringList: free the string behind each element, one after the
        other, then the list. */
    method FreeStringList(l: u16)
      modifies this
      ensures HeapState() == Heap.FreeStringList(old(HeapState()), l)
      ensures globals == old(globals)
      ensures old(Valid()) ==> Valid()
    {
      if l !in lists {
        return;
      }
      var handles := Handles(lists[l].elems);
      var i := 0;
      while i < |handles|
        invariant 0 <= i <= |handles|
        invariant FreeStrings(HeapState(), handles[i..]) == FreeStrings(old(HeapState()), handles)
        invariant lists == old(lists) && listIds == old(listIds) && globals == old(globals)
      {
        assert handles[i..][1..] == handles[i + 1..];
        FreeString(handles[i]);
        i := i + 1;
      }
      lists := lists - {l};
      listIds := ClearId(listIds, l);
      if old(StringsPlain(HeapState())) {
        FreeingKeepsPlain(old(HeapState()), l, [], [], []);
      }
    }

    /** loadLists: the list allocator comes first (a failure to read it
        ends the load); a count above 65536 is refused; then each record is
        stored under its handle, and the first record that cannot be read
        ends the load. A record missing from the stream cannot be read. */
    method LoadLists(ids: Option<IdMan>, count: u32, records: seq<SavedList>) returns (ok: bool)
      modifies this
      ensures ok <==> ids.Some? && count <= MAX_SAVED_LISTS && count <= |records| && AllRead(records[..count])
      ensures ids.None? ==> listIds == old(listIds) && lists == old(lists)
      ensures ids.Some? ==> listIds == ids.value
      ensures count > MAX_SAVED_LISTS ==> lists == old(lists)
      ensures ok ==> lists == Loaded(old(lists), records[..count])
      ensures !ok && ids.Some? && count <= MAX_SAVED_LISTS ==>
        exists j :: 0 <= j < count && j <= |records| && AllRead(records[..j])
          && (j == |records| || records[j].list.None?) && lists == Loaded(old(lists), records[..j])
      ensures strings == old(strings) && stringIds == old(stringIds) && globals == old(globals)
    {
      if ids.None? {
        return false;
      }
      listIds := ids.value;
      if count > MAX_SAVED_LISTS {
        return false;
      }
      var i := 0;
      while i < count
        invariant 0 <= i <= count && i <= |records|
        invariant AllRead(records[..i])
        invariant lists == Loaded(old(lists), records[..i])
        invariant listIds == ids.value
        invariant strings == old(strings) && stringIds == old(stringIds) && globals == old(globals)
      {
        if i >= |records| || records[i].list.None? {
          if count <= |records| {
            assert records[..count][i] == records[i];
          }
          return false;
        }
        assert records[..i + 1][..i] == records[..i];
        lists := lists[records[i].lid := records[i].list.value];
        i := i + 1;
      }
      ok := true;
    }

    /** execProcess: run the process's code until it cedes, fails or ends
        (at most fuel instructions), working on this machine's heaps and
        globals and writing the process's fields back; a process that
        failed is terminated. */
    method ExecProcess(env: Env, k: Sched, proc: UCProcess, fuel: nat) returns (k': Sched)
      requires env.variant == variant
      modifies this, proc
      ensures var r := ExecSlice(env, old(HeapState()), old(globals), k, old(proc.Snapshot()), fuel);
        HeapState() == r.h && globals == r.g && k' == r.k && proc.Snapshot() == r.p
      ensures old(ListsTracked(HeapState())) ==> ListsTracked(HeapState())
    {
      var s0 := Begin(env, HeapState(), globals, k, proc.Snapshot());
      var s := RunLoop(CycleOf(env), s0, fuel);
      s := Finish(s);
      strings, stringIds, lists, listIds := s.h.strings, s.h.stringIds, s.h.lists, s.h.listIds;
      globals := s.g;
      proc.Store(s.p);
      k' := s.k;
      if ListsTracked(s0.h) {
        RunKeepsTracked(env, s0, fuel);
      }
    }
  }
}
