/** Reading and writing through segmented pointers (assignPointer,
    dereferencePointer, ptrToObject). Stack pointers reach the stack of a
    live usecode process, object pointers yield their offset, global pointers
    reach the global store with widths 1 and 2; anything else fails. */
module Resolver {
  import opened Words
  import opened Wrappers
  import opened Pointers
  import opened Globals
  import opened Stacks
  import opened State

  /** The outcome of a read through a pointer: refused, the bytes read, or
      accepted without producing data (a global access of a width other than
      1 or 2, which only logs a warning). */
  datatype Deref = Refused | Bytes(data: seq<u8>) | Untouched

  /** dereferencePointer(ptr, size). An out-of-range stack or global access
      is a fault. */
  function Dereference(s: Slice, ptr: u32, size: nat): (r: Option<Deref>)
    ensures r.Some? && r.value.Bytes? ==> |r.value.data| == size
  {
    var off := Offset(ptr);
    match SpaceOf(ptr)
    case StackSpace(pid) =>
      (match StackOf(s, pid)
       case None => Some(Refused)
       case Some(st) =>
         var data :- Access(st, off, size);
         Some(Bytes(data)))
    case ObjectSpace =>
      if size != 2 then Some(Refused) else Some(Bytes(LE16(off)))
    case GlobalSpace =>
      if size == 1 then
        var v :- GetEntries(s.g, off, 1);
        Some(Bytes([v % 0x100]))
      else if size == 2 then
        var v :- GetEntries(s.g, off, 2);
        Some(Bytes(LE16(v % 0x10000)))
      else Some(Untouched)
    case _ => Some(Refused)
  }

  /** assignPointer(ptr, data): whether the write was accepted, and the state
      after it. */
  function AssignPointer(s: Slice, ptr: u32, data: seq<u8>): (r: Option<(bool, Slice)>)
    ensures r.Some? && !r.value.0 ==> r.value.1 == s
    ensures r.Some? ==> r.value.1.h == s.h && r.value.1.code == s.code && r.value.1.pos == s.pos
  {
    var off := Offset(ptr);
    match SpaceOf(ptr)
    case StackSpace(pid) =>
      (match StackOf(s, pid)
       case None => Some((false, s))
       case Some(st) =>
         var st1 :- Assign(st, off, data);
         Some((true, SetStackOf(s, pid, st1))))
    case GlobalSpace =>
      if |data| == 1 then
        var g1 :- SetEntries(s.g, off, 1, data[0]);
        Some((true, s.(g := g1)))
      else if |data| == 2 then
        var g1 :- SetEntries(s.g, off, 2, FromLE16(data));
        Some((true, s.(g := g1)))
      else Some((true, s))
    case _ => Some((false, s))
  }

  /** ptrToObject: the 16-bit value a pointer designates. A stack pointer
      reads its target stack (0 for a dead process or an offset past the
      end), object and string pointers give their offset, a global pointer
      reads a two-entry global (a global outside the store is a fault), and
      any other segment gives 0. */
  function PtrToObject(s: Slice, ptr: u32): (r: Option<u16>)
    ensures SpaceOf(ptr) == ObjectSpace || SpaceOf(ptr) == StringSpace ==> r == Some(Offset(ptr))
    ensures SpaceOf(ptr).StackSpace? && StackOf(s, Segment(ptr)).None? ==> r == Some(0)
    ensures SpaceOf(ptr).UnknownSpace? || SpaceOf(ptr) == ListSpace ==> r == Some(0)
  {
    var off := Offset(ptr);
    match SpaceOf(ptr)
    case StackSpace(pid) =>
      (match StackOf(s, pid)
       case None => Some(0)
       case Some(st) => if |st.buf| < off + 2 then Some(0) else Access2(st, off))
    case ObjectSpace => Some(off)
    case StringSpace => Some(off)
    case GlobalSpace =>
      var v :- GetEntries(s.g, off, 2);
      Some(v % 0x10000)
    case _ => Some(0)
  }

  /** ptrToObject gives back the id an object pointer was built from and
      the handle a string pointer was built from. */
  lemma PtrToObjectOfBuilders(s: Slice, id: u16)
    ensures PtrToObject(s, ObjectToPtr(id)) == Some(id)
    ensures PtrToObject(s, StringToPtr(id)) == Some(id)
  {
    BuildersResolve(id, 1, 0);
  }

  /** A pointer into the stack of a process that does not exist is refused
      and changes nothing. */
  lemma DeadProcessRefused(s: Slice, pid: u16, off: u16, data: seq<u8>)
    requires 1 <= pid <= 0x7FFE && StackOf(s, pid).None?
    ensures Dereference(s, StackToPtr(pid, off), |data|) == Some(Refused)
    ensures AssignPointer(s, StackToPtr(pid, off), data) == Some((false, s))
  {
    BuildersResolve(0, pid, off);
  }

  /** What is written through a stack pointer is read back through it. */
  lemma StackWriteRead(s: Slice, pid: u16, off: u16, data: seq<u8>)
    requires 1 <= pid <= 0x7FFE
    requires AssignPointer(s, StackToPtr(pid, off), data).Some?
    requires AssignPointer(s, StackToPtr(pid, off), data).value.0
    ensures Dereference(AssignPointer(s, StackToPtr(pid, off), data).value.1, StackToPtr(pid, off), |data|)
      == Some(Bytes(data))
  {
    BuildersResolve(0, pid, off);
    var st := StackOf(s, pid).value;
    AccessAfterAssign(st, off, data, off, |data|);
  }

  /** In the Crusader games a two-byte global written through a pointer is
      read back whole. */
  lemma GlobalWriteRead(s: Slice, off: u16, data: seq<u8>)
    requires s.g.unit == 8 && |data| == 2
    requires AssignPointer(s, GlobalToPtr(off), data).Some?
    ensures Dereference(AssignPointer(s, GlobalToPtr(off), data).value.1, GlobalToPtr(off), 2)
      == Some(Bytes(data))
  {
    var ptr := GlobalToPtr(off);
    BuildersResolve(0, 1, off);
    var v := FromLE16(data);
    var g1 := SetEntries(s.g, off, 2, v).value;
    assert AssignPointer(s, ptr, data).value.1 == s.(g := g1);
    GetAfterSetWord(s.g, off, v);
    FromLE16RoundTrip(data);
  }
}
