/** Segmented 32-bit pointers: a segment tag in the high 16 bits selects an
    address space (a process stack, the string heap, the list heap, object
    ids, the global store) and the low 16 bits are an offset within it. */
module Pointers {
  import opened Words

  const SEG_STACK: u16 := 0x0000
  const SEG_STACK_FIRST: u16 := 0x0001
  const SEG_STACK_LAST: u16 := 0x7FFE
  const SEG_STRING: u16 := 0x8000
  const SEG_LIST: u16 := 0x8001
  const SEG_OBJ: u16 := 0x8002
  const SEG_GLOBAL: u16 := 0x8003

  /** The segment tag: `static_cast<uint16>(ptr >> 16)`. */
  function Segment(ptr: u32): u16
  {
    ptr / 0x10000
  }

  /** The offset: `static_cast<uint16>(ptr & 0xFFFF)`. */
  function Offset(ptr: u32): u16
  {
    ptr % 0x10000
  }

  /** What every builder computes: start from the tag in a 32-bit word,
      shift it left by 16 and add the offset, all in 32-bit arithmetic. */
  function MakePtr(tag: u16, offset: u16): (r: u32)
    ensures Segment(r) == tag && Offset(r) == offset
  {
    Wrap32(Wrap32(tag * 0x10000) + offset)
  }

  function ListToPtr(l: u16): (r: u32)
    ensures Segment(r) == SEG_LIST && Offset(r) == l
  {
    MakePtr(SEG_LIST, l)
  }

  function StringToPtr(s: u16): (r: u32)
    ensures Segment(r) == SEG_STRING && Offset(r) == s
  {
    MakePtr(SEG_STRING, s)
  }

  /** A pointer into the stack of process `pid`: the tag is SEG_STACK + pid. */
  function StackToPtr(pid: u16, offset: u16): (r: u32)
    ensures Segment(r) == pid && Offset(r) == offset
  {
    MakePtr(SEG_STACK + pid, offset)
  }

  function GlobalToPtr(offset: u16): (r: u32)
    ensures Segment(r) == SEG_GLOBAL && Offset(r) == offset
  {
    MakePtr(SEG_GLOBAL, offset)
  }

  function ObjectToPtr(objId: u16): (r: u32)
    ensures Segment(r) == SEG_OBJ && Offset(r) == objId
  {
    MakePtr(SEG_OBJ, objId)
  }

  /** Every 32-bit word is the pointer built from its own segment and offset,
      so the encoding loses nothing. */
  lemma PointerRoundTrip(ptr: u32)
    ensures MakePtr(Segment(ptr), Offset(ptr)) == ptr
  {
  }

  /** The address space a segment tag selects, as the three resolvers branch
      on it. */
  datatype Space =
    | StackSpace(pid: u16)
    | StringSpace
    | ListSpace
    | ObjectSpace
    | GlobalSpace
    | UnknownSpace(tag: u16)

  function SpaceOf(ptr: u32): (sp: Space)
    ensures sp.StackSpace? <==> SEG_STACK_FIRST <= Segment(ptr) <= SEG_STACK_LAST
    ensures sp.StackSpace? ==> sp.pid == Segment(ptr)
  {
    var tag := Segment(ptr);
    if SEG_STACK_FIRST <= tag <= SEG_STACK_LAST then StackSpace(tag)
    else if tag == SEG_STRING then StringSpace
    else if tag == SEG_LIST then ListSpace
    else if tag == SEG_OBJ then ObjectSpace
    else if tag == SEG_GLOBAL then GlobalSpace
    else UnknownSpace(tag)
  }

  /** Each builder's pointer resolves to the space it was built for, with the
      offset it was given; a stack pointer does so only for a process id in
      the stack range, and process ids 0 and 0x7FFF.. name no stack. */
  lemma BuildersResolve(h: u16, pid: u16, offset: u16)
    ensures SpaceOf(StringToPtr(h)) == StringSpace && Offset(StringToPtr(h)) == h
    ensures SpaceOf(ListToPtr(h)) == ListSpace && Offset(ListToPtr(h)) == h
    ensures SpaceOf(ObjectToPtr(h)) == ObjectSpace && Offset(ObjectToPtr(h)) == h
    ensures SpaceOf(GlobalToPtr(offset)) == GlobalSpace && Offset(GlobalToPtr(offset)) == offset
    ensures SpaceOf(StackToPtr(pid, offset)) == StackSpace(pid) <==> 1 <= pid <= 0x7FFE
    ensures pid == SEG_STRING ==> SpaceOf(StackToPtr(pid, offset)) == StringSpace
  {
  }
}
