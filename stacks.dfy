/** A process stack: a byte buffer that grows downward from its end, with a
    stack pointer holding the offset of the top byte. Offsets are absolute
    positions in the buffer (base-pointer and stack-pointer relative
    addresses are computed by the caller). The source moves the pointer and
    copies bytes without any range check; here an access outside the buffer
    is a fault (`None`). */
module Stacks {
  import opened Words
  import opened Wrappers

  datatype UCStack = UCStack(buf: seq<u8>, sp: int)

  predicate InBuffer(s: UCStack, off: int, n: nat)
  {
    0 <= off && off + n <= |s.buf|
  }

  /** The n bytes at offset off. */
  function Access(s: UCStack, off: int, n: nat): (r: Option<seq<u8>>)
    ensures r.Some? <==> InBuffer(s, off, n)
    ensures r.Some? ==> |r.value| == n && forall i :: 0 <= i < n ==> r.value[i] == s.buf[off + i]
  {
    if InBuffer(s, off, n) then Some(s.buf[off..off + n]) else None
  }

  /** Copy data to offset off; the stack pointer does not move. */
  function Assign(s: UCStack, off: int, data: seq<u8>): (r: Option<UCStack>)
    ensures r.Some? <==> InBuffer(s, off, |data|)
    ensures r.Some? ==> r.value.sp == s.sp && |r.value.buf| == |s.buf|
    ensures r.Some? ==> forall i :: 0 <= i < |s.buf| ==>
      r.value.buf[i] == if off <= i < off + |data| then data[i - off] else s.buf[i]
  {
    if InBuffer(s, off, |data|) then
      Some(s.(buf := s.buf[..off] + data + s.buf[off + |data|..]))
    else None
  }

  /** Move the stack pointer by d bytes (a positive d discards, a negative one
      reserves) without touching memory. */
  function AddSP(s: UCStack, d: int): (r: UCStack)
    ensures r.buf == s.buf && r.sp == s.sp + d
  {
    s.(sp := s.sp + d)
  }

  /** Push data: the pointer moves down by its length and data sits at the
      new top. */
  function Push(s: UCStack, data: seq<u8>): (r: Option<UCStack>)
    ensures r.Some? <==> InBuffer(s, s.sp - |data|, |data|)
    ensures r.Some? ==> r.value.sp == s.sp - |data| && Access(r.value, r.value.sp, |data|) == Some(data)
  {
    var t := AddSP(s, -|data|);
    var r := Assign(t, t.sp, data);
    if r.Some? then
      assert r.value.buf[t.sp..t.sp + |data|] == data;
      r
    else r
  }

  /** Pop n bytes: the bytes at the top, and the pointer moved up past them. */
  function Pop(s: UCStack, n: nat): (r: Option<(seq<u8>, UCStack)>)
    ensures r.Some? <==> InBuffer(s, s.sp, n)
    ensures r.Some? ==> |r.value.0| == n && r.value.1 == AddSP(s, n)
  {
    var bytes :- Access(s, s.sp, n);
    Some((bytes, AddSP(s, n)))
  }

  function Push1(s: UCStack, v: u8): Option<UCStack>
  {
    Push(s, [v])
  }

  function Push2(s: UCStack, v: u16): Option<UCStack>
  {
    Push(s, LE16(v))
  }

  function Push4(s: UCStack, v: u32): Option<UCStack>
  {
    Push(s, LE32(v))
  }

  /** push0: n zero bytes. */
  function Push0(s: UCStack, n: nat): (r: Option<UCStack>)
    ensures r.Some? ==> r.value.sp == s.sp - n
  {
    Push(s, seq(n, i => 0))
  }

  function Pop2(s: UCStack): (r: Option<(u16, UCStack)>)
    ensures r.Some? <==> InBuffer(s, s.sp, 2)
    ensures r.Some? ==> r.value.1 == AddSP(s, 2)
  {
    var (bytes, t) :- Pop(s, 2);
    Some((FromLE16(bytes), t))
  }

  function Pop4(s: UCStack): (r: Option<(u32, UCStack)>)
    ensures r.Some? <==> InBuffer(s, s.sp, 4)
    ensures r.Some? ==> r.value.1 == AddSP(s, 4)
  {
    var (bytes, t) :- Pop(s, 4);
    Some((FromLE32(bytes), t))
  }

  function Access1(s: UCStack, off: int): Option<u8>
  {
    var bytes :- Access(s, off, 1);
    Some(bytes[0])
  }

  function Access2(s: UCStack, off: int): Option<u16>
  {
    var bytes :- Access(s, off, 2);
    Some(FromLE16(bytes))
  }

  function Access4(s: UCStack, off: int): Option<u32>
  {
    var bytes :- Access(s, off, 4);
    Some(FromLE32(bytes))
  }

  function Assign1(s: UCStack, off: int, v: u8): Option<UCStack>
  {
    Assign(s, off, [v])
  }

  function Assign2(s: UCStack, off: int, v: u16): Option<UCStack>
  {
    Assign(s, off, LE16(v))
  }

  function Assign4(s: UCStack, off: int, v: u32): Option<UCStack>
  {
    Assign(s, off, LE32(v))
  }

  /** What was pushed is what is popped, and the pointer is back where it
      was. */
  lemma PopAfterPush(s: UCStack, data: seq<u8>)
    requires Push(s, data).Some?
    ensures Pop(Push(s, data).value, |data|).Some?
    ensures Pop(Push(s, data).value, |data|).value.0 == data
    ensures Pop(Push(s, data).value, |data|).value.1.sp == s.sp
  {
  }

  lemma Pop2AfterPush2(s: UCStack, v: u16)
    requires Push2(s, v).Some?
    ensures Pop2(Push2(s, v).value).Some?
    ensures Pop2(Push2(s, v).value).value.0 == v
    ensures Pop2(Push2(s, v).value).value.1.sp == s.sp
  {
    var t := Push2(s, v).value;
    assert Access(t, t.sp, 2) == Some(LE16(v));
    LE16RoundTrip(v);
  }

  lemma Pop4AfterPush4(s: UCStack, v: u32)
    requires Push4(s, v).Some?
    ensures Pop4(Push4(s, v).value).Some?
    ensures Pop4(Push4(s, v).value).value.0 == v
    ensures Pop4(Push4(s, v).value).value.1.sp == s.sp
  {
    var t := Push4(s, v).value;
    assert Access(t, t.sp, 4) == Some(LE32(v));
    LE32RoundTrip(v);
  }

  /** A write is read back, and a read elsewhere does not see it. */
  lemma AccessAfterAssign(s: UCStack, off: int, data: seq<u8>, off2: int, n2: nat)
    requires Assign(s, off, data).Some?
    ensures Access(Assign(s, off, data).value, off, |data|) == Some(data)
    ensures off2 + n2 <= off || off + |data| <= off2 ==>
      Access(Assign(s, off, data).value, off2, n2) == Access(s, off2, n2)
  {
    var t := Assign(s, off, data).value;
    assert t.buf[off..off + |data|] == data;
    if InBuffer(s, off2, n2) && (off2 + n2 <= off || off + |data| <= off2) {
      assert t.buf[off2..off2 + n2] == s.buf[off2..off2 + n2];
    }
  }

  lemma Access2AfterAssign2(s: UCStack, off: int, v: u16)
    requires Assign2(s, off, v).Some?
    ensures Access2(Assign2(s, off, v).value, off) == Some(v)
  {
    AccessAfterAssign(s, off, LE16(v), off, 2);
    LE16RoundTrip(v);
  }
}
