/** The opcodes that transfer control or talk to the scheduler: intrinsic
    calls, usecode calls and returns, jumps, suspend, implies, spawning,
    process exclusion and the end-of-function marker. */
module Control {
  import opened Words
  import opened Wrappers
  import opened Globals
  import opened State
  import opened Opcodes

  /** What a control opcode leaves alone: the heaps, the globals and the
      process id; and an opcode that reports an error has not moved the
      instruction pointer. */
  predicate ControlStep(env: Env, s: Slice, t: Slice)
  {
    t.h == s.h && t.g == s.g && t.p.pid == s.p.pid && (t.error && !s.error ==> t.p.ip == s.p.ip)
    && (s.pos <= |s.code| ==> t.pos <= |t.code|) && (t.code == s.code || t.code in env.classes.Values)
  }

  predicate IsControlOp(op: u8)
  {
    op == 0x0F || op == 0x11 || op == 0x50 || op == 0x51 || op == 0x52 || op == 0x53 || op == 0x54
    || op == 0x57 || op == 0x58 || op == 0x78 || op == 0x7A
  }

  /** 0x0F xx yyyy: call intrinsic yyyy on the xx argument bytes on top of
      the stack (left there) and put its result in the temp register; an
      unknown intrinsic gives 0 (the source peeks at a 4-byte this-pointer
      first when there are at least 4 argument bytes). */
  function CallIntrinsic(env: Env, s: Slice, argBytes: u8, func: u16): (r: Option<Slice>)
    ensures r.Some? ==> r.value == s.(p := s.p.(temp32 := r.value.p.temp32))
    ensures r.Some? && func !in env.intrinsics ==> r.value.p.temp32 == 0
  {
    if func !in env.intrinsics then
      var probe :- if argBytes >= 4 then Read(s, SP(s), 4) else Some([]);
      Some(s.(p := s.p.(temp32 := 0)))
    else
      var args :- Read(s, SP(s), argBytes);
      Some(s.(p := s.p.(temp32 := env.intrinsics[func](args))))
  }

  /** 0x11 cccc oooo: save the return position (truncated to 16 bits), push
      the caller's class, ip and bp, make sp the new bp and continue at
      offset oooo of class cccc (in the Crusader games oooo numbers an event
      that the class's table maps to an offset). */
  function Call(env: Env, s: Slice, cls: u16, off: u16): (r: Option<Slice>)
    ensures r.Some? ==> cls in env.classes
    ensures r.Some? ==> r.value.p.classId == cls && r.value.code == env.classes[cls]
    ensures r.Some? ==> r.value.p.ip == r.value.pos
    ensures r.Some? ==> ControlStep(env, s, r.value) && r.value.error == s.error
  {
    var offset := if IsCrusader(env.variant) then env.classEvent(cls, off) else off;
    var s1 := s.(p := s.p.(ip := Wrap16(s.pos)));
    var s2 :- Push2(s1, s1.p.classId);
    var s3 :- Push2(s2, s1.p.ip);
    var s4 :- Push2(s3, s1.p.bp);
    if cls !in env.classes then None
    else
      var s5 := s4.(p := s4.p.(classId := cls, ip := offset, bp := Wrap16(SP(s4))), code := env.classes[cls]);
      Seek(s5, offset)
  }

  /** 0x50: drop the frame (sp := bp), pop bp, ip and class; the sentinel
      ip and class 0xFFFF mark the outermost frame, whose return terminates
      the process (deferred), otherwise execution resumes in the caller. */
  function Return(env: Env, s: Slice): (r: Option<Slice>)
    ensures r.Some? ==> ControlStep(env, s, r.value) && r.value.error == s.error
  {
    var s1 := WithStack(s, s.p.stack.(sp := s.p.bp));
    var (bp, s2) :- Pop2(s1);
    var (ip, s3) :- Pop2(s2);
    var (cls, s4) :- Pop2(s3);
    var s5 := s4.(p := s4.p.(bp := bp, ip := ip, classId := cls));
    if ip == 0xFFFF && cls == 0xFFFF then Some(s5.(p := s5.p.(terminated := true)))
    else if cls !in env.classes then None
    else Seek(s5.(code := env.classes[cls]), ip)
  }

  /** 0x54 01 01: pop a then b and push a back. When both processes exist,
      b waits for a, and the current slice runs on to its next cede even if
      b is the current process; otherwise a missing process other than 0 is
      an error. */
  function Implies(env: Env, s: Slice): (r: Option<Slice>)
    ensures r.Some? ==> ControlStep(env, s, r.value)
  {
    var (a, s1) :- Pop2(s);
    var (b, s2) :- Pop2(s1);
    var s3 :- Push2(s2, a);
    if ProcessExists(s3, b) && ProcessExists(s3, a) then
      var s4 := s3.(k := s3.k.(waits := s3.k.waits + [(b, a)]), goUntilCede := true);
      Some(if b == s.p.pid then s4.(p := s4.p.(suspended := true)) else s4)
    else if (a != 0 && !ProcessExists(s3, a)) || (b != 0 && !ProcessExists(s3, b)) then Some(Fail(s3))
    else Some(s3)
  }

  /** 0x57 aa tt cccc oooo: pop the this-pointer and hand the scheduler a
      new process at class cccc, offset oooo (an event number in Crusader),
      with a copy of the aa argument bytes now on top of the stack; its id
      goes to the temp register. */
  function Spawn(env: Env, s: Slice, argBytes: u8, thisSize: u8, cls: u16, off: u16): (r: Option<Slice>)
    ensures r.Some? ==> ControlStep(env, s, r.value) && r.value.error == s.error
    ensures r.Some? ==> |r.value.k.spawned| == |s.k.spawned| + 1
    ensures r.Some? ==> r.value.p.temp32 == env.newPid(|s.k.spawned|)
  {
    var (thisPtr, s1) :- Pop4(s);
    var offset := if IsCrusader(env.variant) then env.classEvent(cls, off) else off;
    var args :- Read(s1, SP(s1), argBytes);
    var n := |s1.k.spawned|;
    var s2 := s1.(k := s1.k.(spawned := s1.k.spawned + [State.Spawn(cls, offset, thisPtr, thisSize, args)]));
    Some(s2.(p := s2.p.(temp32 := env.newPid(n))))
  }

  /** 0x58 cccc oooo dddd tt uu: spawn an inline process at offset
      oooo+dddd of class cccc, with the this-pointer at bp+6 when tt > 0,
      and push its id. The source asserts that this is Ultima 8. */
  function SpawnInline(env: Env, s: Slice, cls: u16, off: u16, delta: u16, thisSize: u8): (r: Option<Slice>)
    ensures r.Some? ==> ControlStep(env, s, r.value) && r.value.error == s.error
    ensures r.Some? ==> env.variant == U8
  {
    if IsCrusader(env.variant) then None
    else
      var thisPtr :- if thisSize > 0 then Read4(s, Local(s, 6)) else Some(0);
      var n := |s.k.spawned|;
      var s1 := s.(k := s.k.(spawned := s.k.spawned + [State.Spawn(cls, Wrap16(off + delta), thisPtr, thisSize, [])]));
      Push2(s1, env.newPid(n))
  }

  /** One control opcode, with its operand bytes. */
  function ExecControl(env: Env, s: Slice, op: u8, arg: seq<u8>): (r: Option<Slice>)
    requires IsControlOp(op) && |arg| == Operands(op)
    ensures r.Some? ==> ControlStep(env, s, r.value)
  {
    match op
    case 0x0F => CallIntrinsic(env, s, arg[0], FromLE16(arg[1..3]))
    case 0x11 => Call(env, s, FromLE16(arg[..2]), FromLE16(arg[2..4]))
    case 0x50 => Return(env, s)
    // jump if the popped value is false; jump
    case 0x51 =>
      var (v, s1) :- Pop2(s);
      if v == 0 then Jump(s1, FromLE16(arg[..2])) else Some(s1)
    case 0x52 => Jump(s, FromLE16(arg[..2]))
    // suspend
    case 0x53 => Some(s.(cede := true, goUntilCede := false))
    case 0x54 => Implies(env, s)
    case 0x57 => Spawn(env, s, arg[0], arg[1], FromLE16(arg[2..4]), FromLE16(arg[4..6]))
    case 0x58 => SpawnInline(env, s, FromLE16(arg[..2]), FromLE16(arg[2..4]), FromLE16(arg[4..6]), arg[6])
    // process exclude: another process with this (item, type) ends this one
    case 0x78 =>
      if env.processCount(s.p.itemNum, s.p.procType) > 1 then Some(s.(p := s.p.(terminated := true)))
      else Some(s)
    // end of function: never reached in well-formed code
    case 0x7A => Some(Fail(s))
  }

  /** t is s after 0x11 has built its frame: the caller's bp, return
      position and class on top of the stack, bp at the new top, the called
      class current, and nothing else of the process or the machine
      changed. */
  predicate CalledFrom(s: Slice, cls: u16, t: Slice)
  {
    0 <= SP(t) == SP(s) - 6 && t.p.bp == Wrap16(SP(t)) && |t.p.stack.buf| == |s.p.stack.buf|
    && Read2(t, SP(t)) == Some(s.p.bp) && Read2(t, SP(t) + 2) == Some(Wrap16(s.pos))
    && Read2(t, SP(t) + 4) == Some(s.p.classId)
    && t == s.(p := t.p, code := t.code, pos := t.pos)
    && t.p == s.p.(classId := cls, ip := t.p.ip, bp := t.p.bp, stack := t.p.stack)
  }

  lemma CallFrame(env: Env, s: Slice, cls: u16, off: u16)
    requires Call(env, s, cls, off).Some?
    ensures CalledFrom(s, cls, Call(env, s, cls, off).value)
  {
    var s1 := s.(p := s.p.(ip := Wrap16(s.pos)));
    var s2 := Push2(s1, s1.p.classId).value;
    var s3 := Push2(s2, s1.p.ip).value;
    var s4 := Push2(s3, s1.p.bp).value;
    Push2Reads(s1, s1.p.classId);
    Push2Reads(s2, s1.p.ip);
    Push2Keeps(s2, s1.p.ip, SP(s2));
    Push2Reads(s3, s1.p.bp);
    Push2Keeps(s3, s1.p.bp, SP(s3));
    Push2Keeps(s3, s1.p.bp, SP(s3) + 2);
  }

  /** 0x50 pops the frame at bp: the saved bp, ip and class come back and
      execution resumes in that class at that ip. */
  lemma ReturnFrame(env: Env, t: Slice, bp: u16, ip: u16, cls: u16)
    requires t.p.bp == SP(t)
    requires Read2(t, SP(t)) == Some(bp) && Read2(t, SP(t) + 2) == Some(ip) && Read2(t, SP(t) + 4) == Some(cls)
    requires !(ip == 0xFFFF && cls == 0xFFFF) && cls in env.classes && ip <= |env.classes[cls]|
    ensures var u := MoveSP(t, 6);
      Return(env, t) == Some(u.(p := u.p.(bp := bp, ip := ip, classId := cls), code := env.classes[cls], pos := ip))
  {
    var t1 := WithStack(t, t.p.stack.(sp := t.p.bp));
    assert t1 == MoveSP(t, 0);
    PopTwo2(t1, bp, ip);
    Pop2Reads(MoveSP(t1, 4), cls);
    assert MoveSP(MoveSP(t1, 4), 2) == MoveSP(t, 6);
  }

  /** 0x50 on a frame that 0x11 built pops it: the caller's class, code,
      return position, ip and bp come back, and the stack pointer is where
      it was before the call. */
  lemma ReturnToCaller(env: Env, s: Slice, cls: u16, t: Slice)
    requires CalledFrom(s, cls, t)
    requires s.p.classId in env.classes && s.code == env.classes[s.p.classId]
    requires s.pos <= |s.code| < 0xFFFF && |s.p.stack.buf| <= 0x10000
    ensures Return(env, t).Some?
    ensures var r := Return(env, t).value;
      r.p == s.p.(ip := s.pos, stack := r.p.stack) && SP(r) == SP(s)
      && r.code == s.code && r.pos == s.pos
      && r.h == s.h && r.g == s.g && r.k == s.k && r.error == s.error
  {
    ReturnFrame(env, t, s.p.bp, s.pos, s.p.classId);
  }

  /** A call followed by a return comes back to the caller. */
  lemma CallReturn(env: Env, s: Slice, cls: u16, off: u16)
    requires Call(env, s, cls, off).Some?
    requires s.p.classId in env.classes && s.code == env.classes[s.p.classId]
    requires s.pos <= |s.code| < 0xFFFF && |s.p.stack.buf| <= 0x10000
    ensures Return(env, Call(env, s, cls, off).value).Some?
    ensures var r := Return(env, Call(env, s, cls, off).value).value;
      r.p == s.p.(ip := s.pos, stack := r.p.stack) && SP(r) == SP(s)
      && r.code == s.code && r.pos == s.pos
  {
    CallFrame(env, s, cls, off);
    ReturnToCaller(env, s, cls, Call(env, s, cls, off).value);
  }

  /** 0x54 with a on top and b under it, when both processes exist: a is
      pushed back in place of the two, the wait (b, a) is recorded, the
      slice runs on to its next cede, and the running process suspends
      exactly when it is b. */
  lemma ImpliesWaits(env: Env, s: Slice, a: u16, b: u16)
    requires Read2(s, SP(s)) == Some(a) && Read2(s, SP(s) + 2) == Some(b)
    requires ProcessExists(s, a) && ProcessExists(s, b)
    ensures Implies(env, s).Some?
    ensures var t := Implies(env, s).value;
      SP(t) == SP(s) + 2 && Read2(t, SP(t)) == Some(a)
      && t.k.waits == s.k.waits + [(b, a)] && t.k.live == s.k.live && t.goUntilCede && t.error == s.error
      && (t.p.suspended <==> s.p.suspended || b == s.p.pid)
  {
    PopTwo2(s, a, b);
    Push2Reads(MoveSP(s, 4), a);
  }

  /** 0x54 when a process is missing: a is pushed back, no wait is
      recorded, and the opcode fails exactly when a missing process has an
      id other than 0. */
  lemma ImpliesMissing(env: Env, s: Slice, a: u16, b: u16)
    requires Read2(s, SP(s)) == Some(a) && Read2(s, SP(s) + 2) == Some(b)
    requires !ProcessExists(s, a) || !ProcessExists(s, b)
    ensures Implies(env, s).Some?
    ensures var t := Implies(env, s).value;
      SP(t) == SP(s) + 2 && Read2(t, SP(t)) == Some(a) && t.k == s.k && t.p.suspended == s.p.suspended
      && (t.error <==> s.error || (a != 0 && !ProcessExists(s, a)) || (b != 0 && !ProcessExists(s, b)))
  {
    PopTwo2(s, a, b);
    Push2Reads(MoveSP(s, 4), a);
  }
}
