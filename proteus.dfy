/** The Proteus bridge between the JIT interpreter and native code: the ROM
    injections, the lookup of the fiber that owns the current CPU mode, and the
    two native bodies swi_native_test and swi_native_test_2 (Proteus/Test.cpp). */
module Proteus {
  import opened Basics
  import opened Fibers

  /** ARM processor modes. */
  datatype Mode = User | Fiq | Irq | Supervisor | AbortMode | Undefined | System

  /** The native functions whose addresses are passed as user data. */
  datatype NativeFn = SwiNativeTest | SwiNativeTest2

  /** A JIT unit, the thing an injection handler receives as ioUnit. */
  type JitUnit = nat

  /** What a handler gives back to the interpreter: the original unit ("also
      interpret this one"), nullptr ("redirected, PC already changed"), or a
      crash of the emulator (a null pointer dereferenced, a dead fiber resumed,
      a null function called). */
  datatype Outcome = Interpret(unit: JitUnit) | Redirected | Fatal

  /** The ROM injections this file registers. */
  datatype Injection = InitializeProteus | ReturnToFiber | SwiTest | SwiTest2

  function InjectionAddress(i: Injection): (a: Word)
    ensures InjectionAt(a) == Some(i)
  {
    match i
    case InitializeProteus => 0x0000_0000
    case ReturnToFiber => 0x007F_FFF0
    case SwiTest => 0x003A_D80C
    case SwiTest2 => 0x000E_589C
  }

  /** The injection registered at an address, if any; since it inverts
      InjectionAddress, no two injections share an address. */
  function InjectionAt(a: Word): Option<Injection> {
    if a == 0x0000_0000 then Some(InitializeProteus)
    else if a == 0x007F_FFF0 then Some(ReturnToFiber)
    else if a == 0x003A_D80C then Some(SwiTest)
    else if a == 0x000E_589C then Some(SwiTest2)
    else None
  }

  /** The synthetic return address swi_native_test puts in LR. */
  const ReturnToFiberAddress: Word := InjectionAddress(ReturnToFiber)
  /** Where swi_native_test sends the JIT: VEC_StartScheduler, plus the pipeline offset. */
  const StartSchedulerPC: Word := 0x001C_C4A8 + 4
  /** Past the "ldmia sp!, {r0}" that ends the replaced SWI fragment. */
  const AfterSwiTestPC: Word := 0x003A_D818 + 4
  /** Past the "mov r4, r0" that swi_native_test_2 replaces. */
  const AfterSwiTest2PC: Word := 0x000E_58A0 + 4

  /** The word below a stack pointer, with 32-bit wrap-around. */
  function Below(sp: Word): (b: Word)
    ensures (b + 4) % 0x1_0000_0000 == sp
  {
    if sp >= 4 then sp - 4 else sp + 0x1_0000_0000 - 4
  }

  /** The word above a stack pointer, with 32-bit wrap-around. */
  function Above(sp: Word): (up: Word)
    ensures Below(up) == sp
  {
    if sp < 0x1_0000_0000 - 4 then sp + 4 else sp + 4 - 0x1_0000_0000
  }

  lemma AboveBelow(sp: Word)
    ensures Above(Below(sp)) == sp
  {
  }

  /** The SVC fiber as seen through svcFiber: nullptr until "Initialize
      Proteus" creates it; then suspended inside `depth` nested SwitchToJIT
      loops, or finished once its outermost loop has returned. */
  datatype FiberState = NoFiber | SuspendedIn(depth: nat) | Finished

  /** What findCurrentFiber returns. */
  datatype FiberRef = Null | SvcFiber

  /** The emulated CPU (mode, the registers the core touches, memory) together
      with the Proteus globals CPU and svcFiber, and the error log. */
  class Machine {
    var cpuBound: bool  // CPU != nullptr: "Initialize Proteus" has run
    var mode: Mode
    var r0: Word
    var r4: Word
    var sp: Word
    var lr: Word
    var pc: Word
    var mem: map<Word, Word>
    var svcFiber: FiberState
    var log: seq<int>

    /** A suspended fiber sits in at least its outermost SwitchToJIT. */
    ghost predicate Valid()
      reads this
    {
      svcFiber.SuspendedIn? ==> svcFiber.depth >= 1
    }

    /** The CPU at the moment the emulator starts: no fiber, Proteus not yet initialised. */
    constructor (mode: Mode, r0: Word, r4: Word, sp: Word, lr: Word, pc: Word, mem: map<Word, Word>)
      ensures Valid() && !cpuBound && svcFiber == NoFiber && log == []
      ensures this.mode == mode && this.r0 == r0 && this.r4 == r4 && this.sp == sp
      ensures this.lr == lr && this.pc == pc && this.mem == mem
    {
      cpuBound := false;
      this.mode, this.r0, this.r4, this.sp, this.lr, this.pc, this.mem := mode, r0, r4, sp, lr, pc, mem;
      svcFiber := NoFiber;
      log := [];
    }

    /** findCurrentFiber: the SVC fiber in supervisor mode, nullptr in every
        other mode or while no fiber exists. A pure query. */
    function FindCurrentFiber(): (f: FiberRef)
      reads this
      requires cpuBound
      ensures f == SvcFiber <==> mode == Supervisor && svcFiber != NoFiber
    {
      if mode == Supervisor && svcFiber != NoFiber then SvcFiber else Null
    }

    /** PUSH(SP, x): decrement SP by a word, then store x there. */
    method Push(x: Word)
      modifies this
      ensures sp == Below(old(sp)) && mem == old(mem)[sp := x]
      ensures Load(mem, sp) == x
      ensures r0 == old(r0) && r4 == old(r4) && lr == old(lr) && pc == old(pc)
      ensures mode == old(mode) && cpuBound == old(cpuBound) && svcFiber == old(svcFiber) && log == old(log)
    {
      sp := Below(sp);
      mem := mem[sp := x];
    }

    /** POP(SP, x): load the word at SP, then increment SP by a word. */
    method Pop() returns (x: Word)
      modifies this
      ensures x == Load(old(mem), old(sp)) && sp == Above(old(sp))
      ensures mem == old(mem) && r0 == old(r0) && r4 == old(r4) && lr == old(lr) && pc == old(pc)
      ensures mode == old(mode) && cpuBound == old(cpuBound) && svcFiber == old(svcFiber) && log == old(log)
    {
      x := Load(mem, sp);
      sp := Above(sp);
    }

    /** swi_native_test up to its call into the JIT: save R0 on the stack, set
        the synthetic return address and jump to VEC_StartScheduler. */
    method SwiNativeTestCall()
      modifies this
      ensures sp == Below(old(sp)) && mem == old(mem)[sp := old(r0)]
      ensures lr == ReturnToFiberAddress && pc == StartSchedulerPC
      ensures r0 == old(r0) && r4 == old(r4)
      ensures mode == old(mode) && cpuBound == old(cpuBound) && svcFiber == old(svcFiber) && log == old(log)
    {
      Push(r0);
      lr := ReturnToFiberAddress;
      pc := StartSchedulerPC;
    }

    /** swi_native_test after the JIT has returned to it: restore R0 from the
        stack and continue past the replaced fragment. */
    method SwiNativeTestReturn()
      modifies this
      ensures r0 == Load(old(mem), old(sp)) && sp == Above(old(sp)) && pc == AfterSwiTestPC
      ensures mem == old(mem) && r4 == old(r4) && lr == old(lr)
      ensures mode == old(mode) && cpuBound == old(cpuBound) && svcFiber == old(svcFiber) && log == old(log)
    {
      r0 := Pop();
      pc := AfterSwiTestPC;
    }

    /** swi_native_test_2, which replaces "mov r4, r0". */
    method SwiNativeTest2()
      modifies this
      ensures r4 == old(r0) && pc == AfterSwiTest2PC
      ensures r0 == old(r0) && sp == old(sp) && lr == old(lr) && mem == old(mem)
      ensures mode == old(mode) && cpuBound == old(cpuBound) && svcFiber == old(svcFiber) && log == old(log)
    {
      r4 := r0;
      pc := AfterSwiTest2PC;
    }

    /** The found fiber's Resume(reason, userData): the innermost SwitchToJIT the
        fiber is suspended in acts on the resume (Dispatch) and the fiber runs
        until it suspends again or its outermost loop returns. A kFiberReturn
        at depth > 1 ends a nested SwitchToJIT, whose caller is always
        swi_native_test; at depth 1 it ends Task and the fiber finishes. */
    method Resume(code: int, userData: Option<NativeFn>) returns (ok: bool)
      requires Valid() && cpuBound && FindCurrentFiber() == SvcFiber
      modifies this
      ensures Valid() && mode == old(mode) && cpuBound
      ensures ok <==> old(svcFiber).SuspendedIn? && !Dispatch(Message(code, userData)).CallNull?
      ensures !ok ==> svcFiber == old(svcFiber)
      ensures ok && old(svcFiber).SuspendedIn? ==> var d := old(svcFiber).depth;
        match Dispatch(Message(code, userData))
        case Leave =>
          if d == 1 then
            svcFiber == Finished && r0 == old(r0) && sp == old(sp) && pc == old(pc)
            && r4 == old(r4) && lr == old(lr) && mem == old(mem) && log == old(log)
          else
            svcFiber == SuspendedIn(d - 1) && r0 == Load(old(mem), old(sp)) && sp == Above(old(sp))
            && pc == AfterSwiTestPC && r4 == old(r4) && lr == old(lr) && mem == old(mem) && log == old(log)
        case Call(fn) =>
          if fn == NativeFn.SwiNativeTest then
            svcFiber == SuspendedIn(d + 1) && sp == Below(old(sp)) && mem == old(mem)[sp := old(r0)]
            && lr == ReturnToFiberAddress && pc == StartSchedulerPC && r0 == old(r0) && r4 == old(r4) && log == old(log)
          else
            svcFiber == SuspendedIn(d) && r4 == old(r0) && pc == AfterSwiTest2PC
            && r0 == old(r0) && sp == old(sp) && lr == old(lr) && mem == old(mem) && log == old(log)
        case CallNull => false
        case Complain(c) =>
          svcFiber == old(svcFiber) && log == old(log) + [c]
          && r0 == old(r0) && r4 == old(r4) && sp == old(sp) && lr == old(lr) && pc == old(pc) && mem == old(mem)
    {
      match svcFiber
      case Finished =>
        ok := false;
      case SuspendedIn(d) =>
        match Dispatch(Message(code, userData))
        case Leave =>
          if d == 1 {
            svcFiber := Finished;
          } else {
            SwiNativeTestReturn();
            svcFiber := SuspendedIn(d - 1);
          }
          ok := true;
        case CallNull =>
          ok := false;
        case Call(fn) =>
          if fn == NativeFn.SwiNativeTest {
            SwiNativeTestCall();
            svcFiber := SuspendedIn(d + 1);
          } else {
            SwiNativeTest2();
          }
          ok := true;
        case Complain(c) =>
          log := log + [c];
          ok := true;
    }

    /** A run of resumes delivered to the SVC fiber while none of them is a
        kFiberReturn, a null call or a call of swi_native_test, so that the
        fiber stays in the same SwitchToJIT loop throughout. The machine logs
        exactly what the trampoline specification Loop logs, and its registers
        show that swi_native_test_2 ran exactly when Loop calls a function. */
    method ResumeEach(resumes: seq<Message<NativeFn>>)
      requires Valid() && cpuBound && FindCurrentFiber() == SvcFiber && svcFiber.SuspendedIn?
      requires forall i :: 0 <= i < |resumes| ==> !Stops(resumes[i])
      requires forall i :: 0 <= i < |resumes| ==> Dispatch(resumes[i]) != Call(NativeFn.SwiNativeTest)
      modifies this
      ensures Valid() && cpuBound && mode == old(mode) && svcFiber == old(svcFiber)
      ensures log == old(log) + Logs(Loop(resumes).trace)
      ensures Calls(Loop(resumes).trace) == [] ==> r4 == old(r4) && pc == old(pc)
      ensures Calls(Loop(resumes).trace) != [] ==> r4 == old(r0) && pc == AfterSwiTest2PC
      ensures r0 == old(r0) && sp == old(sp) && lr == old(lr) && mem == old(mem)
    {
      var i := 0;
      while i < |resumes|
        invariant i <= |resumes|
        invariant Valid() && cpuBound && mode == old(mode) && svcFiber == old(svcFiber)
        invariant log == old(log) + Strays(resumes[..i])
        invariant Requested(resumes[..i]) == [] ==> r4 == old(r4) && pc == old(pc)
        invariant Requested(resumes[..i]) != [] ==> r4 == old(r0) && pc == AfterSwiTest2PC
        invariant r0 == old(r0) && sp == old(sp) && lr == old(lr) && mem == old(mem)
      {
        var m := resumes[i];
        var ok := Resume(m.reason, m.userData);
        ServedNext(resumes, i);
        i := i + 1;
      }
      assert resumes[..i] == resumes;
      LoopLogsStrays(resumes);
      LoopCallsRequested(resumes);
    }

    /** "Initialize Proteus" at 0x00000000: bind the CPU global and, unless
        the SVC fiber exists already, create it and Run it; its Task enters
        SwitchToJIT, which suspends at once. The unit is always interpreted. */
    method InitializeProteusHandler(unit: JitUnit) returns (r: Outcome)
      requires Valid()
      modifies this
      ensures Valid() && cpuBound && r == Interpret(unit)
      ensures svcFiber == if old(svcFiber) == NoFiber then SuspendedIn(1) else old(svcFiber)
      ensures mode == old(mode) && r0 == old(r0) && r4 == old(r4) && sp == old(sp)
      ensures lr == old(lr) && pc == old(pc) && mem == old(mem) && log == old(log)
    {
      cpuBound := true;
      if svcFiber == NoFiber {
        svcFiber := SuspendedIn(1);
      }
      r := Interpret(unit);
    }

    /** "ReturnToFiber" at 0x007FFFF0, where swi_native_test's synthetic return
        address leads: resume the current fiber with kFiberReturn, without
        checking that there is one. */
    method ReturnToFiberHandler(unit: JitUnit) returns (r: Outcome)
      requires Valid()
      modifies this
      ensures Valid() && cpuBound == old(cpuBound) && mode == old(mode)
      ensures !old(cpuBound) || old(FindCurrentFiber()) == Null ==> r == Fatal
      ensures old(cpuBound) && old(FindCurrentFiber()) == SvcFiber ==>
        if old(svcFiber) == Finished then r == Fatal
        else
          var d := old(svcFiber).depth;
          && r == Redirected && mode == old(mode) && r4 == old(r4) && lr == old(lr) && mem == old(mem) && log == old(log)
          && (d == 1 ==> svcFiber == Finished && r0 == old(r0) && sp == old(sp) && pc == old(pc))
          && (d > 1 ==> svcFiber == SuspendedIn(d - 1) && r0 == Load(old(mem), old(sp))
                        && sp == Above(old(sp)) && pc == AfterSwiTestPC)
    {
      if !cpuBound || FindCurrentFiber() == Null {
        return Fatal;
      }
      var ok := Resume(Code(Return), None);
      r := if ok then Redirected else Fatal;
    }

    /** "SWI Test" at 0x003AD80C: outside a fiber fall back to the JIT;
        otherwise have the fiber call swi_native_test, which saves R0, points LR
        at ReturnToFiber, sends the JIT to VEC_StartScheduler and waits in a
        nested SwitchToJIT. */
    method SwiTestHandler(unit: JitUnit) returns (r: Outcome)
      requires Valid()
      modifies this
      ensures Valid() && cpuBound == old(cpuBound) && mode == old(mode)
      ensures !old(cpuBound) ==> r == Fatal
      ensures old(cpuBound) && old(FindCurrentFiber()) == Null ==> r == Interpret(unit) && unchanged(this)
      ensures old(cpuBound) && old(FindCurrentFiber()) == SvcFiber ==>
        if old(svcFiber) == Finished then r == Fatal
        else
          && r == Redirected && svcFiber == SuspendedIn(old(svcFiber).depth + 1)
          && sp == Below(old(sp)) && mem == old(mem)[sp := old(r0)]
          && lr == ReturnToFiberAddress && pc == StartSchedulerPC
          && r0 == old(r0) && r4 == old(r4) && mode == old(mode) && log == old(log)
    {
      if !cpuBound {
        return Fatal;
      }
      var fiber := FindCurrentFiber();
      if fiber == Null {
        return Interpret(unit);
      }
      var ok := Resume(Code(CallNative), Some(NativeFn.SwiNativeTest));
      r := if ok then Redirected else Fatal;
    }

    /** "SWI Test 2" at 0x000E589C: outside a fiber fall back to the JIT;
        otherwise have the fiber run swi_native_test_2 and suspend again. */
    method SwiTest2Handler(unit: JitUnit) returns (r: Outcome)
      requires Valid()
      modifies this
      ensures Valid() && cpuBound == old(cpuBound) && mode == old(mode)
      ensures !old(cpuBound) ==> r == Fatal
      ensures old(cpuBound) && old(FindCurrentFiber()) == Null ==> r == Interpret(unit) && unchanged(this)
      ensures old(cpuBound) && old(FindCurrentFiber()) == SvcFiber ==>
        if old(svcFiber) == Finished then r == Fatal
        else
          && r == Redirected && svcFiber == old(svcFiber)
          && r4 == old(r0) && pc == AfterSwiTest2PC
          && r0 == old(r0) && sp == old(sp) && lr == old(lr) && mem == old(mem) && mode == old(mode) && log == old(log)
    {
      if !cpuBound {
        return Fatal;
      }
      var fiber := FindCurrentFiber();
      if fiber == Null {
        return Interpret(unit);
      }
      var ok := Resume(Code(CallNative), Some(NativeFn.SwiNativeTest2));
      r := if ok then Redirected else Fatal;
    }

    /** The interpreter reaching an address: an injection there runs its
        handler; anywhere else the unit is interpreted and nothing changes. */
    method AtAddress(addr: Word, unit: JitUnit) returns (r: Outcome)
      requires Valid()
      modifies this
      ensures Valid()
      ensures InjectionAt(addr) == None ==> r == Interpret(unit) && unchanged(this)
    {
      match InjectionAt(addr)
      case None =>
        r := Interpret(unit);
      case Some(InitializeProteus) =>
        r := InitializeProteusHandler(unit);
      case Some(ReturnToFiber) =>
        r := ReturnToFiberHandler(unit);
      case Some(SwiTest) =>
        r := SwiTestHandler(unit);
      case Some(SwiTest2) =>
        r := SwiTest2Handler(unit);
    }
  }

  /** The SWI fragment at 0x003AD80C run natively, end to end: initialise,
      hit "SWI Test" in supervisor mode, let the JIT run VEC_StartScheduler
      until it comes back to the synthetic return address in LR, and hit
      "ReturnToFiber". The JIT code may change R0, R4 and any memory, but it
      keeps the stack balanced: the word swi_native_test pushed still holds R0
      when it returns. R0 and SP end as they started, execution continues
      after the fragment, and the fiber is back in its outermost loop. */
  method SwiCallReturnRoundTrip(r0: Word, r4: Word, sp: Word, mem: map<Word, Word>,
                                jitR0: Word, jitR4: Word, jitMem: map<Word, Word>)
    returns (call: Outcome, back: Outcome, finalR0: Word, finalSp: Word, finalPc: Word, fiber: FiberState)
    requires Load(jitMem, Below(sp)) == r0
    ensures call == Redirected && back == Redirected
    ensures finalR0 == r0 && finalSp == sp && finalPc == AfterSwiTestPC
    ensures fiber == SuspendedIn(1)
  {
    var m := new Machine(Supervisor, r0, r4, sp, 0, InjectionAddress(SwiTest), mem);
    var init := m.InitializeProteusHandler(0);
    call := m.SwiTestHandler(1);
    assert m.lr == ReturnToFiberAddress && Load(m.mem, m.sp) == r0;
    m.r0, m.r4, m.mem := jitR0, jitR4, jitMem;
    assert m.svcFiber == SuspendedIn(2) && m.FindCurrentFiber() == SvcFiber;
    assert InjectionAt(m.lr) == Some(ReturnToFiber);
    back := m.ReturnToFiberHandler(2);
    AboveBelow(sp);
    finalR0, finalSp, finalPc, fiber := m.r0, m.sp, m.pc, m.svcFiber;
  }

  /** The SWI Test fragment entered again while the JIT code it called is
      still running: the two calls nest, and the two returns restore each R0
      in turn, innermost first. */
  method NestedSwiCalls(r0: Word, sp: Word, inner: Word)
    returns (innerR0: Word, outerR0: Word, finalSp: Word, fiber: FiberState)
    ensures innerR0 == inner && outerR0 == r0 && finalSp == sp && fiber == SuspendedIn(1)
  {
    var m := new Machine(Supervisor, r0, 0, sp, 0, InjectionAddress(SwiTest), map[]);
    var init := m.InitializeProteusHandler(0);
    var call := m.SwiTestHandler(1);
    assert m.svcFiber == SuspendedIn(2) && m.FindCurrentFiber() == SvcFiber;
    m.r0 := inner;
    call := m.SwiTestHandler(1);
    assert m.svcFiber == SuspendedIn(3) && m.FindCurrentFiber() == SvcFiber;
    var back := m.ReturnToFiberHandler(2);
    innerR0 := m.r0;
    assert m.svcFiber == SuspendedIn(2) && m.FindCurrentFiber() == SvcFiber;
    back := m.ReturnToFiberHandler(2);
    outerR0 := m.r0;
    AboveBelow(sp);
    AboveBelow(Below(sp));
    finalSp, fiber := m.sp, m.svcFiber;
  }

  /** Outside supervisor mode both SWI handlers fall back to the JIT and leave
      every register as it was, even once the SVC fiber exists. */
  method FallbackOutsideSupervisor(mode: Mode, r0: Word, r4: Word, sp: Word, pc: Word)
    returns (first: Outcome, second: Outcome, regs: (Word, Word, Word, Word))
    requires mode != Supervisor
    ensures first == Interpret(1) && second == Interpret(2)
    ensures regs == (r0, r4, sp, pc)
  {
    var m := new Machine(mode, r0, r4, sp, 0, pc, map[]);
    var init := m.InitializeProteusHandler(0);
    first := m.SwiTestHandler(1);
    second := m.SwiTest2Handler(2);
    regs := (m.r0, m.r4, m.sp, m.pc);
  }

  /** "SWI Test 2" in supervisor mode: R4 takes R0 and execution skips the
      replaced instruction; the fiber stays in its outermost loop. */
  method SwiTest2Native(r0: Word, r4: Word, sp: Word)
    returns (r: Outcome, finalR0: Word, finalR4: Word, finalSp: Word, finalPc: Word, fiber: FiberState)
    ensures r == Redirected && finalR4 == r0 && finalR0 == r0 && finalSp == sp
    ensures finalPc == AfterSwiTest2PC && fiber == SuspendedIn(1)
  {
    var m := new Machine(Supervisor, r0, r4, sp, 0, InjectionAddress(SwiTest2), map[]);
    var init := m.InitializeProteusHandler(0);
    r := m.SwiTest2Handler(3);
    finalR0, finalR4, finalSp, finalPc, fiber := m.r0, m.r4, m.sp, m.pc, m.svcFiber;
  }
}
