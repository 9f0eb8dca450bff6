/** The resume reasons and the trampoline loop TProteusFiber::SwitchToJIT.
    Context switching is not modelled: each Suspend(kFiberCallJIT) hands control
    back, and the next Resume is the next element of an input sequence. */
module Fibers {
  import opened Basics

  /** The reasons a fiber and its resumer exchange (kFiberAbort .. kFiberUnknown). */
  datatype Reason = Abort | Idle | CallNative | CallJIT | Return | Unknown

  /** The enum's integer value: the first is 1 and the rest count up from it. */
  function Code(r: Reason): (c: int)
    ensures 1 <= c <= 6
    ensures ReasonOf(c) == Some(r)
  {
    match r
    case Abort => 1
    case Idle => 2
    case CallNative => 3
    case CallJIT => 4
    case Return => 5
    case Unknown => 6
  }

  /** The reason an integer code stands for, if any. */
  function ReasonOf(c: int): (r: Option<Reason>)
    ensures r.Some? <==> 1 <= c <= 6
  {
    if c == 1 then Some(Abort)
    else if c == 2 then Some(Idle)
    else if c == 3 then Some(CallNative)
    else if c == 4 then Some(CallJIT)
    else if c == 5 then Some(Return)
    else if c == 6 then Some(Unknown)
    else None
  }

  /** One Resume delivered to the suspended fiber: the reason code (any int, as
      Resume takes an int) and the user data, None standing for nullptr. The
      user data of a kFiberCallNative names a native function; this module is
      generic in how functions are named (F), and a called function returns to
      the loop before the loop takes the next resume. A native function that
      itself enters SwitchToJIT is the business of its caller: each such entry
      is a loop of its own (Proteus.Machine.Resume tracks the nesting). */
  datatype Message<F> = Message(reason: int, userData: Option<F>)

  /** What the switch in SwitchToJIT does with one resume. */
  datatype Action<F> =
    | Leave               // kFiberReturn: return from SwitchToJIT
    | Call(fn: F)         // kFiberCallNative: call the user data
    | CallNull            // kFiberCallNative with nullptr user data: the call faults
    | Complain(code: int) // any other reason: logged, keep waiting

  function Dispatch<F>(m: Message<F>): (a: Action<F>)
    ensures a.Leave? <==> ReasonOf(m.reason) == Some(Return)
    ensures a.Call? || a.CallNull? <==> ReasonOf(m.reason) == Some(CallNative)
    ensures a.Call? ==> m.userData == Some(a.fn)
    ensures a.CallNull? ==> m.userData == None
    ensures a.Complain? ==> a.code == m.reason
  {
    if m.reason == Code(Return) then Leave
    else if m.reason == Code(CallNative) then
      (if m.userData.Some? then Call(m.userData.value) else CallNull)
    else Complain(m.reason)
  }

  /** What an observer of the trampoline sees. */
  datatype Event<F> =
    | Suspended(reason: int) // the fiber suspends with this reason
    | Called(fn: F)          // a native function runs to completion
    | Logged(code: int)      // the "unexpected Resume" error line

  /** How the loop ended: it returned, faulted on a null call, or is still
      suspended waiting for a resume the input does not hold. */
  datatype Exit = Returned | Faulted | Waiting

  datatype LoopResult<F> = LoopResult(trace: seq<Event<F>>, exit: Exit, consumed: nat)

  /** The event of the trampoline suspending itself. */
  function SuspendForJIT<F>(): Event<F> {
    Suspended(Code(CallJIT))
  }

  /** True of a resume that ends the loop: kFiberReturn, or a call through nullptr. */
  predicate Stops<F>(m: Message<F>) {
    Dispatch(m).Leave? || Dispatch(m).CallNull?
  }

  /** What the loop does with a resume that does not end it. */
  function Serve<F>(m: Message<F>): Event<F>
    requires !Stops(m)
  {
    if Dispatch(m).Call? then Called(Dispatch(m).fn) else Logged(m.reason)
  }

  /** Specification of SwitchToJIT on a sequence of resumes. */
  function Loop<F>(resumes: seq<Message<F>>): (r: LoopResult<F>)
    ensures r.consumed <= |resumes|
    ensures r.exit == Waiting ==> r.consumed == |resumes|
    ensures r.exit != Waiting ==> 0 < r.consumed && Stops(resumes[r.consumed - 1])
    ensures r.trace != [] && r.trace[0] == SuspendForJIT()
    decreases |resumes|
  {
    if |resumes| == 0 then LoopResult([SuspendForJIT()], Waiting, 0)
    else if Stops(resumes[0]) then
      LoopResult([SuspendForJIT()], if Dispatch(resumes[0]).Leave? then Returned else Faulted, 1)
    else Then([SuspendForJIT(), Serve(resumes[0])], 1, Loop(resumes[1..]))
  }

  /** A run preceded by events already seen and resumes already consumed. */
  function Then<F>(done: seq<Event<F>>, k: nat, rest: LoopResult<F>): LoopResult<F> {
    LoopResult(done + rest.trace, rest.exit, k + rest.consumed)
  }

  /** The trampoline: suspend with kFiberCallJIT, then act on the reason the
      next resume brings, until a kFiberReturn. */
  method SwitchToJIT<F>(resumes: seq<Message<F>>) returns (trace: seq<Event<F>>, exit: Exit, consumed: nat)
    ensures LoopResult(trace, exit, consumed) == Loop(resumes)
  {
    trace, consumed := [], 0;
    while true
      invariant consumed <= |resumes|
      invariant Loop(resumes) == Then(trace, consumed, Loop(resumes[consumed..]))
      decreases |resumes| - consumed
    {
      if consumed == |resumes| {
        trace := trace + [Suspended(Code(CallJIT))];
        exit := Waiting;
        return;
      }
      var m := resumes[consumed];
      LoopAdvances(resumes, trace, consumed);
      trace := trace + [Suspended(Code(CallJIT))];
      consumed := consumed + 1;
      match Dispatch(m)
      case Leave =>
        exit := Returned;
        return;
      case CallNull =>
        exit := Faulted;
        return;
      case Call(fn) =>
        trace := trace + [Called(fn)];
      case Complain(c) =>
        trace := trace + [Logged(c)];
    }
  }

  /** One turn of the loop, from the point of view of its specification. */
  lemma LoopAdvances<F>(resumes: seq<Message<F>>, done: seq<Event<F>>, k: nat)
    requires k < |resumes|
    requires Loop(resumes) == Then(done, k, Loop(resumes[k..]))
    ensures Stops(resumes[k]) ==> Loop(resumes) == LoopResult(done + [SuspendForJIT()], Loop(resumes[k..]).exit, k + 1)
    ensures !Stops(resumes[k]) ==>
      Loop(resumes) == Then(done + [SuspendForJIT()] + [Serve(resumes[k])], k + 1, Loop(resumes[k + 1..]))
  {
    var rest := resumes[k..];
    assert rest[0] == resumes[k] && rest[1..] == resumes[k + 1..];
    if !Stops(resumes[k]) {
      ThenAssociates(done, [SuspendForJIT(), Serve(resumes[k])], k, Loop(rest[1..]));
      assert done + [SuspendForJIT(), Serve(resumes[k])] == done + [SuspendForJIT()] + [Serve(resumes[k])];
    }
  }

  lemma ThenAssociates<F>(done: seq<Event<F>>, step: seq<Event<F>>, k: nat, r: LoopResult<F>)
    ensures Then(done, k, Then(step, 1, r)) == Then(done + step, k + 1, r)
  {
    assert done + (step + r.trace) == done + step + r.trace;
  }

  /** The native functions run, in order, as the trace records them. */
  function Calls<F>(trace: seq<Event<F>>): (fns: seq<F>)
  {
    if |trace| == 0 then []
    else (if trace[0].Called? then [trace[0].fn] else []) + Calls(trace[1..])
  }

  /** The reason codes logged as unexpected, in order. */
  function Logs<F>(trace: seq<Event<F>>): (codes: seq<int>)
  {
    if |trace| == 0 then []
    else (if trace[0].Logged? then [trace[0].code] else []) + Logs(trace[1..])
  }

  /** The reasons the fiber suspended with, in order. */
  function Suspends<F>(trace: seq<Event<F>>): (codes: seq<int>)
  {
    if |trace| == 0 then []
    else (if trace[0].Suspended? then [trace[0].reason] else []) + Suspends(trace[1..])
  }

  /** The native functions a sequence of resumes asks for. */
  function Requested<F>(resumes: seq<Message<F>>): (fns: seq<F>)
  {
    if |resumes| == 0 then []
    else (if Dispatch(resumes[0]).Call? then [Dispatch(resumes[0]).fn] else []) + Requested(resumes[1..])
  }

  /** The reason codes in a sequence of resumes that the switch does not handle. */
  function Strays<F>(resumes: seq<Message<F>>): (codes: seq<int>)
  {
    if |resumes| == 0 then []
    else (if Dispatch(resumes[0]).Complain? then [resumes[0].reason] else []) + Strays(resumes[1..])
  }

  /** The index of the first resume that ends the loop, or |resumes| when none does. */
  function FirstStop<F>(resumes: seq<Message<F>>): (k: nat)
    ensures k <= |resumes|
    ensures forall i :: 0 <= i < k ==> !Stops(resumes[i])
    ensures k < |resumes| ==> Stops(resumes[k])
  {
    if |resumes| == 0 then 0
    else if Stops(resumes[0]) then 0
    else 1 + FirstStop(resumes[1..])
  }

  lemma {:induction false} CallsAppend<F>(a: seq<Event<F>>, b: seq<Event<F>>)
    ensures Calls(a + b) == Calls(a) + Calls(b)
  {
    if a == [] {
      assert a + b == b;
    } else {
      assert (a + b)[0] == a[0] && (a + b)[1..] == a[1..] + b;
      CallsAppend(a[1..], b);
      assert Calls(a + b) == (if a[0].Called? then [a[0].fn] else []) + Calls(a[1..] + b);
    }
  }

  lemma {:induction false} LogsAppend<F>(a: seq<Event<F>>, b: seq<Event<F>>)
    ensures Logs(a + b) == Logs(a) + Logs(b)
  {
    if a == [] {
      assert a + b == b;
    } else {
      assert (a + b)[0] == a[0] && (a + b)[1..] == a[1..] + b;
      LogsAppend(a[1..], b);
      assert Logs(a + b) == (if a[0].Logged? then [a[0].code] else []) + Logs(a[1..] + b);
    }
  }

  lemma {:induction false} SuspendsAppend<F>(a: seq<Event<F>>, b: seq<Event<F>>)
    ensures Suspends(a + b) == Suspends(a) + Suspends(b)
  {
    if a == [] {
      assert a + b == b;
    } else {
      assert (a + b)[0] == a[0] && (a + b)[1..] == a[1..] + b;
      SuspendsAppend(a[1..], b);
      assert Suspends(a + b) == (if a[0].Suspended? then [a[0].reason] else []) + Suspends(a[1..] + b);
    }
  }

  lemma {:induction false} RequestedAppend<F>(a: seq<Message<F>>, b: seq<Message<F>>)
    ensures Requested(a + b) == Requested(a) + Requested(b)
  {
    if a == [] {
      assert a + b == b;
    } else {
      assert (a + b)[0] == a[0] && (a + b)[1..] == a[1..] + b;
      RequestedAppend(a[1..], b);
    }
  }

  lemma {:induction false} StraysAppend<F>(a: seq<Message<F>>, b: seq<Message<F>>)
    ensures Strays(a + b) == Strays(a) + Strays(b)
  {
    if a == [] {
      assert a + b == b;
    } else {
      assert (a + b)[0] == a[0] && (a + b)[1..] == a[1..] + b;
      StraysAppend(a[1..], b);
    }
  }

  /** Serving one more resume extends what was requested and what was logged
      by what that resume asks for. */
  lemma ServedNext<F>(resumes: seq<Message<F>>, i: nat)
    requires i < |resumes|
    ensures var m := resumes[i];
      && Requested(resumes[..i + 1]) == Requested(resumes[..i]) + (if Dispatch(m).Call? then [Dispatch(m).fn] else [])
      && Strays(resumes[..i + 1]) == Strays(resumes[..i]) + (if Dispatch(m).Complain? then [m.reason] else [])
  {
    var m := resumes[i];
    assert resumes[..i + 1] == resumes[..i] + [m];
    assert [m][1..] == [];
    RequestedAppend(resumes[..i], [m]);
    StraysAppend(resumes[..i], [m]);
  }

  /** The suspension and the service of one resume that does not end the loop. */
  lemma ServedOnce<F>(m: Message<F>)
    requires !Stops(m)
    ensures Calls([SuspendForJIT(), Serve(m)]) == (if Dispatch(m).Call? then [Dispatch(m).fn] else [])
    ensures Logs([SuspendForJIT(), Serve(m)]) == (if Dispatch(m).Complain? then [m.reason] else [])
    ensures Suspends([SuspendForJIT(), Serve(m)]) == [Code(CallJIT)]
  {
    var step := [SuspendForJIT(), Serve(m)];
    assert step[1..] == [Serve(m)] && step[1..][1..] == [];
    assert Calls(step) == Calls([Serve(m)]) == (if Serve(m).Called? then [Serve(m).fn] else []);
    assert Logs(step) == Logs([Serve(m)]) == (if Serve(m).Logged? then [Serve(m).code] else []);
    assert !Serve(m).Suspended? && [Serve(m)][1..] == [];
    assert Suspends([Serve(m)]) == [] + Suspends<F>([]);
  }

  /** The loop consumes resumes up to and including the first kFiberReturn
      (or null call) and no further; it returns exactly when that resume is a
      kFiberReturn, and keeps waiting when there is none. */
  lemma {:induction false} LoopStopsAtFirstStop<F>(resumes: seq<Message<F>>)
    ensures var r, k := Loop(resumes), FirstStop(resumes);
      && r.consumed == (if k < |resumes| then k + 1 else |resumes|)
      && r.exit == (if k == |resumes| then Waiting
                    else if Dispatch(resumes[k]).Leave? then Returned
                    else Faulted)
    decreases |resumes|
  {
    if resumes != [] && !Stops(resumes[0]) {
      LoopStopsAtFirstStop(resumes[1..]);
    }
  }

  /** Splitting off the first resume of the served prefix. */
  lemma ServedPrefix<F>(resumes: seq<Message<F>>)
    requires resumes != [] && !Stops(resumes[0])
    ensures var k := FirstStop(resumes[1..]);
      && FirstStop(resumes) == k + 1
      && resumes[..k + 1][0] == resumes[0] && resumes[..k + 1][1..] == resumes[1..][..k]
  {
  }

  /** Each native function requested before the first kFiberReturn runs
      exactly once, in delivery order, and no other function runs. */
  lemma {:induction false} LoopCallsRequested<F>(resumes: seq<Message<F>>)
    ensures Calls(Loop(resumes).trace) == Requested(resumes[..FirstStop(resumes)])
    decreases |resumes|
  {
    if resumes == [] {
    } else if Stops(resumes[0]) {
      assert resumes[..0] == [];
      assert [SuspendForJIT<F>()][1..] == [];
    } else {
      var tail := resumes[1..];
      LoopCallsRequested(tail);
      ServedPrefix(resumes);
      ServedOnce(resumes[0]);
      CallsAppend([SuspendForJIT(), Serve(resumes[0])], Loop(tail).trace);
    }
  }

  /** Each unrecognised reason delivered before the first kFiberReturn is
      logged exactly once, in delivery order, and nothing else is logged. */
  lemma {:induction false} LoopLogsStrays<F>(resumes: seq<Message<F>>)
    ensures Logs(Loop(resumes).trace) == Strays(resumes[..FirstStop(resumes)])
    decreases |resumes|
  {
    if resumes == [] {
    } else if Stops(resumes[0]) {
      assert resumes[..0] == [];
      assert [SuspendForJIT<F>()][1..] == [];
    } else {
      var tail := resumes[1..];
      LoopLogsStrays(tail);
      ServedPrefix(resumes);
      ServedOnce(resumes[0]);
      LogsAppend([SuspendForJIT(), Serve(resumes[0])], Loop(tail).trace);
    }
  }

  /** Every suspension the trampoline makes carries kFiberCallJIT, one before
      each resume it consumes, plus one more while it waits. */
  lemma {:induction false} AlwaysSuspendsWithCallJIT<F>(resumes: seq<Message<F>>)
    ensures var r := Loop(resumes);
      Suspends(r.trace) == seq(r.consumed + (if r.exit == Waiting then 1 else 0), _ => Code(CallJIT))
    decreases |resumes|
  {
    if resumes == [] || Stops(resumes[0]) {
      assert [SuspendForJIT<F>()][1..] == [];
    } else {
      var tail := resumes[1..];
      AlwaysSuspendsWithCallJIT(tail);
      ServedOnce(resumes[0]);
      SuspendsAppend([SuspendForJIT(), Serve(resumes[0])], Loop(tail).trace);
    }
  }

  /** Resumes after the first stop are never looked at: the loop behaves the
      same whatever follows. */
  lemma {:induction false} LoopIgnoresRestAfterStop<F>(resumes: seq<Message<F>>, later: seq<Message<F>>)
    requires FirstStop(resumes) < |resumes|
    ensures Loop(resumes + later) == Loop(resumes)
    decreases |resumes|
  {
    assert (resumes + later)[0] == resumes[0];
    if !Stops(resumes[0]) {
      assert (resumes + later)[1..] == resumes[1..] + later;
      LoopIgnoresRestAfterStop(resumes[1..], later);
    }
  }

  /** An Abort resume is not special to this loop: it is logged as unexpected
      and the fiber suspends again, still alive. */
  lemma AbortIsLoggedNotHonoured<F>(p: Option<F>)
    ensures Loop([Message(Code(Abort), p)])
         == LoopResult([Suspended(Code(CallJIT)), Logged(Code(Abort)), Suspended(Code(CallJIT))], Waiting, 1)
  {
    assert [Message(Code(Abort), p)][1..] == [];
  }

  /** The scenario of two native calls followed by a return: the two functions
      run in order and a call requested after the return never runs. */
  lemma TwoCallsThenReturn<F>(f1: F, f2: F, f3: F)
    ensures var resumes := [Message(Code(CallNative), Some(f1)), Message(Code(CallNative), Some(f2)),
                            Message(Code(Return), None), Message(Code(CallNative), Some(f3))];
      Calls(Loop(resumes).trace) == [f1, f2] && Loop(resumes).exit == Returned && Loop(resumes).consumed == 3
  {
    var resumes := [Message(Code(CallNative), Some(f1)), Message(Code(CallNative), Some(f2)),
                    Message(Code(Return), None), Message(Code(CallNative), Some(f3))];
    LoopStopsAtFirstStop(resumes);
    LoopCallsRequested(resumes);
    assert FirstStop(resumes[2..]) == 0;
    assert FirstStop(resumes) == 2;
    var two := resumes[..2];
    assert two[0] == resumes[0] && two[1..] == [resumes[1]] && [resumes[1]][1..] == [];
    assert Requested([resumes[1]]) == [f2] + Requested([]);
    assert Requested(two) == [f1] + Requested([resumes[1]]);
  }
}
