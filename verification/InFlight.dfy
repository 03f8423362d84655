/**
The shutdown handshake of libs/resilient-http-client/client.go: `enter`, `leave` and
`Shutdown` over two atomics (in-flight count, closing flag) and a one-slot channel.

Every atomic operation is one step. Any number of requests run in any order with one
`Shutdown` caller, which may give up and call again.
*/
module InFlight {
  import Sets

  type Tid = nat

  /** Where a request is. */
  datatype Pc =
    | Outside
    | Counted                    // counted, closing not yet looked at
    | Admitted                   // enter returned true, its leave not begun
    | Leaving(admitted: bool)    // in leave, before the decrement
    | LastOut                    // its decrement gave zero, closing not yet looked at
    | Signalling                 // about to offer a token

  /** Where the shutdown call is. */
  datatype Wait = NotCalled | Looking | Waiting | ReturnedNil | GaveUp

  datatype Machine = Machine(inFlight: int, closing: bool, token: bool, requests: map<Tid, Pc>, wait: Wait)

  datatype Action =
    | Enter(tid: Tid) | Finish(tid: Tid) | Go(tid: Tid)
    | CallShutdown | Look | Receive | Expire

  function At(m: Machine, tid: Tid): Pc { if tid in m.requests then m.requests[tid] else Outside }

  function Put(m: Machine, tid: Tid, pc: Pc): Machine { m.(requests := m.requests[tid := pc]) }

  /** One step; an action that is not enabled changes nothing. */
  function Next(m: Machine, act: Action): Machine {
    match act
    case Enter(tid) => if At(m, tid).Outside? then Put(m.(inFlight := m.inFlight + 1), tid, Counted) else m
    case Finish(tid) => if At(m, tid).Admitted? then Put(m, tid, Leaving(true)) else m
    case Go(tid) => (
      match At(m, tid)
      case Outside => m
      case Admitted => m
      case Counted => Put(m, tid, if m.closing then Leaving(false) else Admitted)
      case Leaving(_) => Put(m.(inFlight := m.inFlight - 1), tid, if m.inFlight - 1 == 0 then LastOut else Outside)
      case LastOut => Put(m, tid, if m.closing then Signalling else Outside)
      case Signalling => Put(m.(token := true), tid, Outside))  // a full channel drops the second token
    case CallShutdown => if m.wait.NotCalled? || m.wait.GaveUp? then m.(closing := true, wait := Looking) else m
    case Look => if m.wait.Looking? then m.(wait := if m.inFlight == 0 then ReturnedNil else Waiting) else m
    case Receive => if m.wait.Waiting? && m.token then m.(token := false, wait := Looking) else m
    case Expire => if m.wait.Waiting? then m.(wait := GaveUp) else m
  }

  const START := Machine(0, false, false, map[], NotCalled)

  ghost function Run(acts: seq<Action>): Machine {
    if acts == [] then START else Next(Run(acts[..|acts| - 1]), acts[|acts| - 1])
  }

  // ------------------------------------------------------------ invariant

  predicate InCount(pc: Pc) { pc.Counted? || pc.Admitted? || pc.Leaving? }

  function Counting(m: Machine): set<Tid> { set tid | tid in m.requests && InCount(m.requests[tid]) }

  /** An admitted request that has not been counted out. */
  predicate Live(pc: Pc) { pc.Admitted? || pc == Leaving(true) }

  ghost predicate AboutToSignal(m: Machine) {
    exists tid :: tid in m.requests && (m.requests[tid].LastOut? || m.requests[tid].Signalling?)
  }

  ghost predicate Inv(m: Machine) {
    && m.inFlight == |Counting(m)|
    && (m.wait.NotCalled? || m.closing)
    && (m.wait.ReturnedNil? ==> forall tid :: tid in m.requests ==> !Live(m.requests[tid]))
    && (m.wait.Waiting? && m.inFlight == 0 ==> m.token || AboutToSignal(m))
  }

  lemma CountingAfter(m: Machine, m': Machine, tid: Tid, pc: Pc)
    requires m'.requests == m.requests[tid := pc]
    ensures |Counting(m')| == |Counting(m)| - (if InCount(At(m, tid)) then 1 else 0) + (if InCount(pc) then 1 else 0)
    ensures InCount(At(m, tid)) ==> |Counting(m)| >= 1
  {
    var c, c' := Counting(m), Counting(m');
    assert tid in c <==> InCount(At(m, tid));
    assert tid in c' <==> InCount(pc);
    assert c - {tid} == c' - {tid};
    Sets.OneMember(c, c', tid);
  }

  lemma OneCounted(m: Machine, tid: Tid)
    requires InCount(At(m, tid))
    ensures |Counting(m)| >= 1
  {
    assert tid in Counting(m);
  }

  lemma RequestStep(m: Machine, tid: Tid)
    requires Inv(m)
    ensures Inv(Next(m, Go(tid)))
  {
    var m' := Next(m, Go(tid));
    if m'.requests != m.requests {
      CountingAfter(m, m', tid, m'.requests[tid]);
    }
    if m'.wait.Waiting? && m'.inFlight == 0 && !m'.token {
      if m.inFlight == 0 {
        var u :| u in m.requests && (m.requests[u].LastOut? || m.requests[u].Signalling?);
        assert u in m'.requests && (m'.requests[u].LastOut? || m'.requests[u].Signalling?);
      } else {
        assert tid in m'.requests && m'.requests[tid].LastOut?;
      }
    }
  }

  lemma StepKeeps(m: Machine, act: Action)
    requires Inv(m)
    ensures Inv(Next(m, act))
  {
    var m' := Next(m, act);
    match act
    case Go(tid) => RequestStep(m, tid);
    case Enter(tid) =>
      if m'.requests != m.requests { CountingAfter(m, m', tid, Counted); }
    case Finish(tid) =>
      if m'.requests != m.requests {
        CountingAfter(m, m', tid, Leaving(true));
        OneCounted(m, tid);
      }
    case Look =>
      assert Counting(m') == Counting(m);
      if m.wait.Looking? && m.inFlight == 0 {
        forall tid | tid in m.requests ensures !InCount(m.requests[tid]) {
          assert tid !in Counting(m);
        }
      }
    case CallShutdown => assert Counting(m') == Counting(m);
    case Receive => assert Counting(m') == Counting(m);
    case Expire => assert Counting(m') == Counting(m);
  }

  lemma {:induction false} Reachable(acts: seq<Action>)
    ensures Inv(Run(acts))
  {
    if acts == [] {
      assert Counting(START) == {};
    } else {
      Reachable(acts[..|acts| - 1]);
      StepKeeps(Run(acts[..|acts| - 1]), acts[|acts| - 1]);
    }
  }

  /** The in-flight count is exactly the requests between their increment and their decrement. */
  lemma CountIsExact(acts: seq<Action>)
    ensures Run(acts).inFlight == |Counting(Run(acts))|
  {
    Reachable(acts);
  }

  /** Once `Shutdown` has returned nil, in every later state of the run no admitted request is in flight. */
  lemma {:induction false} NilMeansDrained(acts: seq<Action>, more: seq<Action>)
    requires Run(acts).wait.ReturnedNil?
    ensures Run(acts + more).wait.ReturnedNil?
    ensures forall tid :: tid in Run(acts + more).requests ==> !Live(Run(acts + more).requests[tid])
  {
    hide Counting, AboutToSignal, Next;
    Reachable(acts + more);
    if more == [] {
      assert acts + more == acts;
    } else {
      NilMeansDrained(acts, more[..|more| - 1]);
      assert (acts + more)[..|acts + more| - 1] == acts + more[..|more| - 1];
      NilStays(Run(acts + more[..|more| - 1]), more[|more| - 1]);
    }
  }

  lemma NilStays(m: Machine, act: Action)
    requires m.wait.ReturnedNil?
    ensures Next(m, act).wait.ReturnedNil?
  {
  }

  /** No lost wake-up: waiting with nothing in flight, a token is queued or a leave is about to queue one. */
  lemma NoLostWakeup(acts: seq<Action>)
    requires Run(acts).wait.Waiting? && Run(acts).inFlight == 0
    ensures Run(acts).token || AboutToSignal(Run(acts))
  {
    Reachable(acts);
  }

  /** A request about to signal puts the token in within two steps, and nothing else changes for the waiter. */
  lemma Signals(acts: seq<Action>, tid: Tid) returns (steps: seq<Action>)
    requires var m := Run(acts); m.wait.Waiting? && m.closing && m.inFlight == 0 && (At(m, tid).LastOut? || At(m, tid).Signalling?)
    ensures |steps| <= 2
    ensures var m := Run(acts + steps); m.wait.Waiting? && m.inFlight == 0 && m.token
  {
    steps := if At(Run(acts), tid).Signalling? then [Go(tid)] else [Go(tid), Go(tid)];
    assert (acts + [Go(tid)])[..|acts|] == acts;
    assert (acts + [Go(tid), Go(tid)])[..|acts| + 1] == acts + [Go(tid)];
  }

  /** And so the wait ends: at most two steps of one request, then two of the waiter, return nil. */
  lemma WakeupArrives(acts: seq<Action>)
    requires Run(acts).wait.Waiting? && Run(acts).inFlight == 0
    ensures exists more: seq<Action> :: |more| <= 4 && Run(acts + more).wait.ReturnedNil?
  {
    hide Next, Run;
    var m := Run(acts);
    Reachable(acts);
    if m.token {
      assert acts + [] == acts;
      Finishes(acts, []);
    } else {
      var tid :| tid in m.requests && (m.requests[tid].LastOut? || m.requests[tid].Signalling?);
      var steps := Signals(acts, tid);
      Finishes(acts, steps);
    }
  }

  lemma Finishes(acts: seq<Action>, steps: seq<Action>)
    requires var m := Run(acts + steps); m.wait.Waiting? && m.inFlight == 0 && m.token && |steps| <= 2
    ensures exists more: seq<Action> :: |more| <= 4 && Run(acts + more).wait.ReturnedNil?
  {
    var more := steps + [Receive, Look];
    assert (acts + more)[..|acts + more| - 1] == acts + steps + [Receive];
    assert (acts + steps + [Receive])[..|acts + steps|] == acts + steps;
    assert Run(acts + more).wait.ReturnedNil?;
  }

  /** A request that enters is admitted exactly when shutdown has not begun by the time it looks; one refused counts
      itself out again. */
  lemma AdmittedUnlessClosing(m: Machine, tid: Tid)
    requires At(m, tid).Outside?
    ensures At(Next(Next(m, Enter(tid)), Go(tid)), tid) == if m.closing then Leaving(false) else Admitted
    ensures Next(Next(m, Enter(tid)), Go(tid)).inFlight == m.inFlight + 1
    ensures m.closing ==> Next(Next(Next(m, Enter(tid)), Go(tid)), Go(tid)).inFlight == m.inFlight
  {
  }

  /** A call of `Shutdown` refuses new requests at once, and returns nil at once when nothing is in flight. */
  lemma ShutdownWhenIdle(m: Machine)
    requires m.wait.NotCalled? || m.wait.GaveUp?
    ensures Next(m, CallShutdown).closing
    ensures Next(Next(m, CallShutdown), Look).wait == if m.inFlight == 0 then ReturnedNil else Waiting
  {
  }
}
