/**
What it rests on when a breaker of BreakerRuns opens, and when: over every run, a trip has for
evidence results that the run counted, of requests that the ending generation admitted, and an
open snapshot's time was read from the clock while the generation before it lasted.
*/
module BreakerTrips {
  import opened Breaker
  import opened BreakerRuns
  import opened SlidingWindow

  // ------------------------------------------------------------ what a trip rests on

  lemma {:induction false} CountOfAll(evidence: seq<Counted>)
    ensures Total(Entries(evidence), Anything()) == Totals(|evidence|, Failures(evidence))
  {
    if evidence != [] {
      var init := evidence[..|evidence| - 1];
      CountOfAll(init);
      assert Entries(evidence)[..|init|] == Entries(init);
    }
  }

  /** The last step of `acts` is thread `tid`'s count, under the lock, of a result of its ticket. */
  ghost predicate Counts(cfg: Config, acts: seq<Action>, tid: Tid)
    requires cfg.slot >= 1
  {
    acts != [] && acts[|acts| - 1] == Go(tid) && At(Run(cfg, acts[..|acts| - 1]), tid).ResultTimed?
  }

  function CountOf(pc: Pc): Counted
    requires pc.ResultTimed?
  {
    Counted(pc.t.gen, pc.now, pc.o)
  }

  /** Every result counted in the run, in order; no reset of the window touches it. */
  ghost function History(cfg: Config, acts: seq<Action>): seq<Counted>
    requires cfg.slot >= 1
  {
    if acts == [] then []
    else
      var before, act := acts[..|acts| - 1], acts[|acts| - 1];
      if act.Go? && Counts(cfg, acts, act.tid) then
        History(cfg, before) + [CountOf(At(Run(cfg, before), act.tid))]
      else History(cfg, before)
  }

  /** The last step of `acts` gave thread `tid` ticket `t`, on a closed snapshot of its generation. */
  ghost predicate Admits(cfg: Config, acts: seq<Action>, tid: Tid, t: Ticket)
    requires cfg.slot >= 1
  {
    && acts != [] && acts[|acts| - 1] == Go(tid) && !t.probe
    && At(Run(cfg, acts), tid) == Holding(t)
    && OnClosed(At(Run(cfg, acts[..|acts| - 1]), tid), t.gen)
  }

  predicate OnClosed(pc: Pc, gen: nat) { pc.AllowLoaded? && pc.c.s.state == Closed && pc.c.s.gen == gen }

  ghost predicate WasAdmitted(cfg: Config, acts: seq<Action>, tid: Tid, t: Ticket)
    requires cfg.slot >= 1
  {
    exists k :: 0 <= k <= |acts| && Admits(cfg, acts[..k], tid, t)
  }

  /** The last step of `acts` counted `x`, the result of a request of `tid` admitted in the generation it counts for. */
  ghost predicate CountsOwn(cfg: Config, acts: seq<Action>, tid: Tid, x: Counted)
    requires cfg.slot >= 1
  {
    && Counts(cfg, acts, tid) && x == CountOf(At(Run(cfg, acts[..|acts| - 1]), tid))
    && WasAdmitted(cfg, acts[..|acts| - 1], tid, Ticket(x.gen, false))
  }

  ghost predicate WasCounted(cfg: Config, acts: seq<Action>, x: Counted)
    requires cfg.slot >= 1
  {
    exists k, tid :: 0 <= k <= |acts| && CountsOwn(cfg, acts[..k], tid, x)
  }

  /** `evidence` is what the window held just after a count of `tid`, for generation `gen`: the last of all the
      results counted till then. */
  ghost predicate CountedBy(cfg: Config, acts: seq<Action>, tid: Tid, evidence: seq<Counted>, gen: nat)
    requires cfg.slot >= 1
  {
    exists k :: 0 <= k <= |acts| && CountLeft(cfg, acts[..k], tid, evidence, gen)
  }

  ghost predicate CountLeft(cfg: Config, acts: seq<Action>, tid: Tid, evidence: seq<Counted>, gen: nat)
    requires cfg.slot >= 1
  {
    && Counts(cfg, acts, tid)
    && Run(cfg, acts).counted == evidence && Run(cfg, acts).winGen == gen
    && IsSuffix(evidence, History(cfg, acts))
  }

  ghost predicate IsSuffix(s: seq<Counted>, all: seq<Counted>) {
    |s| <= |all| && s == all[|all| - |s|..]
  }

  ghost predicate TicketsAdmitted(cfg: Config, acts: seq<Action>)
    requires cfg.slot >= 1
  {
    forall tid, t: Ticket :: Holds(At(Run(cfg, acts), tid), t) && !t.probe ==> WasAdmitted(cfg, acts, tid, t)
  }

  lemma StillAdmitted(cfg: Config, acts: seq<Action>, tid: Tid, t: Ticket)
    requires cfg.slot >= 1 && acts != [] && WasAdmitted(cfg, acts[..|acts| - 1], tid, t)
    ensures WasAdmitted(cfg, acts, tid, t)
  {
    hide Admits;
    var before := acts[..|acts| - 1];
    var k :| 0 <= k <= |before| && Admits(cfg, before[..k], tid, t);
    assert before[..k] == acts[..k];
  }

  lemma StillCounted(cfg: Config, acts: seq<Action>, x: Counted)
    requires cfg.slot >= 1 && acts != [] && WasCounted(cfg, acts[..|acts| - 1], x)
    ensures WasCounted(cfg, acts, x)
  {
    hide CountsOwn;
    var before := acts[..|acts| - 1];
    var k, tid :| 0 <= k <= |before| && CountsOwn(cfg, before[..k], tid, x);
    assert before[..k] == acts[..k];
  }

  lemma StillCountedBy(cfg: Config, acts: seq<Action>, tid: Tid, evidence: seq<Counted>, gen: nat)
    requires cfg.slot >= 1 && acts != [] && CountedBy(cfg, acts[..|acts| - 1], tid, evidence, gen)
    ensures CountedBy(cfg, acts, tid, evidence, gen)
  {
    hide CountLeft;
    var before := acts[..|acts| - 1];
    var k :| 0 <= k <= |before| && CountLeft(cfg, before[..k], tid, evidence, gen);
    assert before[..k] == acts[..k];
  }

  /** A thread has a ticket that is no probe only from the step that admitted it, or from before. */
  lemma TicketFromAdmission(cfg: Config, m: Machine, act: Action, tid: Tid, t: Ticket)
    requires cfg.slot >= 1 && Holds(At(Next(cfg, m, act), tid), t) && !t.probe
    requires At(m, tid).AllowTimed? ==> At(m, tid).c.s.state == Open
    ensures || Holds(At(m, tid), t)
            || (act == Go(tid) && OnClosed(At(m, tid), t.gen) && At(Next(cfg, m, act), tid) == Holding(t))
  {
    hide Tripped, RingSum, Added;
  }

  lemma {:induction false} AllAdmitted(cfg: Config, acts: seq<Action>)
    requires cfg.Valid()
    ensures TicketsAdmitted(cfg, acts)
  {
    hide Next, WasAdmitted;
    if acts != [] {
      AllAdmitted(cfg, acts[..|acts| - 1]);
      forall tid, t: Ticket | Holds(At(Run(cfg, acts), tid), t) && !t.probe ensures WasAdmitted(cfg, acts, tid, t) {
        TicketAdmitted(cfg, acts, tid, t);
      }
    }
  }

  lemma TicketAdmitted(cfg: Config, acts: seq<Action>, tid: Tid, t: Ticket)
    requires cfg.Valid() && acts != [] && TicketsAdmitted(cfg, acts[..|acts| - 1])
    requires Holds(At(Run(cfg, acts), tid), t) && !t.probe
    ensures WasAdmitted(cfg, acts, tid, t)
  {
    hide Next, Inv, Holds, OnClosed;
    var before, act := acts[..|acts| - 1], acts[|acts| - 1];
    var m := Run(cfg, before);
    Reachable(cfg, before);
    FitsAt(cfg, m, tid);
    TicketFromAdmission(cfg, m, act, tid, t);
    if Holds(At(m, tid), t) {
      StillAdmitted(cfg, acts, tid, t);
    } else {
      assert acts[..|acts|] == acts;
      assert Admits(cfg, acts[..|acts|], tid, t);
    }
  }

  /** A counting thread holds its ticket, and it is no probe. */
  lemma CounterHolds(cfg: Config, acts: seq<Action>, tid: Tid)
    requires cfg.Valid() && At(Run(cfg, acts), tid).ResultTimed?
    ensures var pc := At(Run(cfg, acts), tid); pc.t == Ticket(pc.t.gen, false) && Holds(pc, pc.t)
  {
    hide Run, Inv;
    Reachable(cfg, acts);
    FitsAt(cfg, Run(cfg, acts), tid);
  }

  lemma {:induction false} HistoryWasCounted(cfg: Config, acts: seq<Action>, x: Counted)
    requires cfg.Valid() && x in History(cfg, acts)
    ensures WasCounted(cfg, acts, x)
  {
    hide Run, Next, Inv, Holds, WasAdmitted;
    var before, act := acts[..|acts| - 1], acts[|acts| - 1];
    if x in History(cfg, before) {
      HistoryWasCounted(cfg, before, x);
      StillCounted(cfg, acts, x);
    } else {
      CounterHolds(cfg, before, act.tid);
      AllAdmitted(cfg, before);
      assert acts[..|acts|] == acts;
      assert CountsOwn(cfg, acts[..|acts|], act.tid, x);
    }
  }

  /** A step leaves the window, or is a count that adds to it, or starts it over. */
  lemma WindowStep(cfg: Config, m: Machine, act: Action)
    requires cfg.slot >= 1
    ensures var m' := Next(cfg, m, act);
            if act.Go? && At(m, act.tid).ResultTimed? then
              var pc := At(m, act.tid);
              m'.winGen == pc.c.s.gen && (m'.counted == [CountOf(pc)] || m'.counted == m.counted + [CountOf(pc)])
            else m'.counted == m.counted && m'.winGen == m.winGen
  {
    hide Tripped, RingSum, Added;
  }

  /** The window always holds the last of the results counted. */
  lemma {:induction false} WindowIsSuffix(cfg: Config, acts: seq<Action>)
    requires cfg.slot >= 1
    ensures IsSuffix(Run(cfg, acts).counted, History(cfg, acts))
  {
    hide Next;
    if acts != [] {
      var before, act := acts[..|acts| - 1], acts[|acts| - 1];
      WindowIsSuffix(cfg, before);
      WindowStep(cfg, Run(cfg, before), act);
    }
  }

  /** A thread about to trip has just counted, and its evidence is what the window held then. */
  lemma TrippingStep(cfg: Config, m: Machine, act: Action, tid: Tid)
    requires cfg.slot >= 1 && At(Next(cfg, m, act), tid).Tripping?
    ensures var pc := At(Next(cfg, m, act), tid);
            || At(m, tid) == pc
            || (act == Go(tid) && At(m, tid).ResultTimed? && Next(cfg, m, act).counted == pc.evidence && Next(cfg, m, act).winGen == pc.c.s.gen)
  {
    hide Tripped, RingSum, Added;
  }

  lemma {:induction false} EvidenceWasCounted(cfg: Config, acts: seq<Action>, tid: Tid)
    requires cfg.Valid() && At(Run(cfg, acts), tid).Tripping?
    ensures var pc := At(Run(cfg, acts), tid); CountedBy(cfg, acts, tid, pc.evidence, pc.c.s.gen)
  {
    hide Next, History;
    var before, act, pc := acts[..|acts| - 1], acts[|acts| - 1], At(Run(cfg, acts), tid);
    TrippingStep(cfg, Run(cfg, before), act, tid);
    if At(Run(cfg, before), tid) == pc {
      EvidenceWasCounted(cfg, before, tid);
      StillCountedBy(cfg, acts, tid, pc.evidence, pc.c.s.gen);
    } else {
      WindowIsSuffix(cfg, acts);
      assert acts[..|acts|] == acts;
      assert CountLeft(cfg, acts[..|acts|], tid, pc.evidence, pc.c.s.gen);
    }
  }

  /** What leaves a closed snapshot is the swap of a thread whose evidence meets both thresholds. */
  lemma TripIsASwap(cfg: Config, m: Machine, act: Action)
    requires cfg.Valid() && Inv(cfg, m) && m.cur.s.state == Closed && Next(cfg, m, act).cur.s.state != Closed
    ensures act.Go? && At(m, act.tid).Tripping?
    ensures var pc, s := At(m, act.tid), Next(cfg, m, act).cur.s;
            pc.c == m.cur && s.state == Open && s.openedAt == pc.now && Proves(cfg, pc.evidence, m.cur.s.gen, pc.now)
  {
    hide WindowFits, Balanced, Tripped, RingSum, Added;
    if act.Go? { FitsAt(cfg, m, act.tid); }
  }

  /** What the ring made of `evidence` reports at `now`: requests and failures. */
  ghost function Seen(cfg: Config, evidence: seq<Counted>, now: nat): Totals
    requires cfg.slot >= 1
  {
    RingSum(Replay(Entries(evidence), cfg.slot), now / cfg.slot, SLOTS)
  }

  /** At least minRequests requests, all among the evidence, and at least the ratio of failures, all among it too. */
  ghost predicate MeetsThresholds(cfg: Config, evidence: seq<Counted>, now: nat)
    requires cfg.slot >= 1
  {
    var seen := Seen(cfg, evidence, now);
    && cfg.minRequests <= seen.a <= |evidence| && seen.b <= Failures(evidence)
    && seen.b as real >= cfg.ratio * seen.a as real
  }

  lemma EvidenceIsEnough(cfg: Config, evidence: seq<Counted>, gen: nat, now: nat)
    requires cfg.Valid() && Proves(cfg, evidence, gen, now)
    ensures MeetsThresholds(cfg, evidence, now) && forall x :: x in evidence ==> x.gen == gen
  {
    hide RingSum, Replay, Total, Entries;
    RingNeverOvercounts(Entries(evidence), cfg.slot, now / cfg.slot);
    CountOfAll(evidence);
  }

  function Failures(evidence: seq<Counted>): nat {
    if evidence == [] then 0 else Failures(evidence[..|evidence| - 1]) + if evidence[|evidence| - 1].o == Failure then 1 else 0
  }

  lemma {:induction false} HistoryOfPrefix(cfg: Config, acts: seq<Action>, k: nat)
    requires cfg.slot >= 1 && k <= |acts|
    ensures forall x :: x in History(cfg, acts[..k]) ==> x in History(cfg, acts)
  {
    hide Run;
    if k == |acts| {
      assert acts[..k] == acts;
    } else {
      var before := acts[..|acts| - 1];
      HistoryOfPrefix(cfg, before, k);
      assert before[..k] == acts[..k];
    }
  }

  /** Closed goes only to open, and only on the swap of a thread whose evidence is what the window held just after that
      thread's own count: the last results counted in the run till then, at least minRequests of them, together meeting
      both thresholds, each counted in this run for a request admitted by a closed snapshot of the generation that ends. */
  lemma TripsOnOwnResults(cfg: Config, acts: seq<Action>, act: Action)
    requires cfg.Valid()
    requires Run(cfg, acts).cur.s.state == Closed && Next(cfg, Run(cfg, acts), act).cur.s.state != Closed
    ensures act.Go? && At(Run(cfg, acts), act.tid).Tripping?
    ensures var m, s, evidence := Run(cfg, acts), Next(cfg, Run(cfg, acts), act).cur.s, At(Run(cfg, acts), act.tid).evidence;
            && s.state == Open
            && MeetsThresholds(cfg, evidence, s.openedAt)
            && CountedBy(cfg, acts, act.tid, evidence, m.cur.s.gen)
            && (forall x :: x in evidence ==> x.gen == m.cur.s.gen && WasCounted(cfg, acts, x))
  {
    hide Next, Run, Inv, History, WasCounted, Counts, MeetsThresholds, Proves;
    var m := Run(cfg, acts);
    Reachable(cfg, acts);
    TripIsASwap(cfg, m, act);
    var evidence := At(m, act.tid).evidence;
    EvidenceIsEnough(cfg, evidence, m.cur.s.gen, At(m, act.tid).now);
    EvidenceWasCounted(cfg, acts, act.tid);
    var k :| 0 <= k <= |acts| && CountLeft(cfg, acts[..k], act.tid, evidence, m.cur.s.gen);
    HistoryOfPrefix(cfg, acts, k);
    forall x | x in evidence ensures WasCounted(cfg, acts, x) { HistoryWasCounted(cfg, acts, x); }
  }

  // ------------------------------------------------------------ when a breaker opens

  /** `now` was read from the clock after generation `gen` began: it is no earlier than any time before. */
  ghost predicate ReadSince(cfg: Config, acts: seq<Action>, now: nat, gen: nat)
    requires cfg.slot >= 1
  {
    now <= Run(cfg, acts).clock && forall k :: 0 <= k <= |acts| && Run(cfg, acts[..k]).cur.s.gen < gen ==> Run(cfg, acts[..k]).clock <= now
  }

  /** The time a thread read, for the generation of the snapshot it loaded. */
  predicate Timed(pc: Pc, now: nat, gen: nat) {
    match pc
    case ResultTimed(_, _, c, n) => n == now && c.s.gen == gen
    case Tripping(c, n, _) => n == now && c.s.gen == gen
    case ProbeTimed(_, _, c, n) => n == now && c.s.gen == gen
    case _ => false
  }

  ghost predicate TimesFit(cfg: Config, acts: seq<Action>)
    requires cfg.slot >= 1
  {
    && (forall tid, now, gen :: Timed(At(Run(cfg, acts), tid), now, gen) ==> ReadSince(cfg, acts, now, gen))
    && var s := Run(cfg, acts).cur.s; s.state == Open ==> s.gen >= 1 && ReadSince(cfg, acts, s.openedAt, s.gen - 1)
  }

  lemma {:induction false} ClockMovesForward(cfg: Config, acts: seq<Action>, k: nat)
    requires cfg.Valid() && k <= |acts|
    ensures Run(cfg, acts[..k]).clock <= Run(cfg, acts).clock && Run(cfg, acts[..k]).cur.s.gen <= Run(cfg, acts).cur.s.gen
  {
    hide Next, Inv;
    if k == |acts| {
      assert acts[..k] == acts;
    } else {
      var before := acts[..|acts| - 1];
      ClockMovesForward(cfg, before, k);
      assert before[..k] == acts[..k];
      Reachable(cfg, before);
      StepKeeps(cfg, Run(cfg, before), acts[|acts| - 1]);
    }
  }

  /** A time read before is no earlier for one step more, if the step's own generation is not before `gen`. */
  lemma StillReadSince(cfg: Config, acts: seq<Action>, now: nat, gen: nat)
    requires cfg.Valid() && acts != [] && ReadSince(cfg, acts[..|acts| - 1], now, gen) && gen <= Run(cfg, acts[..|acts| - 1]).cur.s.gen
    ensures ReadSince(cfg, acts, now, gen)
  {
    hide Next, Inv;
    var before := acts[..|acts| - 1];
    ClockMovesForward(cfg, acts, |before|);
    assert acts[..|acts|] == acts;
    assert forall k :: 0 <= k <= |before| ==> before[..k] == acts[..k];
  }

  /** The clock as it is was read since any generation that has begun. */
  lemma ReadNow(cfg: Config, acts: seq<Action>, gen: nat)
    requires cfg.Valid() && acts != [] && gen <= Run(cfg, acts[..|acts| - 1]).cur.s.gen
    ensures ReadSince(cfg, acts[..|acts| - 1], Run(cfg, acts[..|acts| - 1]).clock, gen)
  {
    hide Next, Run;
    var before := acts[..|acts| - 1];
    forall k: nat | k <= |before| ensures Run(cfg, before[..k]).clock <= Run(cfg, before).clock { ClockMovesForward(cfg, before, k); }
  }

  /** A step of another thread, a call or a tick leaves a thread where it is, or starts it. */
  lemma OthersStay(cfg: Config, m: Machine, act: Action, tid: Tid)
    requires cfg.slot >= 1 && act != Go(tid)
    ensures var pc := At(Next(cfg, m, act), tid); pc == At(m, tid) || pc.Allowing? || pc.Recording?
  {
    hide Tripped, RingSum, Added, AllowOn, ProbeNext;
  }

  /** A thread's time is the one it had, or the clock. */
  lemma TimedStep(cfg: Config, m: Machine, act: Action, tid: Tid, now: nat, gen: nat)
    requires cfg.slot >= 1 && Inv(cfg, m) && Timed(At(Next(cfg, m, act), tid), now, gen)
    ensures gen <= m.cur.s.gen && (Timed(At(m, tid), now, gen) || now == m.clock)
  {
    hide Inv, Tripped, RingSum, Added, AllowOn, ProbeNext, Proves, TicketFits;
    FitsAt(cfg, m, tid);
    if act == Go(tid) {
      match At(m, tid)
      case AllowLoaded(c) => NotTimed(cfg, m, tid, c, m.clock);
      case AllowTimed(c, n) => NotTimed(cfg, m, tid, c, n);
      case _ =>
    } else {
      OthersStay(cfg, m, act, tid);
    }
  }

  lemma NotTimed(cfg: Config, m: Machine, tid: Tid, c: Cell, n: nat)
    ensures var pc := At(GoAllow(cfg, m, tid, c, n), tid); pc.Holding? || pc.Idle? || pc.Allowing?
  {
  }

  /** A snapshot that opens takes the time of the thread that opens it. */
  lemma OpeningStep(cfg: Config, m: Machine, act: Action)
    requires cfg.Valid() && Inv(cfg, m) && Next(cfg, m, act).cur.s.state == Open
    ensures var s := Next(cfg, m, act).cur.s;
            s == m.cur.s || (act.Go? && s.gen == m.cur.s.gen + 1 && Timed(At(m, act.tid), s.openedAt, m.cur.s.gen))
  {
    hide Tripped, RingSum, Added, WindowFits, Balanced, Proves;
    if act.Go? { FitsAt(cfg, m, act.tid); }
  }

  lemma {:induction false} TimesAreRead(cfg: Config, acts: seq<Action>)
    requires cfg.Valid()
    ensures TimesFit(cfg, acts)
  {
    hide Next, Inv, Timed, ReadSince;
    if acts == [] {
      NothingTimed();
    } else {
      var before, act := acts[..|acts| - 1], acts[|acts| - 1];
      var m := Run(cfg, before);
      TimesAreRead(cfg, before);
      Reachable(cfg, before);
      forall tid, now, gen | Timed(At(Run(cfg, acts), tid), now, gen) ensures ReadSince(cfg, acts, now, gen) {
        TimedStep(cfg, m, act, tid, now, gen);
        if !Timed(At(m, tid), now, gen) { ReadNow(cfg, acts, gen); }
        StillReadSince(cfg, acts, now, gen);
      }
      if Run(cfg, acts).cur.s.state == Open {
        var s := Run(cfg, acts).cur.s;
        OpeningStep(cfg, m, act);
        StillReadSince(cfg, acts, s.openedAt, s.gen - 1);
      }
    }
  }

  lemma NothingTimed()
    ensures forall tid, now, gen :: !Timed(At(START, tid), now, gen)
  {
  }

  /** An open snapshot's time was read from the clock while the generation before it lasted: it is not ahead of the clock,
      and not before any time at which that generation had not begun. */
  lemma OpenedInItsTime(cfg: Config, acts: seq<Action>, k: nat)
    requires cfg.Valid() && Run(cfg, acts).cur.s.state == Open && k <= |acts|
    ensures Run(cfg, acts).cur.s.openedAt <= Run(cfg, acts).clock
    ensures Run(cfg, acts[..k]).cur.s.gen + 1 < Run(cfg, acts).cur.s.gen ==> Run(cfg, acts[..k]).clock <= Run(cfg, acts).cur.s.openedAt
  {
    hide Run;
    TimesAreRead(cfg, acts);
  }
}
