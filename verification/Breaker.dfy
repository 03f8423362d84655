/**
The circuit breaker of libs/resilient-http-client/breaker.go, one call at a time.

A state is one immutable snapshot; `AllowOn`, `ProbeNext` and `Tripped` are the
decisions a call takes on the snapshot it loaded. Here each call is atomic, and
`RingBreakerRefinesLog` says that the breaker trips at exactly the failures at which
one keeping every result would. BreakerRuns interleaves the steps of the calls.
*/
module Breaker {
  import opened SlidingWindow

  datatype State = Closed | Open | HalfOpen

  datatype Outcome = Success | Failure | Ignored

  /** What a caller shows when its request ends: under which generation it came in, and as a probe or not. */
  datatype Ticket = Ticket(gen: nat, probe: bool)

  datatype Snapshot = Snapshot(state: State, gen: nat, probes: int, successes: int, openedAt: nat)

  datatype Config = Config(ratio: real, minRequests: int, openTimeout: int, maxProbes: int, slot: int) {
    /** What the configuration's validation demands of a target with a breaker. */
    ghost predicate Valid() {
      0.0 < ratio <= 1.0 && minRequests >= 1 && openTimeout >= 1 && maxProbes >= 1 && slot >= 1
    }
  }

  /** What `allow` does with the snapshot it loaded: admit, refuse, or admit if a swap to `next` wins. */
  datatype Verdict = Admit(t: Ticket) | Refuse | Swap(next: Snapshot, t: Ticket)

  function AllowOn(cfg: Config, s: Snapshot, now: nat): Verdict {
    match s.state
    case Closed => Admit(Ticket(s.gen, false))
    case Open =>
      if now - s.openedAt < cfg.openTimeout then Refuse
      else Swap(Snapshot(HalfOpen, s.gen + 1, 1, 0, 0), Ticket(s.gen + 1, true))
    case HalfOpen =>
      if s.probes >= cfg.maxProbes then Refuse
      else Swap(s.(probes := s.probes + 1), Ticket(s.gen, true))
  }

  /** The snapshot a probe's outcome asks for. */
  function ProbeNext(cfg: Config, s: Snapshot, o: Outcome, now: nat): Snapshot {
    match o
    case Ignored => s.(probes := s.probes - 1)
    case Failure => Snapshot(Open, s.gen + 1, 0, 0, now)
    case Success =>
      if s.successes + 1 >= cfg.maxProbes then Snapshot(Closed, s.gen + 1, 0, 0, 0)
      else s.(successes := s.successes + 1)
  }

  /** Whether the totals (a = requests, b = failures) meet both thresholds. */
  predicate Tripped(cfg: Config, seen: Totals) {
    seen.a >= cfg.minRequests && seen.b as real >= cfg.ratio * seen.a as real
  }

  function Result(now: nat, o: Outcome): Entry { Entry(now, 1, if o == Failure then 1 else 0) }

  // ------------------------------------------------ the atomic breaker, over the ring

  /** The breaker's fields: the snapshot, the window and the generation the window counts for. */
  datatype Ringed = Ringed(cur: Snapshot, ring: Ring, winGen: nat)

  const FIRST := Snapshot(Closed, 0, 0, 0, 0)

  function Allowed(cfg: Config, s: Snapshot, now: nat): Snapshot {
    var v := AllowOn(cfg, s, now);
    if v.Swap? then v.next else s
  }

  function Recorded(cfg: Config, b: Ringed, t: Ticket, o: Outcome, now: nat): Ringed
    requires cfg.slot >= 1
  {
    var s := b.cur;
    if t.probe then
      if s.state != HalfOpen || s.gen != t.gen then b else b.(cur := ProbeNext(cfg, s, o, now))
    else if o == Ignored || s.state != Closed || s.gen != t.gen then b
    else
      var base := if b.winGen != s.gen then Empty() else b.ring;
      var e := Result(now, o);
      var ring := Added(base, now / cfg.slot, e.a, e.b);
      var cur := if o == Failure && Tripped(cfg, RingSum(ring, now / cfg.slot, SLOTS))
                 then Snapshot(Open, s.gen + 1, 0, 0, now) else s;
      Ringed(cur, ring, s.gen)
  }

  // ------------------------------------------------ the same breaker, keeping every result

  /** The snapshot, and every result recorded in its generation. */
  datatype Logged = Logged(cur: Snapshot, log: seq<Entry>)

  function MovedTo(b: Logged, cur: Snapshot): Logged {
    Logged(cur, if cur.gen == b.cur.gen then b.log else [])
  }

  function LogRecorded(cfg: Config, b: Logged, t: Ticket, o: Outcome, now: nat): Logged
    requires cfg.slot >= 1
  {
    var s := b.cur;
    if t.probe then
      if s.state != HalfOpen || s.gen != t.gen then b else MovedTo(b, ProbeNext(cfg, s, o, now))
    else if o == Ignored || s.state != Closed || s.gen != t.gen then b
    else
      var log := b.log + [Result(now, o)];
      if o == Failure && Tripped(cfg, LogSum(log, cfg.slot, now))
      then Logged(Snapshot(Open, s.gen + 1, 0, 0, now), []) else Logged(s, log)
  }

  // ------------------------------------------------ whole runs

  datatype Call = Allow(t: nat) | Record(t: nat, ticket: Ticket, o: Outcome)

  ghost predicate ClockForward(calls: seq<Call>) {
    forall i, j :: 0 <= i < j < |calls| ==> calls[i].t <= calls[j].t
  }

  ghost function RingRun(cfg: Config, calls: seq<Call>): Ringed
    requires cfg.slot >= 1
  {
    if calls == [] then Ringed(FIRST, Empty(), 0)
    else
      var b := RingRun(cfg, calls[..|calls| - 1]);
      match calls[|calls| - 1]
      case Allow(t) => b.(cur := Allowed(cfg, b.cur, t))
      case Record(t, ticket, o) => Recorded(cfg, b, ticket, o, t)
  }

  ghost function LogRun(cfg: Config, calls: seq<Call>): Logged
    requires cfg.slot >= 1
  {
    if calls == [] then Logged(FIRST, [])
    else
      var b := LogRun(cfg, calls[..|calls| - 1]);
      match calls[|calls| - 1]
      case Allow(t) => MovedTo(b, Allowed(cfg, b.cur, t))
      case Record(t, ticket, o) => LogRecorded(cfg, b, ticket, o, t)
  }

  ghost predicate Simulates(cfg: Config, r: Ringed, l: Logged, now: nat)
    requires cfg.slot >= 1
  {
    && r.cur == l.cur
    && r.winGen <= r.cur.gen
    && Nondecreasing(l.log) && NoneAfter(l.log, now)
    && (if r.winGen == r.cur.gen then r.ring == Replay(l.log, cfg.slot) else l.log == [])
  }

  /** One more result counted by both, in a ring that is up to date or started over. */
  lemma CountSimulates(cfg: Config, log: seq<Entry>, o: Outcome, now: nat)
    requires cfg.Valid() && Nondecreasing(log) && NoneAfter(log, now)
    ensures var e := Result(now, o);
            var ring := Added(Replay(log, cfg.slot), now / cfg.slot, e.a, e.b);
            && ring == Replay(log + [e], cfg.slot) && Nondecreasing(log + [e]) && NoneAfter(log + [e], now)
            && RingSum(ring, now / cfg.slot, SLOTS) == LogSum(log + [e], cfg.slot, now)
    ensures Replay([], cfg.slot) == Empty() && Nondecreasing([]) && NoneAfter([], now)
  {
    hide Added, RingSum, LogSum;
    var log' := log + [Result(now, o)];
    assert log'[..|log|] == log;
    RingRefinesLog(log', cfg.slot, now);
  }

  lemma RecordSimulates(cfg: Config, r: Ringed, l: Logged, t: Ticket, o: Outcome, now: nat)
    requires cfg.Valid() && Simulates(cfg, r, l, now)
    ensures Simulates(cfg, Recorded(cfg, r, t, o, now), LogRecorded(cfg, l, t, o, now), now)
  {
    hide Added, Replay, RingSum, LogSum, Tripped, Nondecreasing, NoneAfter, Empty, Result;
    CountSimulates(cfg, l.log, o, now);
  }

  lemma {:induction false} RunSimulates(cfg: Config, calls: seq<Call>, now: nat)
    requires cfg.Valid() && ClockForward(calls) && forall c :: c in calls ==> c.t <= now
    ensures Simulates(cfg, RingRun(cfg, calls), LogRun(cfg, calls), now)
  {
    if calls != [] {
      var init, last := calls[..|calls| - 1], calls[|calls| - 1];
      forall c | c in init ensures c.t <= last.t {
        var i :| 0 <= i < |init| && init[i] == c;
        assert calls[i].t <= calls[|calls| - 1].t;
      }
      RunSimulates(cfg, init, last.t);
      if last.Record? {
        RecordSimulates(cfg, RingRun(cfg, init), LogRun(cfg, init), last.ticket, last.o, last.t);
      }
      assert last in calls;
    }
  }

  /** Over every run of atomic calls whose clock does not go back, the ring breaker is in the same
      snapshot as the one keeping every result: it trips at exactly the same failures. */
  lemma RingBreakerRefinesLog(cfg: Config, calls: seq<Call>)
    requires cfg.Valid() && ClockForward(calls)
    ensures RingRun(cfg, calls).cur == LogRun(cfg, calls).cur
  {
    var now: nat := if calls == [] then 0 else calls[|calls| - 1].t;
    forall c | c in calls ensures c.t <= now {
      var i :| 0 <= i < |calls| && calls[i] == c;
      if i < |calls| - 1 { assert calls[i].t <= calls[|calls| - 1].t; }
    }
    RunSimulates(cfg, calls, now);
  }

  // ------------------------------------------------------------- exactly when it trips

  /** Call `c`, met by snapshot `s`, is a result of a request that the closed snapshot of generation `gen` admitted. */
  predicate IsResult(c: Call, s: Snapshot, gen: nat) {
    c.Record? && !c.ticket.probe && c.o != Ignored && c.ticket.gen == gen && s.state == Closed && s.gen == gen
  }

  /** The results of generation `gen` among the first `n` calls, one request each, and a failure or not. */
  ghost function Results(cfg: Config, calls: seq<Call>, n: nat, gen: nat): seq<Entry>
    requires cfg.slot >= 1 && n <= |calls|
  {
    if n == 0 then []
    else
      Results(cfg, calls, n - 1, gen) +
      if IsResult(calls[n - 1], RingRun(cfg, calls[..n - 1]).cur, gen) then [Entry(calls[n - 1].t, 1, if calls[n - 1].o == Failure then 1 else 0)] else []
  }

  lemma ClockForwardBefore(calls: seq<Call>, n: nat)
    requires ClockForward(calls) && n <= |calls|
    ensures ClockForward(calls[..n])
  {
  }

  /** What one call does to the breaker that keeps every result. */
  lemma LogStep(cfg: Config, calls: seq<Call>, n: nat)
    requires cfg.Valid() && ClockForward(calls) && n < |calls|
    ensures var b, b' := LogRun(cfg, calls[..n]), LogRun(cfg, calls[..n + 1]);
            && b.cur == RingRun(cfg, calls[..n]).cur && b.cur.gen <= b'.cur.gen
            && (b'.cur.gen > b.cur.gen ==> b'.log == [])
            && (b'.cur.gen == b.cur.gen ==>
                  b'.log == b.log + if IsResult(calls[n], b.cur, b.cur.gen) then [Entry(calls[n].t, 1, if calls[n].o == Failure then 1 else 0)] else [])
  {
    hide Tripped, LogSum, RingRun;
    assert calls[..n + 1][..n] == calls[..n];
    ClockForwardBefore(calls, n);
    RingBreakerRefinesLog(cfg, calls[..n]);
  }

  /** The log of the breaker that keeps every result is what its name says. */
  lemma {:induction false} LogIsResults(cfg: Config, calls: seq<Call>, n: nat)
    requires cfg.Valid() && ClockForward(calls) && n <= |calls|
    ensures var b := LogRun(cfg, calls[..n]);
            && b.log == Results(cfg, calls, n, b.cur.gen)
            && forall gen: nat :: gen > b.cur.gen ==> Results(cfg, calls, n, gen) == []
  {
    hide LogRun, RingRun;
    if n == 0 {
      StartsEmpty(cfg, calls);
    } else {
      LogIsResults(cfg, calls, n - 1);
      LogStep(cfg, calls, n - 1);
    }
  }

  lemma StartsEmpty(cfg: Config, calls: seq<Call>)
    requires cfg.slot >= 1
    ensures LogRun(cfg, calls[..0]).log == []
  {
    assert calls[..0] == [];
  }

  lemma OpensWhenTripped(cfg: Config, calls: seq<Call>, t: Ticket, o: Outcome, now: nat)
    requires cfg.Valid() && ClockForward(calls + [Record(now, t, o)]) && RingRun(cfg, calls).cur.state == Closed
    ensures var s, s' := RingRun(cfg, calls).cur, RingRun(cfg, calls + [Record(now, t, o)]).cur;
            s' == if !t.probe && t.gen == s.gen && o == Failure && Tripped(cfg, LogSum(Results(cfg, calls, |calls|, s.gen) + [Entry(now, 1, 1)], cfg.slot, now))
                  then Snapshot(Open, s.gen + 1, 0, 0, now) else s
  {
    hide LogSum, RingRun, Tripped, Results;
    var more := calls + [Record(now, t, o)];
    assert more[..|calls|] == calls == calls[..|calls|];
    ClockForwardBefore(more, |calls|);
    RingBreakerRefinesLog(cfg, more);
    RingBreakerRefinesLog(cfg, calls);
    LogIsResults(cfg, calls, |calls|);
  }

  /** A closed breaker opens on a failure of its own generation that brings the results of that generation in the last
      ten slots to minRequests and their failures to the ratio, and on nothing else; whatever else it records, it stays. */
  lemma OpensExactly(cfg: Config, calls: seq<Call>, t: Ticket, o: Outcome, now: nat)
    requires cfg.Valid() && ClockForward(calls + [Record(now, t, o)]) && RingRun(cfg, calls).cur.state == Closed
    ensures var s, s' := RingRun(cfg, calls).cur, RingRun(cfg, calls + [Record(now, t, o)]).cur;
            var seen := LogSum(Results(cfg, calls, |calls|, s.gen) + [Entry(now, 1, 1)], cfg.slot, now);
            s' == if !t.probe && t.gen == s.gen && o == Failure && seen.a >= cfg.minRequests && seen.b as real >= cfg.ratio * seen.a as real
                  then Snapshot(Open, s.gen + 1, 0, 0, now) else s
  {
    hide LogSum, RingRun, Results, ClockForward;
    OpensWhenTripped(cfg, calls, t, o, now);
  }

  // ------------------------------------------------------------- in place

  class CircuitBreaker {
    const cfg: Config
    const win: Window
    var cur: Snapshot
    var winGen: nat

    ghost predicate Valid()
      reads this, win
    {
      cfg.Valid() && win.Valid() && win.slot == cfg.slot
    }

    ghost function Abs(): Ringed
      requires Valid()
      reads this, win, win.slots
    {
      Ringed(cur, win.Contents(), winGen)
    }

    constructor (ratio: real, minRequests: int, length: int, openTimeout: int, maxProbes: int)
      requires 0.0 < ratio <= 1.0 && minRequests >= 1 && openTimeout >= 1 && maxProbes >= 1
      ensures Valid() && fresh(win) && fresh(win.slots)
      ensures Abs() == RingRun(cfg, [])
      ensures cfg == Config(ratio, minRequests, openTimeout, maxProbes, if length / 10 > 1 then length / 10 else 1)
    {
      var w := new Window(length);
      win := w;
      cfg := Config(ratio, minRequests, openTimeout, maxProbes, w.slot);
      cur := FIRST;
      winGen := 0;
    }

    /** Admits a request or refuses it; `calls` are the calls made so far. */
    method Allow(now: nat, ghost calls: seq<Call>) returns (t: Ticket, ok: bool)
      requires Valid() && Abs() == RingRun(cfg, calls)
      modifies this`cur
      ensures Valid() && Abs() == RingRun(cfg, calls + [Call.Allow(now)])
      ensures old(cur).state == Closed ==> ok && t == Ticket(old(cur).gen, false) && cur == old(cur)
      ensures old(cur).state == Open ==>
                && ok == (now >= old(cur).openedAt + cfg.openTimeout)
                && (ok ==> t == Ticket(cur.gen, true) && cur == Snapshot(HalfOpen, old(cur).gen + 1, 1, 0, 0))
      ensures old(cur).state == HalfOpen ==>
                && ok == (old(cur).probes < cfg.maxProbes)
                && (ok ==> t == Ticket(cur.gen, true) && cur == old(cur).(probes := old(cur).probes + 1))
      ensures !ok ==> cur == old(cur)
    {
      assert (calls + [Call.Allow(now)])[..|calls|] == calls;
      var s := cur;
      match s.state {
        case Closed =>
          return Ticket(s.gen, false), true;
        case Open =>
          if now - s.openedAt < cfg.openTimeout {
            return Ticket(0, false), false;
          }
          cur := Snapshot(HalfOpen, s.gen + 1, 1, 0, 0);
          return Ticket(s.gen + 1, true), true;
        case HalfOpen =>
          if s.probes >= cfg.maxProbes {
            return Ticket(0, false), false;
          }
          cur := s.(probes := s.probes + 1);
          return Ticket(s.gen, true), true;
      }
    }

    /** Takes in an outcome: a probe's moves a half-open snapshot, any other is a result for the window of its generation. */
    method Record(t: Ticket, o: Outcome, now: nat, ghost calls: seq<Call>)
      requires Valid() && Abs() == RingRun(cfg, calls)
      modifies this`cur, this`winGen, win.slots
      ensures Valid() && Abs() == RingRun(cfg, calls + [Call.Record(now, t, o)])
      ensures !t.probe && (o != Failure || old(cur).state != Closed || old(cur).gen != t.gen) ==> cur == old(cur)
    {
      assert (calls + [Call.Record(now, t, o)])[..|calls|] == calls;
      if t.probe {
        RecordProbe(t, o, now);
        return;
      }
      var s := cur;
      if o == Ignored || s.state != Closed || s.gen != t.gen {
        return;
      }
      var failed := if o == Failure then 1 else 0;
      if winGen != s.gen {
        win.Reset();
        winGen := s.gen;
      }
      win.Add(now, 1, failed);
      var requests, failures := win.Sum(now);
      if failed == 1 && Tripped(cfg, Totals(requests, failures)) {
        cur := Snapshot(Open, s.gen + 1, 0, 0, now);
      }
    }

    method RecordProbe(t: Ticket, o: Outcome, now: nat)
      requires Valid()
      modifies this`cur
      ensures cur == if old(cur).state == HalfOpen && old(cur).gen == t.gen then ProbeNext(cfg, old(cur), o, now) else old(cur)
      ensures old(cur).state == HalfOpen && old(cur).gen == t.gen ==>
                && (o == Failure ==> cur == Snapshot(Open, t.gen + 1, 0, 0, now))
                && (o == Success && old(cur).successes + 1 >= cfg.maxProbes ==> cur == Snapshot(Closed, t.gen + 1, 0, 0, 0))
                && (o == Success && old(cur).successes + 1 < cfg.maxProbes ==> cur == old(cur).(successes := old(cur).successes + 1))
                && (o == Ignored ==> cur == old(cur).(probes := old(cur).probes - 1))
    {
      var s := cur;
      if s.state != HalfOpen || s.gen != t.gen {
        return;
      }
      match o {
        case Ignored => cur := s.(probes := s.probes - 1);
        case Failure => cur := Snapshot(Open, s.gen + 1, 0, 0, now);
        case Success =>
          if s.successes + 1 >= cfg.maxProbes {
            cur := Snapshot(Closed, s.gen + 1, 0, 0, 0);
          } else {
            cur := s.(successes := s.successes + 1);
          }
      }
    }
  }
}
