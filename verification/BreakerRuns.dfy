/**
Every interleaving of the steps of `allow` and `record` of libs/resilient-http-client/breaker.go.

The snapshot pointer is a cell with its own identity: a compare-and-swap wins exactly when
the cell loaded is still the current one. Each thread takes one step at a time (load, read
the clock, count under the lock, swap); any number of threads run, in any order, and the
clock never goes back. A ticket handed out is recorded at most once (module Send).
*/
module BreakerRuns {
  import opened Breaker
  import Sets
  import opened SlidingWindow

  type Tid = nat

  datatype Cell = Cell(id: nat, s: Snapshot)

  /** A result counted in the window, with the generation its request was admitted in. */
  datatype Counted = Counted(gen: nat, now: nat, o: Outcome)

  /** A probe's result that won its swap. */
  datatype Settled = Settled(gen: nat, o: Outcome)

  /** Where a thread is. */
  datatype Pc =
    | Idle
    | Allowing                                                      // head of allow's loop
    | AllowLoaded(c: Cell)
    | AllowTimed(c: Cell, now: nat)                                 // open snapshot, clock read
    | Holding(t: Ticket)
    | Recording(t: Ticket, o: Outcome)                              // head of record, or of recordProbe's loop
    | ResultLoaded(t: Ticket, o: Outcome, c: Cell)                  // closed snapshot of the ticket's generation
    | ResultTimed(t: Ticket, o: Outcome, c: Cell, now: nat)
    | Tripping(c: Cell, now: nat, evidence: seq<Counted>)           // thresholds met, about to swap
    | ProbeLoaded(t: Ticket, o: Outcome, c: Cell)                   // half-open snapshot of the ticket's generation
    | ProbeTimed(t: Ticket, o: Outcome, c: Cell, now: nat)

  datatype Machine = Machine(
    cur: Cell, clock: nat, ring: Ring, winGen: nat,
    counted: seq<Counted>,                                          // results since the window's last reset
    settled: seq<Settled>, threads: map<Tid, Pc>)

  datatype Action = Tick(d: nat) | CallAllow(tid: Tid) | CallRecord(tid: Tid, o: Outcome) | Go(tid: Tid)

  function At(m: Machine, tid: Tid): Pc { if tid in m.threads then m.threads[tid] else Idle }

  function Put(m: Machine, tid: Tid, pc: Pc): Machine { m.(threads := m.threads[tid := pc]) }

  function Entries(counted: seq<Counted>): seq<Entry> { seq(|counted|, i requires 0 <= i < |counted| => Result(counted[i].now, counted[i].o)) }

  /** The compare-and-swap: on a win the new snapshot gets a cell of its own. */
  function Won(m: Machine, c: Cell): bool { m.cur.id == c.id }

  function Installed(m: Machine, next: Snapshot): Machine { m.(cur := Cell(m.cur.id + 1, next)) }

  function GoAllow(cfg: Config, m: Machine, tid: Tid, c: Cell, now: nat): Machine {
    match AllowOn(cfg, c.s, now)
    case Admit(t) => Put(m, tid, Holding(t))
    case Refuse => Put(m, tid, Idle)
    case Swap(next, t) => if Won(m, c) then Put(Installed(m, next), tid, Holding(t)) else Put(m, tid, Allowing)
  }

  function GoRecord(m: Machine, tid: Tid, t: Ticket, o: Outcome): Machine {
    var s := m.cur.s;
    if t.probe then
      if s.state != HalfOpen || s.gen != t.gen then Put(m, tid, Idle) else Put(m, tid, ProbeLoaded(t, o, m.cur))
    else if o == Ignored || s.state != Closed || s.gen != t.gen then Put(m, tid, Idle)
    else Put(m, tid, ResultLoaded(t, o, m.cur))
  }

  /** The window update under the lock, then the threshold test. */
  function GoCount(cfg: Config, m: Machine, tid: Tid, t: Ticket, o: Outcome, c: Cell, now: nat): Machine
    requires cfg.slot >= 1
  {
    var stale := m.winGen != c.s.gen;
    var e := Result(now, o);
    var ring := Added(if stale then Empty() else m.ring, now / cfg.slot, e.a, e.b);
    var counted := (if stale then [] else m.counted) + [Counted(t.gen, now, o)];
    var m' := m.(ring := ring, winGen := c.s.gen, counted := counted);
    if o == Failure && Tripped(cfg, RingSum(ring, now / cfg.slot, SLOTS)) then Put(m', tid, Tripping(c, now, counted))
    else Put(m', tid, Idle)
  }

  function GoProbe(cfg: Config, m: Machine, tid: Tid, t: Ticket, o: Outcome, c: Cell, now: nat): Machine {
    if Won(m, c) then
      Put(Installed(m, ProbeNext(cfg, c.s, o, now)).(settled := m.settled + [Settled(t.gen, o)]), tid, Idle)
    else Put(m, tid, Recording(t, o))
  }

  /** One step; an action that is not enabled changes nothing. */
  function Next(cfg: Config, m: Machine, act: Action): Machine
    requires cfg.slot >= 1
  {
    match act
    case Tick(d) => m.(clock := m.clock + d)
    case CallAllow(tid) => if At(m, tid).Idle? then Put(m, tid, Allowing) else m
    case CallRecord(tid, o) => if At(m, tid).Holding? then Put(m, tid, Recording(At(m, tid).t, o)) else m
    case Go(tid) =>
      match At(m, tid)
      case Idle => m
      case Holding(_) => m
      case Allowing => Put(m, tid, AllowLoaded(m.cur))
      case AllowLoaded(c) =>
        if c.s.state == Open then Put(m, tid, AllowTimed(c, m.clock)) else GoAllow(cfg, m, tid, c, m.clock)
      case AllowTimed(c, now) => GoAllow(cfg, m, tid, c, now)
      case Recording(t, o) => GoRecord(m, tid, t, o)
      case ResultLoaded(t, o, c) => Put(m, tid, ResultTimed(t, o, c, m.clock))
      case ResultTimed(t, o, c, now) => GoCount(cfg, m, tid, t, o, c, now)
      case Tripping(c, now, _) =>
        if Won(m, c) then Put(Installed(m, Snapshot(Open, c.s.gen + 1, 0, 0, now)), tid, Idle) else Put(m, tid, Idle)
      case ProbeLoaded(t, o, c) => Put(m, tid, ProbeTimed(t, o, c, m.clock))
      case ProbeTimed(t, o, c, now) => GoProbe(cfg, m, tid, t, o, c, now)
  }

  const START := Machine(Cell(0, FIRST), 0, Empty(), 0, [], [], map[])

  ghost function Run(cfg: Config, acts: seq<Action>): Machine
    requires cfg.slot >= 1
  {
    if acts == [] then START else Next(cfg, Run(cfg, acts[..|acts| - 1]), acts[|acts| - 1])
  }

  // ------------------------------------------------------------ invariant

  /** The ticket a thread has been given and has not yet settled. */
  predicate Holds(pc: Pc, t: Ticket) {
    match pc
    case Holding(u) => u == t
    case Recording(u, _) => u == t
    case ProbeLoaded(u, _, _) => u == t
    case ProbeTimed(u, _, _, _) => u == t
    case ResultLoaded(u, _, _) => u == t
    case ResultTimed(u, _, _, _) => u == t
    case _ => false
  }

  /** The threads whose probe of generation `gen` is outstanding. */
  function Outstanding(m: Machine, gen: nat): set<Tid> {
    set tid | tid in m.threads && Holds(m.threads[tid], Ticket(gen, true))
  }

  function Wins(settled: seq<Settled>, gen: nat): nat {
    if settled == [] then 0
    else Wins(settled[..|settled| - 1], gen) + if settled[|settled| - 1] == Settled(gen, Success) then 1 else 0
  }

  /** A cell some thread loaded: it is the current one, or an older one of an older or equal generation. */
  ghost predicate CellFits(m: Machine, c: Cell) {
    && c.id <= m.cur.id
    && (c.id == m.cur.id ==> c == m.cur)
    && c.s.gen <= m.cur.s.gen
    && (c.s.gen == m.cur.s.gen ==> c.s.state == m.cur.s.state)
  }

  ghost predicate TicketFits(m: Machine, t: Ticket) {
    && t.gen <= m.cur.s.gen
    && (t.gen == m.cur.s.gen ==> m.cur.s.state == if t.probe then HalfOpen else Closed)
  }

  /** The evidence of a trip: results of one generation only, whose ring totals meet both thresholds. */
  ghost predicate Proves(cfg: Config, evidence: seq<Counted>, gen: nat, now: nat)
    requires cfg.slot >= 1
  {
    && (forall x :: x in evidence ==> x.gen == gen)
    && Tripped(cfg, RingSum(Replay(Entries(evidence), cfg.slot), now / cfg.slot, SLOTS))
  }

  ghost predicate PcFits(cfg: Config, m: Machine, pc: Pc)
    requires cfg.slot >= 1
  {
    match pc
    case Idle => true
    case Allowing => true
    case AllowLoaded(c) => CellFits(m, c)
    case AllowTimed(c, now) => CellFits(m, c) && c.s.state == Open && now <= m.clock
    case Holding(t) => TicketFits(m, t)
    case Recording(t, _) => TicketFits(m, t)
    case ResultLoaded(t, _, c) => CellFits(m, c) && TicketFits(m, t) && !t.probe && c.s.state == Closed && c.s.gen == t.gen
    case ResultTimed(t, _, c, _) => CellFits(m, c) && TicketFits(m, t) && !t.probe && c.s.state == Closed && c.s.gen == t.gen
    case Tripping(c, now, evidence) => CellFits(m, c) && c.s.state == Closed && Proves(cfg, evidence, c.s.gen, now)
    case ProbeLoaded(t, _, c) => CellFits(m, c) && TicketFits(m, t) && t.probe && c.s.state == HalfOpen && c.s.gen == t.gen
    case ProbeTimed(t, _, c, _) => CellFits(m, c) && TicketFits(m, t) && t.probe && c.s.state == HalfOpen && c.s.gen == t.gen
  }

  /** The window holds results of one generation only. */
  ghost predicate WindowFits(cfg: Config, m: Machine)
    requires cfg.slot >= 1
  {
    && (forall x :: x in m.counted ==> x.gen == m.winGen)
    && m.ring == Replay(Entries(m.counted), cfg.slot)
  }

  /** Half-open accounting. */
  ghost predicate Balanced(cfg: Config, m: Machine) {
    var s := m.cur.s;
    && (s.state == HalfOpen ==>
          && s.probes == |Outstanding(m, s.gen)| + s.successes
          && s.probes <= cfg.maxProbes
          && 0 <= s.successes < cfg.maxProbes
          && s.successes == Wins(m.settled, s.gen))
    && forall x :: x in m.settled ==> x.gen <= s.gen && (x.gen == s.gen ==> s.state == HalfOpen)
  }

  ghost predicate Inv(cfg: Config, m: Machine)
    requires cfg.slot >= 1
  {
    && (forall tid :: tid in m.threads ==> PcFits(cfg, m, m.threads[tid]))
    && WindowFits(cfg, m)
    && Balanced(cfg, m)
  }

  // ------------------------------------------------------------ preservation

  /** What any step may do to the snapshot. */
  ghost predicate Moves(m: Machine, m': Machine) {
    m'.cur == m.cur ||
    (m'.cur.id == m.cur.id + 1 &&
     if m'.cur.s.state == m.cur.s.state then m'.cur.s.gen == m.cur.s.gen else m'.cur.s.gen == m.cur.s.gen + 1)
  }

  lemma {:induction false} WinsOfLater(settled: seq<Settled>, gen: nat)
    requires forall x :: x in settled ==> x.gen < gen
    ensures Wins(settled, gen) == 0
  {
    if settled != [] {
      assert settled[|settled| - 1] in settled;
      WinsOfLater(settled[..|settled| - 1], gen);
    }
  }

  /** Threads other than `tid` keep fitting when the snapshot moves and the clock does not go back. */
  lemma OthersFit(cfg: Config, m: Machine, m': Machine, pc: Pc)
    requires cfg.slot >= 1 && PcFits(cfg, m, pc) && Moves(m, m') && m.clock <= m'.clock
    ensures PcFits(cfg, m', pc)
  {
  }

  /** How a step of `tid` changes the outstanding probes of a generation. */
  lemma OutstandingAfter(m: Machine, m': Machine, tid: Tid, pc: Pc, gen: nat)
    requires m'.threads == m.threads[tid := pc]
    ensures var before, after := Holds(At(m, tid), Ticket(gen, true)), Holds(pc, Ticket(gen, true));
            && |Outstanding(m', gen)| == |Outstanding(m, gen)| - (if before then 1 else 0) + (if after then 1 else 0)
            && (before ==> |Outstanding(m, gen)| >= 1)
  {
    var out, out' := Outstanding(m, gen), Outstanding(m', gen);
    assert tid in out <==> Holds(At(m, tid), Ticket(gen, true));
    assert tid in out' <==> Holds(pc, Ticket(gen, true));
    assert out - {tid} == out' - {tid};
    Sets.OneMember(out, out', tid);
  }

  lemma NoneOutstanding(m: Machine, gen: nat)
    requires forall tid :: tid in m.threads ==> !Holds(m.threads[tid], Ticket(gen, true))
    ensures Outstanding(m, gen) == {}
  {
  }

  /** A step that leaves the snapshot alone and neither takes nor gives up a probe of its generation. */
  lemma QuietStep(cfg: Config, m: Machine, tid: Tid, pc: Pc)
    requires cfg.Valid() && Inv(cfg, m) && PcFits(cfg, m, pc)
    requires m.cur.s.state == HalfOpen ==>
               (Holds(pc, Ticket(m.cur.s.gen, true)) <==> Holds(At(m, tid), Ticket(m.cur.s.gen, true)))
    ensures Inv(cfg, Put(m, tid, pc))
  {
    hide PcFits, Wins, Replay, Entries, Outstanding, Holds;
    var m' := Put(m, tid, pc);
    OutstandingAfter(m, m', tid, pc, m.cur.s.gen);
    OthersFit(cfg, m, m', pc);
    forall u | u in m.threads ensures PcFits(cfg, m', m.threads[u]) { OthersFit(cfg, m, m', m.threads[u]); }
  }

  /** One more result in the window. */
  lemma OneMoreCounted(cfg: Config, counted: seq<Counted>, x: Counted)
    requires cfg.slot >= 1
    ensures var e := Result(x.now, x.o);
            Replay(Entries(counted + [x]), cfg.slot) == Added(Replay(Entries(counted), cfg.slot), x.now / cfg.slot, e.a, e.b)
  {
    hide Added;
    assert Entries(counted + [x])[..|counted|] == Entries(counted);
  }

  /** The window changes, nothing else. */
  lemma NewWindow(cfg: Config, m: Machine, m': Machine)
    requires cfg.Valid() && Inv(cfg, m) && WindowFits(cfg, m') && m' == m.(ring := m'.ring, winGen := m'.winGen, counted := m'.counted)
    ensures Inv(cfg, m')
  {
    hide WindowFits, Wins, Tripped, RingSum, Replay;
    assert Outstanding(m', m.cur.s.gen) == Outstanding(m, m.cur.s.gen);
    forall u | u in m'.threads ensures PcFits(cfg, m', m'.threads[u]) { OthersFit(cfg, m, m', m.threads[u]); }
  }

  lemma FitsAt(cfg: Config, m: Machine, tid: Tid)
    requires cfg.slot >= 1 && Inv(cfg, m)
    ensures PcFits(cfg, m, At(m, tid))
  {
    hide CellFits, TicketFits, Proves, Balanced, WindowFits;
  }

  lemma CountStep(cfg: Config, m: Machine, tid: Tid)
    requires cfg.Valid() && Inv(cfg, m) && At(m, tid).ResultTimed?
    ensures Inv(cfg, Next(cfg, m, Go(tid)))
  {
    hide Inv, Added, Replay, Entries, Tripped, RingSum, Balanced;
    FitsAt(cfg, m, tid);
    var ResultTimed(t, o, c, now) := At(m, tid);
    var kept := if m.winGen != c.s.gen then [] else m.counted;
    var counted := kept + [Counted(t.gen, now, o)];
    var m' := m.(ring := Replay(Entries(counted), cfg.slot), winGen := c.s.gen, counted := counted);
    WindowOf(cfg, m);
    OneMoreCounted(cfg, kept, Counted(t.gen, now, o));
    NewWindow(cfg, m, m');
    QuietStep(cfg, m', tid, Idle);
    if o == Failure && Tripped(cfg, RingSum(m'.ring, now / cfg.slot, SLOTS)) {
      QuietStep(cfg, m', tid, Tripping(c, now, counted));
    }
  }

  lemma WindowOf(cfg: Config, m: Machine)
    requires cfg.slot >= 1 && Inv(cfg, m)
    ensures WindowFits(cfg, m) && Replay(Entries([]), cfg.slot) == Empty()
  {
    hide PcFits;
    assert Entries([]) == [];
  }

  /** A won swap, from the current snapshot to `next`, that leaves `tid` at `pc`. */
  lemma SwapStep(cfg: Config, m: Machine, m': Machine, tid: Tid, next: Snapshot, pc: Pc)
    requires cfg.Valid() && Inv(cfg, m) && Moves(m, m')
    requires m' == Put(Installed(m, next).(settled := m'.settled), tid, pc) && PcFits(cfg, m', pc)
    requires Balanced(cfg, m')
    ensures Inv(cfg, m')
  {
    forall u | u in m'.threads ensures PcFits(cfg, m', m'.threads[u]) {
      if u != tid { OthersFit(cfg, m, m', m.threads[u]); }
    }
  }

  lemma AllowStep(cfg: Config, m: Machine, tid: Tid, c: Cell, now: nat)
    requires cfg.Valid() && Inv(cfg, m) && CellFits(m, c) && now <= m.clock
    requires At(m, tid) in {AllowLoaded(c), AllowTimed(c, now)}
    ensures Inv(cfg, GoAllow(cfg, m, tid, c, now)) && Moves(m, GoAllow(cfg, m, tid, c, now))
  {
    var m' := GoAllow(cfg, m, tid, c, now);
    match AllowOn(cfg, c.s, now)
    case Admit(t) => QuietStep(cfg, m, tid, Holding(t));
    case Refuse => QuietStep(cfg, m, tid, Idle);
    case Swap(next, t) =>
      if !Won(m, c) {
        QuietStep(cfg, m, tid, Allowing);
      } else {
        OutstandingAfter(m, m', tid, Holding(t), next.gen);
        if c.s.state == Open {
          NoneOutstanding(m, next.gen);
          WinsOfLater(m.settled, next.gen);
        }
        SwapStep(cfg, m, m', tid, next, Holding(t));
      }
  }

  lemma ProbeStep(cfg: Config, m: Machine, tid: Tid)
    requires cfg.Valid() && Inv(cfg, m) && At(m, tid).ProbeTimed?
    ensures Inv(cfg, Next(cfg, m, Go(tid))) && Moves(m, Next(cfg, m, Go(tid)))
  {
    var ProbeTimed(t, o, c, now) := At(m, tid);
    var m' := Next(cfg, m, Go(tid));
    if Won(m, c) {
      OutstandingAfter(m, m', tid, Idle, t.gen);
      assert m'.settled[..|m.settled|] == m.settled;
      SwapStep(cfg, m, m', tid, ProbeNext(cfg, c.s, o, now), Idle);
    } else {
      QuietStep(cfg, m, tid, Recording(t, o));
    }
  }

  lemma TripStep(cfg: Config, m: Machine, tid: Tid)
    requires cfg.Valid() && Inv(cfg, m) && At(m, tid).Tripping?
    ensures Inv(cfg, Next(cfg, m, Go(tid))) && Moves(m, Next(cfg, m, Go(tid)))
  {
    var Tripping(c, now, _) := At(m, tid);
    if Won(m, c) {
      SwapStep(cfg, m, Next(cfg, m, Go(tid)), tid, Snapshot(Open, c.s.gen + 1, 0, 0, now), Idle);
    } else {
      QuietStep(cfg, m, tid, Idle);
    }
  }

  lemma TickStep(cfg: Config, m: Machine, d: nat)
    requires cfg.Valid() && Inv(cfg, m)
    ensures Inv(cfg, m.(clock := m.clock + d))
  {
    hide Wins, Replay, Entries;
    var m' := m.(clock := m.clock + d);
    forall u | u in m'.threads ensures PcFits(cfg, m', m'.threads[u]) { OthersFit(cfg, m, m', m.threads[u]); }
    assert Outstanding(m', m.cur.s.gen) == Outstanding(m, m.cur.s.gen);
  }

  lemma GoStep(cfg: Config, m: Machine, tid: Tid)
    requires cfg.Valid() && Inv(cfg, m)
    ensures Inv(cfg, Next(cfg, m, Go(tid))) && Moves(m, Next(cfg, m, Go(tid))) && m.clock == Next(cfg, m, Go(tid)).clock
  {
    hide Inv, Proves, Tripped, Added, RingSum, AllowOn, ProbeNext;
    FitsAt(cfg, m, tid);
    match At(m, tid)
    case Idle =>
    case Holding(_) =>
    case Allowing => QuietStep(cfg, m, tid, AllowLoaded(m.cur));
    case AllowLoaded(c) =>
      if c.s.state == Open { QuietStep(cfg, m, tid, AllowTimed(c, m.clock)); } else { AllowStep(cfg, m, tid, c, m.clock); }
    case AllowTimed(c, now) => AllowStep(cfg, m, tid, c, now);
    case Recording(t, o) => RecordStep(cfg, m, tid);
    case ResultLoaded(t, o, c) => QuietStep(cfg, m, tid, ResultTimed(t, o, c, m.clock));
    case ResultTimed(t, o, c, now) => CountStep(cfg, m, tid);
    case Tripping(c, now, _) => TripStep(cfg, m, tid);
    case ProbeLoaded(t, o, c) => QuietStep(cfg, m, tid, ProbeTimed(t, o, c, m.clock));
    case ProbeTimed(t, o, c, now) => ProbeStep(cfg, m, tid);
  }

  lemma StepKeeps(cfg: Config, m: Machine, act: Action)
    requires cfg.Valid() && Inv(cfg, m)
    ensures Inv(cfg, Next(cfg, m, act)) && Moves(m, Next(cfg, m, act)) && m.clock <= Next(cfg, m, act).clock
  {
    hide Inv, GoAllow, GoRecord, GoCount, GoProbe;
    match act
    case Tick(d) => TickStep(cfg, m, d);
    case CallAllow(tid) => if At(m, tid).Idle? { QuietStep(cfg, m, tid, Allowing); }
    case CallRecord(tid, o) =>
      FitsAt(cfg, m, tid);
      if At(m, tid).Holding? { QuietStep(cfg, m, tid, Recording(At(m, tid).t, o)); }
    case Go(tid) => GoStep(cfg, m, tid);
  }

  lemma RecordStep(cfg: Config, m: Machine, tid: Tid)
    requires cfg.Valid() && Inv(cfg, m) && At(m, tid).Recording?
    ensures Inv(cfg, Next(cfg, m, Go(tid)))
  {
    var Recording(t, o) := At(m, tid);
    var s := m.cur.s;
    if t.probe {
      if s.state != HalfOpen || s.gen != t.gen { QuietStep(cfg, m, tid, Idle); } else { QuietStep(cfg, m, tid, ProbeLoaded(t, o, m.cur)); }
    } else if o == Ignored || s.state != Closed || s.gen != t.gen {
      QuietStep(cfg, m, tid, Idle);
    } else {
      QuietStep(cfg, m, tid, ResultLoaded(t, o, m.cur));
    }
  }

  lemma {:induction false} Reachable(cfg: Config, acts: seq<Action>)
    requires cfg.Valid()
    ensures Inv(cfg, Run(cfg, acts))
  {
    if acts == [] {
      assert Entries([]) == [];
    } else {
      Reachable(cfg, acts[..|acts| - 1]);
      StepKeeps(cfg, Run(cfg, acts[..|acts| - 1]), acts[|acts| - 1]);
    }
  }

  // ------------------------------------------------------------ over every run

  lemma Extend(cfg: Config, acts: seq<Action>, more: seq<Action>)
    requires cfg.slot >= 1 && more != []
    ensures Run(cfg, acts + more) == Next(cfg, Run(cfg, acts + more[..|more| - 1]), more[|more| - 1])
  {
    assert (acts + more)[..|acts + more| - 1] == acts + more[..|more| - 1];
  }

  /** Each state change raises the generation by exactly one, nothing else does, so generations never
      go back and each generation has one state. */
  lemma {:induction false} GenerationHasOneState(cfg: Config, acts: seq<Action>, more: seq<Action>)
    requires cfg.Valid()
    ensures var m, m' := Run(cfg, acts), Run(cfg, acts + more);
            && m.cur.s.gen <= m'.cur.s.gen
            && (m.cur.s.gen == m'.cur.s.gen ==> m.cur.s.state == m'.cur.s.state)
    ensures forall act :: Moves(Run(cfg, acts), Next(cfg, Run(cfg, acts), act))
  {
    if more == [] {
      assert acts + more == acts;
    } else {
      var init := more[..|more| - 1];
      GenerationHasOneState(cfg, acts, init);
      Reachable(cfg, acts + init);
      StepKeeps(cfg, Run(cfg, acts + init), more[|more| - 1]);
      Extend(cfg, acts, more);
    }
    Reachable(cfg, acts);
    forall act ensures Moves(Run(cfg, acts), Next(cfg, Run(cfg, acts), act)) {
      StepKeeps(cfg, Run(cfg, acts), act);
    }
  }

  lemma OpenStays(cfg: Config, m: Machine, act: Action)
    requires cfg.Valid() && Inv(cfg, m) && m.cur.s.state == Open && m.clock - m.cur.s.openedAt < cfg.openTimeout
    ensures Next(cfg, m, act).cur == m.cur
  {
    hide WindowFits, Balanced, Proves, Tripped, RingSum, Added;
    if act.Go? { FitsAt(cfg, m, act.tid); }
  }

  lemma OpenHasNoTickets(cfg: Config, m: Machine, tid: Tid, t: Ticket)
    requires cfg.Valid() && Inv(cfg, m) && m.cur.s.state == Open && tid in m.threads && Holds(m.threads[tid], t)
    ensures t.gen < m.cur.s.gen
  {
    hide WindowFits, Balanced, Proves;
    FitsAt(cfg, m, tid);
  }

  /** An open snapshot stays, and no ticket of its generation or a later one exists, until openTimeout has passed. */
  lemma {:induction false} OpenYieldsNoTicketBeforeTimeout(cfg: Config, acts: seq<Action>, more: seq<Action>)
    requires cfg.Valid() && Run(cfg, acts).cur.s.state == Open
    requires Run(cfg, acts + more).clock - Run(cfg, acts).cur.s.openedAt < cfg.openTimeout
    ensures var m, m' := Run(cfg, acts), Run(cfg, acts + more);
            && m'.cur == m.cur
            && forall tid, t :: tid in m'.threads && Holds(m'.threads[tid], t) ==> t.gen < m.cur.s.gen
  {
    hide Inv, Next, Holds;
    var m' := Run(cfg, acts + more);
    if more == [] {
      assert acts + more == acts;
    } else {
      var init, act := more[..|more| - 1], more[|more| - 1];
      Extend(cfg, acts, more);
      var m := Run(cfg, acts + init);
      Reachable(cfg, acts + init);
      StepKeeps(cfg, m, act);
      OpenYieldsNoTicketBeforeTimeout(cfg, acts, init);
      OpenStays(cfg, m, act);
    }
    Reachable(cfg, acts + more);
    forall tid, t | tid in m'.threads && Holds(m'.threads[tid], t) ensures t.gen < m'.cur.s.gen {
      OpenHasNoTickets(cfg, m', tid, t);
    }
  }

  /** In every reachable half-open state the slots handed out are the outstanding probes plus the successes
      recorded in this generation, at most maxProbes; so releasing one never underflows. */
  lemma HalfOpenAccounting(cfg: Config, acts: seq<Action>)
    requires cfg.Valid() && Run(cfg, acts).cur.s.state == HalfOpen
    ensures var m := Run(cfg, acts);
            && m.cur.s.probes == |Outstanding(m, m.cur.s.gen)| + Wins(m.settled, m.cur.s.gen)
            && 0 <= m.cur.s.probes <= cfg.maxProbes
            && forall tid :: At(m, tid).ProbeTimed? && At(m, tid).c == m.cur && At(m, tid).o == Ignored ==>
                 Next(cfg, m, Go(tid)).cur.s.probes == m.cur.s.probes - 1 >= 0
  {
    var m := Run(cfg, acts);
    Reachable(cfg, acts);
    forall tid | At(m, tid).ProbeTimed? && At(m, tid).c == m.cur && At(m, tid).o == Ignored
      ensures m.cur.s.probes >= 1
    {
      OutstandingAfter(m, Next(cfg, m, Go(tid)), tid, Idle, m.cur.s.gen);
    }
  }

  lemma ClosingStep(cfg: Config, m: Machine, act: Action)
    requires cfg.Valid() && Inv(cfg, m) && m.cur.s.state == HalfOpen && Next(cfg, m, act).cur.s.state == Closed
    ensures act.Go? && At(m, act.tid).ProbeTimed? && At(m, act.tid).c == m.cur && At(m, act.tid).t == Ticket(m.cur.s.gen, true)
    ensures At(m, act.tid).o == Success && m.cur.s.successes + 1 >= cfg.maxProbes
  {
    hide WindowFits, Balanced, Proves, Tripped, RingSum, Added;
    if act.Go? { FitsAt(cfg, m, act.tid); }
  }

  /** Half-open to closed needs exactly maxProbes successes of that generation, and leaves no probe of it outstanding. */
  lemma ClosesOnAllProbes(cfg: Config, acts: seq<Action>, act: Action)
    requires cfg.Valid()
    requires Run(cfg, acts).cur.s.state == HalfOpen && Next(cfg, Run(cfg, acts), act).cur.s.state == Closed
    ensures var m, m' := Run(cfg, acts), Next(cfg, Run(cfg, acts), act);
            Wins(m'.settled, m.cur.s.gen) == cfg.maxProbes && Outstanding(m', m.cur.s.gen) == {}
  {
    hide Run, Outstanding, PcFits, WindowFits;
    var m, m' := Run(cfg, acts), Next(cfg, Run(cfg, acts), act);
    Reachable(cfg, acts);
    ClosingStep(cfg, m, act);
    assert m'.settled[..|m.settled|] == m.settled;
    OutstandingAfter(m, m', act.tid, Idle, m.cur.s.gen);
  }

  /** Two steps of `allow` on an unchanged half-open snapshot with a free slot. */
  lemma ProbeAdmitted(cfg: Config, m: Machine, tid: Tid)
    requires cfg.Valid() && At(m, tid).Idle? && m.cur.s.state == HalfOpen && m.cur.s.probes < cfg.maxProbes
    ensures At(Next(cfg, Next(cfg, Next(cfg, m, CallAllow(tid)), Go(tid)), Go(tid)), tid) == Holding(Ticket(m.cur.s.gen, true))
  {
    var m1 := Next(cfg, m, CallAllow(tid));
    var m2 := Next(cfg, m1, Go(tid));
    assert At(m2, tid) == AllowLoaded(m.cur) && m2.cur == m.cur;
  }

  /** No wedge: half-open with no probe outstanding, the next call of `allow` gets a probe. */
  lemma NoWedge(cfg: Config, acts: seq<Action>, tid: Tid)
    requires cfg.Valid() && Run(cfg, acts).cur.s.state == HalfOpen
    requires Outstanding(Run(cfg, acts), Run(cfg, acts).cur.s.gen) == {} && At(Run(cfg, acts), tid).Idle?
    ensures At(Run(cfg, acts + [CallAllow(tid), Go(tid), Go(tid)]), tid) == Holding(Ticket(Run(cfg, acts).cur.s.gen, true))
  {
    hide Next, Run, Outstanding, PcFits, WindowFits;
    Reachable(cfg, acts);
    var steps := [CallAllow(tid), Go(tid), Go(tid)];
    assert steps[..2][..1] == [CallAllow(tid)] && steps[..2] == [CallAllow(tid), Go(tid)];
    assert acts + [CallAllow(tid)][..0] == acts;
    Extend(cfg, acts, steps);
    Extend(cfg, acts, steps[..2]);
    Extend(cfg, acts, [CallAllow(tid)]);
    ProbeAdmitted(cfg, Run(cfg, acts), tid);
  }

  /** Closed, a call of `allow` is always admitted, in the generation of the snapshot. */
  lemma ClosedAdmits(cfg: Config, m: Machine, tid: Tid)
    requires cfg.slot >= 1 && At(m, tid).Idle? && m.cur.s.state == Closed
    ensures At(Next(cfg, Next(cfg, Next(cfg, m, CallAllow(tid)), Go(tid)), Go(tid)), tid) == Holding(Ticket(m.cur.s.gen, false))
  {
    var m1 := Next(cfg, m, CallAllow(tid));
    var m2 := Next(cfg, m1, Go(tid));
    assert At(m2, tid) == AllowLoaded(m.cur) && m2.cur == m.cur;
  }

  /** Open for openTimeout or longer, an undisturbed call of `allow` moves on to half-open and holds its first probe. */
  lemma OpenAdmitsAfterTimeout(cfg: Config, m: Machine, tid: Tid)
    requires cfg.slot >= 1 && At(m, tid).Idle? && m.cur.s.state == Open && m.clock >= m.cur.s.openedAt + cfg.openTimeout
    ensures var m' := Next(cfg, Next(cfg, Next(cfg, Next(cfg, m, CallAllow(tid)), Go(tid)), Go(tid)), Go(tid));
            && m'.cur.s.state == HalfOpen && m'.cur.s.gen == m.cur.s.gen + 1 && m'.cur.s.probes == 1
            && At(m', tid) == Holding(Ticket(m.cur.s.gen + 1, true))
  {
    var m1 := Next(cfg, m, CallAllow(tid));
    var m2 := Next(cfg, m1, Go(tid));
    assert At(m2, tid) == AllowLoaded(m.cur) && m2.cur == m.cur && m2.clock == m.clock;
    var m3 := Next(cfg, m2, Go(tid));
    assert At(m3, tid) == AllowTimed(m.cur, m.clock) && m3.cur == m.cur;
  }

  /** A probe that fails, undisturbed, opens the breaker again, at the time its result was taken in; one that succeeds
      counts, or closes the breaker; one that is ignored gives its slot back. */
  lemma ProbeSettles(cfg: Config, m: Machine, tid: Tid, t: Ticket, o: Outcome)
    requires cfg.slot >= 1 && At(m, tid) == Recording(t, o) && t.probe && m.cur.s.state == HalfOpen && m.cur.s.gen == t.gen
    ensures var s, s' := m.cur.s, Next(cfg, Next(cfg, Next(cfg, m, Go(tid)), Go(tid)), Go(tid)).cur.s;
            match o
            case Failure => s'.state == Open && s'.gen == s.gen + 1 && s'.openedAt == m.clock
            case Ignored => s' == s.(probes := s.probes - 1)
            case Success => if s.successes + 1 >= cfg.maxProbes then s'.state == Closed && s'.gen == s.gen + 1
                            else s' == s.(successes := s.successes + 1)
  {
    var m1 := Next(cfg, m, Go(tid));
    assert At(m1, tid) == ProbeLoaded(t, o, m.cur) && m1.cur == m.cur && m1.clock == m.clock;
    var m2 := Next(cfg, m1, Go(tid));
    assert At(m2, tid) == ProbeTimed(t, o, m.cur, m.clock) && m2.cur == m.cur;
  }

  /** A result, undisturbed, of the closed snapshot's own generation is counted, at the time it is taken in. */
  lemma ResultIsCounted(cfg: Config, m: Machine, tid: Tid, t: Ticket, o: Outcome)
    requires cfg.slot >= 1 && At(m, tid) == Recording(t, o) && !t.probe && o != Ignored && m.cur.s.state == Closed && m.cur.s.gen == t.gen
    ensures var m' := Next(cfg, Next(cfg, Next(cfg, m, Go(tid)), Go(tid)), Go(tid));
            m'.winGen == t.gen && m'.counted == (if m.winGen == t.gen then m.counted else []) + [Counted(t.gen, m.clock, o)]
  {
    hide Tripped, RingSum, Added;
    var m1 := Next(cfg, m, Go(tid));
    assert At(m1, tid) == ResultLoaded(t, o, m.cur) && m1 == Put(m, tid, ResultLoaded(t, o, m.cur));
    var m2 := Next(cfg, m1, Go(tid));
    assert m2 == Put(m1, tid, ResultTimed(t, o, m.cur, m.clock));
  }

  /** An undisturbed count opens the breaker exactly when it is of a failure and the window then meets both thresholds. */
  lemma CountThenTrip(cfg: Config, m: Machine, tid: Tid)
    requires cfg.slot >= 1 && At(m, tid).ResultTimed? && At(m, tid).c == m.cur && m.cur.s.state == Closed
    ensures var pc, m1 := At(m, tid), Next(cfg, m, Go(tid));
            var m2 := Next(cfg, m1, Go(tid));
            var seen := RingSum(m1.ring, pc.now / cfg.slot, SLOTS);
            m2.cur.s == if pc.o == Failure && seen.a >= cfg.minRequests && seen.b as real >= cfg.ratio * seen.a as real
                        then Snapshot(Open, m.cur.s.gen + 1, 0, 0, pc.now) else m.cur.s
  {
    hide RingSum, Added;
    var m1 := Next(cfg, m, Go(tid));
    assert m1.cur == m.cur && (At(m1, tid).Idle? || At(m1, tid) == Tripping(m.cur, At(m, tid).now, m1.counted));
  }
}
