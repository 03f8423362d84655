/**
Every run of a consumer group: any number of members of libs/kafka/consumer.go, joining,
polling, processing, committing, closing and crashing, over one broker.

The driver's contract is the environment: group callbacks run only inside Poll or Close; a
poll returns each owned partition's records in order from its position, and whatever it
returns for others is skipped; a partition is given to a member only when no other owns it;
a commit is settled when it returns, and one that failed may still have applied to some of
the partitions it named. Partition logs may have gaps (compaction).
*/
module ConsumerGroup {
  import opened Consumer

  type Mid = nat

  /** The topic: the records each partition will ever hold, and the position a group starts from. */
  datatype Topic = Topic(records: iset<Record>, base: Partition -> nat)

  /** Where a member's loop is: in Poll (or about to), in processBatch, about to commit the batch, or in Close. */
  datatype Phase = Polling | Processing | Committing(stop: bool) | Closing

  datatype MemberState = MemberState(owned: set<Partition>, pending: map<Partition, nat>, batch: seq<Record>, phase: Phase)

  datatype Machine = Machine(
    positions: map<Partition, nat>,               // committed positions; a partition without one is at its base
    members: map<Mid, MemberState>,
    accepted: set<Record>)                        // records a handler accepted or the dead-letter topic took

  /** How a commit settles: with ok everything applied, without it the partitions in `applied`. */
  datatype Settled = Settled(ok: bool, applied: set<Partition>)

  datatype Action =
    | Join(mid: Mid) | Crash(mid: Mid)
    | Assign(mid: Mid, tp: Partition)
    | Revoke(mid: Mid, parts: set<Partition>, all: bool, s: Settled)
    | Lose(mid: Mid, parts: set<Partition>)
    | Deliver(mid: Mid, batch: seq<Record>)
    | Finish(mid: Mid) | Skip(mid: Mid)           // the next record of the batch is done, or is not owned
    | Stop(mid: Mid)                              // the batch ends: all done, draining, or a record that is stuck
    | CommitBatch(mid: Mid, s: Settled)
    | Leave(mid: Mid)                             // Close has revoked everything

  function Position(t: Topic, m: Machine, tp: Partition): nat {
    if tp in m.positions then m.positions[tp] else t.base(tp)
  }

  function Set(m: Machine, mid: Mid, s: MemberState): Machine { m.(members := m.members[mid := s]) }

  /** The broker after a commit. */
  function Applied(m: Machine, offsets: map<Partition, nat>, s: Settled): map<Partition, nat> {
    m.positions + map tp | tp in offsets && (s.ok || tp in s.applied) :: offsets[tp]
  }

  /** The next offset of an owned partition this member is to process. */
  function NextOffset(t: Topic, m: Machine, s: MemberState, tp: Partition): nat {
    if tp in s.pending then s.pending[tp] + 1 else Position(t, m, tp)
  }

  /** The records of `tp` in `batch` are its records from `n` on, in order, none left out. */
  ghost predicate InOrder(t: Topic, batch: seq<Record>, tp: Partition, n: nat)
    decreases |batch|
  {
    batch == [] ||
    (var r := batch[0];
     if r.tp != tp then InOrder(t, batch[1..], tp, n)
     else
       && r in t.records && r.off >= n
       && (forall o :: n <= o < r.off ==> Record(tp, o) !in t.records)
       && InOrder(t, batch[1..], tp, r.off + 1))
  }

  ghost predicate Unowned(m: Machine, tp: Partition) {
    forall mid :: mid in m.members ==> tp !in m.members[mid].owned
  }

  predicate InDriver(s: MemberState) { s.phase.Polling? || s.phase.Closing? }

  function Revoked(m: Machine, mid: Mid, parts: set<Partition>, all: bool, s: Settled): Machine
    requires mid in m.members
  {
    var c := m.members[mid];
    var only := if all then None else Some(parts);
    Set(m.(positions := Applied(m, Offsets(c.pending, c.owned, only), s)), mid,
        c.(pending := AfterCommit(c.pending, c.owned, only, s.ok) - parts, owned := c.owned - parts))
  }

  function Finished(m: Machine, mid: Mid): Machine
    requires mid in m.members && m.members[mid].batch != []
  {
    var c := m.members[mid];
    var r := c.batch[0];
    Set(m.(accepted := m.accepted + {r}), mid, c.(pending := c.pending[r.tp := r.off], batch := c.batch[1..]))
  }

  function BatchCommitted(m: Machine, mid: Mid, s: Settled): Machine
    requires mid in m.members && m.members[mid].phase.Committing?
  {
    var c := m.members[mid];
    Set(m.(positions := Applied(m, Offsets(c.pending, c.owned, None), s)), mid,
        c.(pending := AfterCommit(c.pending, c.owned, None, s.ok), phase := if c.phase.stop then Closing else Polling))
  }

  /** One step; an action that is not enabled changes nothing. */
  ghost function Next(t: Topic, m: Machine, act: Action): Machine {
    var mid := act.mid;
    if act.Join? then
      if mid in m.members then m else Set(m, mid, MemberState({}, map[], [], Polling))
    else if mid !in m.members then m
    else
      var c := m.members[mid];
      match act
      case Join(_) => m
      case Crash(_) => m.(members := m.members - {mid})
      case Assign(_, tp) =>
        if c.phase.Polling? && Unowned(m, tp) then Set(m, mid, c.(owned := c.owned + {tp})) else m
      case Revoke(_, parts, all, s) =>
        if InDriver(c) && (all ==> parts == {}) then Revoked(m, mid, parts, all, s) else m
      case Lose(_, parts) =>
        if InDriver(c) then Set(m, mid, c.(pending := c.pending - parts, owned := c.owned - parts)) else m
      case Deliver(_, batch) =>
        if c.phase.Polling? && (forall tp :: tp in c.owned ==> InOrder(t, batch, tp, NextOffset(t, m, c, tp)))
        then Set(m, mid, c.(batch := batch, phase := Processing)) else m
      case Finish(_) =>
        if c.phase.Processing? && c.batch != [] && c.batch[0].tp in c.owned then Finished(m, mid) else m
      case Skip(_) =>
        if c.phase.Processing? && c.batch != [] && c.batch[0].tp !in c.owned
        then Set(m, mid, c.(batch := c.batch[1..])) else m
      case Stop(_) =>
        if c.phase.Processing? then Set(m, mid, c.(batch := [], phase := Committing(c.batch != []))) else m
      case CommitBatch(_, s) => if c.phase.Committing? then BatchCommitted(m, mid, s) else m
      case Leave(_) => if InDriver(c) && c.owned == {} then m.(members := m.members - {mid}) else m
  }

  const START := Machine(map[], map[], {})

  ghost function Run(t: Topic, acts: seq<Action>): Machine {
    if acts == [] then START else Next(t, Run(t, acts[..|acts| - 1]), acts[|acts| - 1])
  }

  // ------------------------------------------------------------ invariant

  /** Every record of `tp` below `n`, from the base on, was accepted. */
  ghost predicate DoneBelow(t: Topic, m: Machine, tp: Partition, n: nat) {
    forall r :: r in t.records && r.tp == tp && t.base(tp) <= r.off < n ==> r in m.accepted
  }

  ghost predicate MemberFits(t: Topic, m: Machine, c: MemberState) {
    && c.pending.Keys <= c.owned
    && (forall tp :: tp in c.pending ==> Position(t, m, tp) <= c.pending[tp] + 1 && DoneBelow(t, m, tp, c.pending[tp] + 1))
    && (c.phase.Processing? ==> forall tp :: tp in c.owned ==> InOrder(t, c.batch, tp, NextOffset(t, m, c, tp)))
  }

  ghost predicate OwnedOnce(m: Machine) {
    forall i, j, tp :: i in m.members && j in m.members && tp in m.members[i].owned && tp in m.members[j].owned ==> i == j
  }

  ghost predicate Inv(t: Topic, m: Machine) {
    && OwnedOnce(m)
    && (forall tp :: t.base(tp) <= Position(t, m, tp) && DoneBelow(t, m, tp, Position(t, m, tp)))
    && (forall mid :: mid in m.members ==> MemberFits(t, m, m.members[mid]))
  }

  // ------------------------------------------------------------ preservation

  /** A step of `mid` that leaves the broker and the accepted records alone. */
  lemma LocalStep(t: Topic, m: Machine, mid: Mid, c: MemberState)
    requires Inv(t, m) && MemberFits(t, m, c)
    requires mid in m.members ==> c.owned <= m.members[mid].owned
    requires mid !in m.members ==> c.owned == {}
    ensures Inv(t, Set(m, mid, c))
  {
    var m' := Set(m, mid, c);
    forall k | k in m'.members ensures MemberFits(t, m', m'.members[k]) {
      assert MemberFits(t, m, m'.members[k]);
      SameBroker(t, m, m', m'.members[k]);
    }
  }

  lemma SameBroker(t: Topic, m: Machine, m': Machine, c: MemberState)
    requires MemberFits(t, m, c) && m'.positions == m.positions && m'.accepted == m.accepted
    ensures MemberFits(t, m', c)
  {
  }

  /** A commit of a member's own pending offsets: positions move forward, over accepted records only. */
  lemma CommitMovesForward(t: Topic, m: Machine, c: MemberState, only: Option<set<Partition>>, s: Settled)
    requires Inv(t, m) && MemberFits(t, m, c)
    ensures var m' := m.(positions := Applied(m, Offsets(c.pending, c.owned, only), s));
            && (forall tp :: Position(t, m, tp) <= Position(t, m', tp) && DoneBelow(t, m', tp, Position(t, m', tp)))
            && (forall tp :: tp !in c.owned ==> Position(t, m', tp) == Position(t, m, tp))
            && (forall tp :: tp in c.owned ==> Position(t, m', tp) == Position(t, m, tp) || (tp in c.pending && Position(t, m', tp) == c.pending[tp] + 1))
            && (forall tp :: tp in c.pending && s.ok && (only.None? || tp in only.value) ==> Position(t, m', tp) == c.pending[tp] + 1)
  {
  }

  /** A member that owns none of the partitions whose position moved is not affected. */
  lemma OthersFit(t: Topic, m: Machine, m': Machine, c: MemberState)
    requires MemberFits(t, m, c) && m.accepted <= m'.accepted
    requires forall tp :: tp in c.owned ==> Position(t, m', tp) == Position(t, m, tp)
    ensures MemberFits(t, m', c)
  {
    forall tp | tp in c.owned && c.phase.Processing? ensures InOrder(t, c.batch, tp, NextOffset(t, m', c, tp)) {
      assert NextOffset(t, m', c, tp) == NextOffset(t, m, c, tp);
    }
  }

  /** A member that has committed, and keeps at most what it had, fits the broker after the commit. */
  lemma CommitterFits(t: Topic, m: Machine, m': Machine, c: MemberState, c': MemberState, only: Option<set<Partition>>, s: Settled)
    requires Inv(t, m) && MemberFits(t, m, c) && !c'.phase.Processing?
    requires m'.positions == Applied(m, Offsets(c.pending, c.owned, only), s) && m'.accepted == m.accepted
    requires c'.owned <= c.owned && c'.pending.Keys <= c'.owned
    requires forall tp :: tp in c'.pending ==> tp in c.pending && c'.pending[tp] == c.pending[tp]
    ensures MemberFits(t, m', c')
  {
    forall tp | tp in c'.pending
      ensures Position(t, m', tp) <= c'.pending[tp] + 1 && DoneBelow(t, m', tp, c'.pending[tp] + 1)
    {
      assert Position(t, m, tp) <= c.pending[tp] + 1 && DoneBelow(t, m, tp, c.pending[tp] + 1);
    }
  }

  /** One member commits and keeps at most what it had: the group still fits. */
  lemma CommitKeeps(t: Topic, m: Machine, mid: Mid, c': MemberState, only: Option<set<Partition>>, s: Settled)
    requires Inv(t, m) && mid in m.members && !c'.phase.Processing?
    requires c'.owned <= m.members[mid].owned && c'.pending.Keys <= c'.owned
    requires forall tp :: tp in c'.pending ==> tp in m.members[mid].pending && c'.pending[tp] == m.members[mid].pending[tp]
    ensures Inv(t, Set(m.(positions := Applied(m, Offsets(m.members[mid].pending, m.members[mid].owned, only), s)), mid, c'))
  {
    hide Applied, Offsets, DoneBelow, InOrder;
    var c := m.members[mid];
    var m1 := m.(positions := Applied(m, Offsets(c.pending, c.owned, only), s));
    var m' := Set(m1, mid, c');
    CommitMovesForward(t, m, c, only, s);
    CommitterFits(t, m, m', c, c', only, s);
    forall k | k in m'.members && k != mid ensures MemberFits(t, m', m'.members[k]) { OthersFit(t, m, m', m.members[k]); }
    forall tp ensures t.base(tp) <= Position(t, m', tp) && DoneBelow(t, m', tp, Position(t, m', tp)) {
      SameDone(t, m1, m', tp, Position(t, m1, tp));
      assert Position(t, m', tp) == Position(t, m1, tp);
    }
  }

  lemma SameDone(t: Topic, m: Machine, m': Machine, tp: Partition, n: nat)
    requires DoneBelow(t, m, tp, n) && m.accepted <= m'.accepted
    ensures DoneBelow(t, m', tp, n)
  {
  }

  lemma RevokeKeeps(t: Topic, m: Machine, mid: Mid, parts: set<Partition>, all: bool, s: Settled)
    requires Inv(t, m) && mid in m.members && InDriver(m.members[mid])
    ensures Inv(t, Revoked(m, mid, parts, all, s))
  {
    hide Inv, Applied, Offsets;
    var c, only := m.members[mid], if all then None else Some(parts);
    assert MemberFits(t, m, c) by { EachFits(t, m, mid); }
    CommitKeeps(t, m, mid, c.(pending := AfterCommit(c.pending, c.owned, only, s.ok) - parts, owned := c.owned - parts), only, s);
  }

  lemma EachFits(t: Topic, m: Machine, mid: Mid)
    requires Inv(t, m) && mid in m.members
    ensures MemberFits(t, m, m.members[mid])
  {
  }

  lemma BatchCommitKeeps(t: Topic, m: Machine, mid: Mid, s: Settled)
    requires Inv(t, m) && mid in m.members && m.members[mid].phase.Committing?
    ensures Inv(t, BatchCommitted(m, mid, s))
  {
    hide Inv, Applied, Offsets;
    var c := m.members[mid];
    assert MemberFits(t, m, c) by { EachFits(t, m, mid); }
    CommitKeeps(t, m, mid, c.(pending := AfterCommit(c.pending, c.owned, None, s.ok), phase := if c.phase.stop then Closing else Polling), None, s);
  }

  /** The next record of a batch done, its partition is done up to and including it. */
  lemma DoneWithRecord(t: Topic, m: Machine, c: MemberState, r: Record)
    requires Inv(t, m) && MemberFits(t, m, c) && c.phase.Processing? && c.batch != [] && r == c.batch[0] && r.tp in c.owned
    ensures DoneBelow(t, m.(accepted := m.accepted + {r}), r.tp, r.off + 1) && NextOffset(t, m, c, r.tp) <= r.off
  {
    assert InOrder(t, c.batch, r.tp, NextOffset(t, m, c, r.tp));
    assert DoneBelow(t, m, r.tp, NextOffset(t, m, c, r.tp));
    forall q | q in t.records && q.tp == r.tp && t.base(r.tp) <= q.off < r.off + 1 ensures q in m.accepted + {r} {
      assert q == Record(q.tp, q.off);
    }
  }

  /** And the rest of the batch goes on from there. */
  lemma RestInOrder(t: Topic, m: Machine, c: MemberState, c': MemberState, tp: Partition)
    requires c.batch != [] && InOrder(t, c.batch, tp, NextOffset(t, m, c, tp))
    requires (c' == c.(batch := c.batch[1..]) && c.batch[0].tp != tp)
             || c' == c.(pending := c.pending[c.batch[0].tp := c.batch[0].off], batch := c.batch[1..])
    ensures InOrder(t, c'.batch, tp, NextOffset(t, m, c', tp))
  {
  }

  lemma FinisherFits(t: Topic, m: Machine, mid: Mid)
    requires Inv(t, m) && mid in m.members && m.members[mid].phase.Processing?
    requires m.members[mid].batch != [] && m.members[mid].batch[0].tp in m.members[mid].owned
    ensures MemberFits(t, Finished(m, mid), Finished(m, mid).members[mid])
  {
    hide InOrder, DoneBelow, Inv;
    var m', c := Finished(m, mid), m.members[mid];
    var r, c' := c.batch[0], m'.members[mid];
    EachFits(t, m, mid);
    DoneWithRecord(t, m, c, r);
    SameDone(t, m.(accepted := m.accepted + {r}), m', r.tp, r.off + 1);
    forall tp | tp in c'.pending && tp != r.tp ensures DoneBelow(t, m', tp, c'.pending[tp] + 1) {
      SameDone(t, m, m', tp, c.pending[tp] + 1);
    }
    forall tp | tp in c'.owned ensures InOrder(t, c'.batch, tp, NextOffset(t, m', c', tp)) {
      RestInOrder(t, m, c, c', tp);
      assert NextOffset(t, m', c', tp) == NextOffset(t, m, c', tp);
    }
  }

  lemma FinishKeeps(t: Topic, m: Machine, mid: Mid)
    requires Inv(t, m) && mid in m.members && m.members[mid].phase.Processing?
    requires m.members[mid].batch != [] && m.members[mid].batch[0].tp in m.members[mid].owned
    ensures Inv(t, Finished(m, mid))
  {
    hide InOrder, DoneBelow, MemberFits;
    var m', c := Finished(m, mid), m.members[mid];
    FinisherFits(t, m, mid);
    forall k | k in m'.members && k != mid ensures MemberFits(t, m', m'.members[k]) { OthersFit(t, m, m', m.members[k]); }
    forall tp ensures DoneBelow(t, m', tp, Position(t, m', tp)) { SameDone(t, m, m', tp, Position(t, m, tp)); }
  }

  lemma SkipKeeps(t: Topic, m: Machine, mid: Mid)
    requires Inv(t, m) && mid in m.members && m.members[mid].phase.Processing?
    requires m.members[mid].batch != [] && m.members[mid].batch[0].tp !in m.members[mid].owned
    ensures Inv(t, Next(t, m, Skip(mid)))
  {
    var c := m.members[mid];
    var c' := c.(batch := c.batch[1..]);
    forall tp | tp in c.owned ensures InOrder(t, c'.batch, tp, NextOffset(t, m, c', tp)) { RestInOrder(t, m, c, c', tp); }
    LocalStep(t, m, mid, c');
  }

  lemma AssignKeeps(t: Topic, m: Machine, mid: Mid, tp: Partition)
    requires Inv(t, m) && mid in m.members && m.members[mid].phase.Polling? && Unowned(m, tp)
    ensures Inv(t, Next(t, m, Assign(mid, tp)))
  {
    var m' := Next(t, m, Assign(mid, tp));
    forall k | k in m'.members ensures MemberFits(t, m', m'.members[k]) {
      assert MemberFits(t, m, m.members[k]);
      if k != mid { SameBroker(t, m, m', m.members[k]); }
    }
  }

  lemma GoneKeeps(t: Topic, m: Machine, mid: Mid)
    requires Inv(t, m)
    ensures Inv(t, m.(members := m.members - {mid}))
  {
    var m' := m.(members := m.members - {mid});
    forall k | k in m'.members ensures MemberFits(t, m', m'.members[k]) { SameBroker(t, m, m', m.members[k]); }
  }

  lemma JoinKeeps(t: Topic, m: Machine, mid: Mid)
    requires Inv(t, m) && mid !in m.members
    ensures Inv(t, Set(m, mid, MemberState({}, map[], [], Polling)))
  {
    LocalStep(t, m, mid, MemberState({}, map[], [], Polling));
  }

  lemma LoseKeeps(t: Topic, m: Machine, mid: Mid, parts: set<Partition>)
    requires Inv(t, m) && mid in m.members && InDriver(m.members[mid])
    ensures Inv(t, Next(t, m, Lose(mid, parts)))
  {
    var c := m.members[mid];
    EachFits(t, m, mid);
    LocalStep(t, m, mid, c.(pending := c.pending - parts, owned := c.owned - parts));
  }

  lemma DeliverKeeps(t: Topic, m: Machine, mid: Mid, batch: seq<Record>)
    requires Inv(t, m) && mid in m.members
    ensures Inv(t, Next(t, m, Deliver(mid, batch)))
  {
    var c := m.members[mid];
    EachFits(t, m, mid);
    if c.phase.Polling? && (forall tp :: tp in c.owned ==> InOrder(t, batch, tp, NextOffset(t, m, c, tp))) {
      LocalStep(t, m, mid, c.(batch := batch, phase := Processing));
    }
  }

  lemma StopKeeps(t: Topic, m: Machine, mid: Mid)
    requires Inv(t, m) && mid in m.members && m.members[mid].phase.Processing?
    ensures Inv(t, Next(t, m, Stop(mid)))
  {
    var c := m.members[mid];
    EachFits(t, m, mid);
    LocalStep(t, m, mid, c.(batch := [], phase := Committing(c.batch != [])));
  }

  lemma StepKeeps(t: Topic, m: Machine, act: Action)
    requires Inv(t, m)
    ensures Inv(t, Next(t, m, act))
  {
    hide Inv, MemberFits, InOrder, Finished, Revoked, BatchCommitted, Set;
    var mid := act.mid;
    if act.Join? {
      if mid !in m.members { JoinKeeps(t, m, mid); }
    } else if mid in m.members && Next(t, m, act) != m {
      var c := m.members[mid];
      match act
      case Crash(_) => GoneKeeps(t, m, mid);
      case Leave(_) => GoneKeeps(t, m, mid);
      case Assign(_, tp) => AssignKeeps(t, m, mid, tp);
      case Revoke(_, parts, all, s) => RevokeKeeps(t, m, mid, parts, all, s);
      case Lose(_, parts) => LoseKeeps(t, m, mid, parts);
      case Deliver(_, batch) => DeliverKeeps(t, m, mid, batch);
      case Finish(_) => FinishKeeps(t, m, mid);
      case Skip(_) => SkipKeeps(t, m, mid);
      case Stop(_) => StopKeeps(t, m, mid);
      case CommitBatch(_, s) => BatchCommitKeeps(t, m, mid, s);
    }
  }

  lemma {:induction false} Reachable(t: Topic, acts: seq<Action>)
    ensures Inv(t, Run(t, acts))
  {
    hide Next;
    if acts != [] {
      Reachable(t, acts[..|acts| - 1]);
      StepKeeps(t, Run(t, acts[..|acts| - 1]), acts[|acts| - 1]);
    }
  }

  // ------------------------------------------------------------ over every run

  /** No record is ever skipped: each one below a partition's committed position was accepted by a handler or parked. */
  lemma NoRecordSkipped(t: Topic, acts: seq<Action>, r: Record)
    requires r in t.records && t.base(r.tp) <= r.off < Position(t, Run(t, acts), r.tp)
    ensures r in Run(t, acts).accepted
  {
    Reachable(t, acts);
  }

  lemma StepMovesForward(t: Topic, m: Machine, act: Action, tp: Partition)
    requires Inv(t, m)
    ensures Position(t, m, tp) <= Position(t, Next(t, m, act), tp)
  {
    if act.mid in m.members {
      var c := m.members[act.mid];
      assert MemberFits(t, m, c);
      if act.Revoke? { CommitMovesForward(t, m, c, if act.all then None else Some(act.parts), act.s); }
      if act.CommitBatch? { CommitMovesForward(t, m, c, None, act.s); }
    }
  }

  /** A partition's committed position never moves back, whichever members commit, revoke, lose or crash. */
  lemma {:induction false} PositionNeverMovesBack(t: Topic, acts: seq<Action>, more: seq<Action>, tp: Partition)
    ensures Position(t, Run(t, acts), tp) <= Position(t, Run(t, acts + more), tp)
  {
    hide Next, Inv;
    if more == [] {
      assert acts + more == acts;
    } else {
      var init := more[..|more| - 1];
      PositionNeverMovesBack(t, acts, init, tp);
      Reachable(t, acts + init);
      StepMovesForward(t, Run(t, acts + init), more[|more| - 1], tp);
      assert (acts + more)[..|acts + more| - 1] == acts + init;
    }
  }

  /** In every reachable state pending offsets are of owned partitions, each owned by one member, and no step of a
      member moves the position of a partition it does not own. */
  lemma CommitsOnlyOwned(t: Topic, acts: seq<Action>, mid: Mid)
    requires mid in Run(t, acts).members
    ensures Run(t, acts).members[mid].pending.Keys <= Run(t, acts).members[mid].owned
    ensures OwnedOnce(Run(t, acts))
    ensures forall act: Action, tp :: act.mid == mid && tp !in Run(t, acts).members[mid].owned ==>
              Position(t, Next(t, Run(t, acts), act), tp) == Position(t, Run(t, acts), tp)
  {
    var m := Run(t, acts);
    Reachable(t, acts);
    assert MemberFits(t, m, m.members[mid]);
  }

  /** A commit that the broker answers lands: after a batch, everything pending is the committed position and nothing is
      pending any more; on a revoke, the same of the revoked partitions, which are then owned by nobody here. */
  lemma CommitLands(t: Topic, acts: seq<Action>, mid: Mid, parts: set<Partition>, applied: set<Partition>)
    requires mid in Run(t, acts).members
    ensures var m, c := Run(t, acts), Run(t, acts).members[mid];
            var m' := Next(t, m, CommitBatch(mid, Settled(true, applied)));
            c.phase.Committing? ==>
              && mid in m'.members && m'.members[mid].pending == map[] && m'.members[mid].owned == c.owned
              && forall tp :: tp in c.pending ==> Position(t, m', tp) == c.pending[tp] + 1
    ensures var m, c := Run(t, acts), Run(t, acts).members[mid];
            var m' := Next(t, m, Revoke(mid, parts, false, Settled(true, applied)));
            c.phase.Polling? || c.phase.Closing? ==>
              && mid in m'.members && m'.members[mid].owned == c.owned - parts
              && forall tp :: tp in c.pending && tp in parts ==> Position(t, m', tp) == c.pending[tp] + 1 && tp !in m'.members[mid].pending
  {
    hide DoneBelow, InOrder;
    var m := Run(t, acts);
    Reachable(t, acts);
    EachFits(t, m, mid);
  }

  // ------------------------------------------------------------ the loop's batch, step by step

  ghost function RunFrom(t: Topic, m: Machine, acts: seq<Action>): Machine {
    if acts == [] then m else Next(t, RunFrom(t, m, acts[..|acts| - 1]), acts[|acts| - 1])
  }

  /** The steps of a member whose records fare as `fates` says. */
  function Steps(mid: Mid, fates: seq<Fate>): seq<Action> {
    seq(|fates|, i requires 0 <= i < |fates| => if fates[i].Skipped? then Skip(mid) else Finish(mid))
  }

  lemma OneRecord(t: Topic, m: Machine, mid: Mid, fate: Fate)
    requires mid in m.members && m.members[mid].phase.Processing? && m.members[mid].batch != [] && (fate.Skipped? || IsDone(fate))
    requires fate.Skipped? <==> m.members[mid].batch[0].tp !in m.members[mid].owned
    ensures var m', c := Next(t, m, if fate.Skipped? then Skip(mid) else Finish(mid)), m.members[mid];
            && m'.members == m.members[mid := c.(pending := if IsDone(fate) then c.pending[c.batch[0].tp := c.batch[0].off] else c.pending, batch := c.batch[1..])]
            && m'.accepted == m.accepted + (if IsDone(fate) then {c.batch[0]} else {})
  {
  }

  /** The finished ones of the first `n` records. */
  function DoneRecords(records: seq<Record>, fates: seq<Fate>, n: nat): set<Record>
    requires n <= |records| && n <= |fates|
  {
    set i | 0 <= i < n && IsDone(fates[i]) :: records[i]
  }

  lemma OneMoreDone(records: seq<Record>, fates: seq<Fate>, n: nat)
    requires 0 < n <= |records| && n <= |fates|
    ensures DoneRecords(records, fates, n) == DoneRecords(records, fates, n - 1) + if IsDone(fates[n - 1]) then {records[n - 1]} else {}
  {
  }

  /** A batch of `Member.ProcessBatch` is a run of this machine: record by record it marks, and takes off the batch, the same. */
  lemma {:induction false} BatchIsARun(t: Topic, m: Machine, mid: Mid, records: seq<Record>, fates: seq<Fate>, n: nat)
    requires mid in m.members && m.members[mid].phase.Processing? && m.members[mid].batch == records
    requires n <= |fates| <= |records|
    requires forall i :: 0 <= i < n ==> fates[i].Skipped? || IsDone(fates[i])
    requires forall i :: 0 <= i < n ==> (fates[i].Skipped? <==> records[i].tp !in m.members[mid].owned)
    ensures var m' := RunFrom(t, m, Steps(mid, fates[..n]));
            && mid in m'.members
            && m'.members[mid] == m.members[mid].(pending := Marked(m.members[mid].pending, records, fates, n), batch := records[n..])
            && m'.accepted == m.accepted + DoneRecords(records, fates, n)
  {
    hide Next, DoneRecords;
    if n == 0 {
      NoneDone(records, fates);
    } else {
      BatchIsARun(t, m, mid, records, fates, n - 1);
      var steps := Steps(mid, fates[..n]);
      assert steps[..n - 1] == Steps(mid, fates[..n - 1]);
      assert records[n - 1..][1..] == records[n..];
      OneRecord(t, RunFrom(t, m, steps[..n - 1]), mid, fates[n - 1]);
      OneMoreDone(records, fates, n);
    }
  }

  lemma NoneDone(records: seq<Record>, fates: seq<Fate>)
    ensures DoneRecords(records, fates, 0) == {}
  {
  }

  /** A handler accepted the record, or the dead-letter topic took it. */
  ghost predicate TookIt(run: Consumer.Run, dlqEnabled: bool, maxRetries: nat) {
    || (exists a: nat :: AcceptsAt(run.handler, maxRetries, a))
    || (dlqEnabled && exists n: nat :: TakenAt(run.deadLetter, maxRetries, n))
  }

  /** The records that a batch of `Member.ProcessBatch` adds to the accepted ones are those whose replies say so. */
  lemma AcceptedByReplies(t: Topic, m: Machine, mid: Mid, records: seq<Record>, runs: seq<Consumer.Run>, fates: seq<Fate>, n: nat,
                          dlqEnabled: bool, maxRetries: nat, r: Record)
    requires mid in m.members && m.members[mid].phase.Processing? && m.members[mid].batch == records
    requires n <= |fates| <= |records| == |runs|
    requires forall i :: 0 <= i < n ==> fates[i].Skipped? || IsDone(fates[i])
    requires forall i :: 0 <= i < n ==> (fates[i].Skipped? <==> records[i].tp !in m.members[mid].owned)
    requires forall i :: 0 <= i < n && records[i].tp in m.members[mid].owned ==>
               Fares(runs[i].handler, runs[i].deadLetter, dlqEnabled, maxRetries, fates[i])
    ensures r in RunFrom(t, m, Steps(mid, fates[..n])).accepted <==>
              || r in m.accepted
              || exists i :: 0 <= i < n && records[i] == r && r.tp in m.members[mid].owned && TookIt(runs[i], dlqEnabled, maxRetries)
  {
    hide RunFrom, AcceptsAt, TakenAt;
    BatchIsARun(t, m, mid, records, fates, n);
    forall i | 0 <= i < n && IsDone(fates[i]) ensures TookIt(runs[i], dlqEnabled, maxRetries) { }
  }
}
