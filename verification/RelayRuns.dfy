/**
Every run of the transactional outbox: transactions of the tasks service that each commit one
event, interleaved with relay passes of any number of replicas.

A transaction takes its task's row lock and its outbox id, and commits or rolls back later,
so ids of different tasks may commit out of order. A pass holds the relay's advisory lock
from its select to the end of its transaction: there is at most one. It publishes record by
record and ends committed, rolled back or crashed, or committed with the reply lost.
*/
module RelayRuns {
  import opened Relay

  type TaskId = nat

  /** The pass that holds the relay lock: its batch, how far it got, and the time its transaction began. */
  datatype Active = Active(batch: seq<Id>, next: nat, p: Pass, began: int)

  datatype Machine = Machine(
    now: int, table: Table, log: seq<Id>,
    nextId: Id, open: map<TaskId, Id>,            // transactions under way: the task locked, the id taken
    taskOf: map<Id, TaskId>, commits: seq<Id>,    // the task of every id, and the committed ids in commit order
    active: Option<Active>,
    acked: set<Id>, refused: set<TaskId>,         // ids ever acknowledged, tasks with an event ever rejected
    counted: multiset<Id>)                        // rejections committed

  datatype Action =
    | Tick(d: nat)
    | Begin(task: TaskId) | Commit(task: TaskId) | Abort(task: TaskId)
    | Select(batch: seq<Id>)
    | PublishNext(v: Verdict)
    | End(how: Ending)

  function CommitTx(m: Machine, task: TaskId): Machine
    requires task in m.open
  {
    var id := m.open[task];
    m.(table := m.table[id := Row(task, 0, None)], commits := m.commits + [id], open := m.open - {task})
  }

  function PublishOne(m: Machine, a: Active, v: Verdict): Machine
    requires a.next < |a.batch|
  {
    var id := a.batch[a.next];
    var p := Publish(a.p, id, v);
    m.(log := p.log, active := Some(a.(next := a.next + 1, p := p)),
       acked := if v.Acked? then m.acked + {id} else m.acked,
       refused := if v.Rejected? && id in m.taskOf then m.refused + {m.taskOf[id]} else m.refused)
  }

  function EndPass(cfg: Config, m: Machine, a: Active, how: Ending): Machine {
    m.(table := Left(cfg, m.table, a.p, a.began, how), active := None,
       counted := if a.p.doomed || how.RolledBack? then m.counted else m.counted + multiset(a.p.rejected))
  }

  /** One step; an action that is not enabled changes nothing. */
  ghost function Next(cfg: Config, m: Machine, act: Action): Machine {
    match act
    case Tick(d) => m.(now := m.now + d)
    case Begin(task) =>
      if task in m.open then m
      else m.(nextId := m.nextId + 1, open := m.open[task := m.nextId], taskOf := m.taskOf[m.nextId := task])
    case Commit(task) => if task in m.open then CommitTx(m, task) else m
    case Abort(task) => m.(open := m.open - {task})
    case Select(batch) =>
      if m.active.None? && IsBatch(cfg, batch, m.table, m.now)
      then m.(active := Some(Active(batch, 0, Pass(m.log, [], [], false, false), m.now))) else m
    case PublishNext(v) =>
      if m.active.Some? && !m.active.value.p.stopped && m.active.value.next < |m.active.value.batch|
      then PublishOne(m, m.active.value, v) else m
    case End(how) => if m.active.Some? then EndPass(cfg, m, m.active.value, how) else m
  }

  const START := Machine(0, map[], [], 0, map[], map[], [], None, {}, {}, multiset{})

  ghost function Run(cfg: Config, acts: seq<Action>): Machine {
    if acts == [] then START else Next(cfg, Run(cfg, acts[..|acts| - 1]), acts[|acts| - 1])
  }

  // ------------------------------------------------------------ invariant

  /** Every appearance of `b` in the topic comes after one of `a`. */
  ghost predicate Precedes(log: seq<Id>, a: Id, b: Id) {
    forall j :: 0 <= j < |log| && log[j] == b ==> a in log[..j]
  }

  ghost predicate IsCommitted(m: Machine, id: Id) { id in m.commits && id in m.taskOf }

  /** Events of one task, none of whose events was ever rejected. */
  ghost predicate SameCleanTask(m: Machine, a: Id, b: Id) {
    a in m.taskOf && b in m.taskOf && m.taskOf[a] == m.taskOf[b] && m.taskOf[b] !in m.refused
  }

  /** `a` was committed before `b`, both for one such task. */
  ghost predicate Earlier(m: Machine, a: Id, b: Id) {
    IsCommitted(m, a) && IsCommitted(m, b) && a < b && SameCleanTask(m, a, b)
  }

  /** Per task, ids are in commit order, and a transaction under way has a larger one. */
  ghost predicate IdsFit(m: Machine) {
    && (forall id :: id in m.taskOf ==> id < m.nextId)
    && (forall id :: id in m.commits ==> id in m.taskOf)
    && (forall t :: t in m.open ==> m.open[t] in m.taskOf && m.taskOf[m.open[t]] == t && m.open[t] !in m.commits)
    && (forall t, id :: t in m.open && id in m.commits && m.taskOf[id] == t ==> id < m.open[t])
    && (forall i, j :: 0 <= i < j < |m.commits| && m.taskOf[m.commits[i]] == m.taskOf[m.commits[j]] ==> m.commits[i] < m.commits[j])
  }

  /** What holds of one id: its row, if it has one, and its way through the topic. */
  ghost predicate RowFits(cfg: Config, m: Machine, id: Id) {
    && (id in m.table ==>
          && id in m.commits && id in m.taskOf && m.table[id].task == m.taskOf[id]
          && (m.table[id].task !in m.refused ==> m.table[id].rejections == 0 && m.table[id].due.None?)
          && m.table[id].rejections == m.counted[id] <= cfg.maxAttempts)
    && (id !in m.table && id !in m.commits ==> m.counted[id] == 0)
    && (id in m.commits ==> id in m.table || id in m.acked)
    && (id in m.acked ==> id in m.log)
    && (id in m.log ==> id in m.commits)
  }

  ghost predicate RowsFit(cfg: Config, m: Machine) { forall id: Id :: RowFits(cfg, m, id) }

  ghost predicate OrderFits(m: Machine) {
    forall a, b :: Earlier(m, a, b) ==> Precedes(m.log, a, b)
  }

  ghost predicate Distinct(s: seq<Id>) { forall i, j :: 0 <= i < j < |s| ==> s[i] != s[j] }

  ghost predicate PassFits(cfg: Config, m: Machine, a: Active) {
    && a.next <= |a.batch| && a.p.log == m.log
    && (forall i, j :: 0 <= i < j < |a.batch| ==> a.batch[i] < a.batch[j])
    && (forall id :: id in a.batch ==> id in m.table && Live(cfg, m.table[id]))
    && (forall id :: id in a.p.done ==> id in a.batch[..a.next] && id in m.acked)
    && (forall id :: id in a.p.rejected ==> id in a.batch[..a.next] && id in m.table && m.table[id].task in m.refused)
    && Distinct(a.p.rejected)
    && (!a.p.stopped ==> forall x, y :: Earlier(m, x, y) && y in a.batch[a.next..] ==> x in m.log || x in a.batch[a.next..])
  }

  ghost predicate Inv(cfg: Config, m: Machine) {
    && IdsFit(m) && RowsFit(cfg, m) && OrderFits(m)
    && (m.active.Some? ==> PassFits(cfg, m, m.active.value))
  }

  // ------------------------------------------------------------ preservation

  /** A step that adds ids, and does not touch the committed ones, the topic or the rows. */
  lemma Unmoved(cfg: Config, m: Machine, m': Machine)
    requires RowsFit(cfg, m) && OrderFits(m) && (m.active.Some? ==> PassFits(cfg, m, m.active.value)) && IdsFit(m)
    requires m' == m.(now := m'.now, nextId := m'.nextId, open := m'.open, taskOf := m'.taskOf)
    requires forall id :: id in m.taskOf ==> id in m'.taskOf && m'.taskOf[id] == m.taskOf[id]
    ensures RowsFit(cfg, m') && OrderFits(m') && (m'.active.Some? ==> PassFits(cfg, m', m'.active.value))
  {
    forall id: Id ensures RowFits(cfg, m', id) { assert RowFits(cfg, m, id); }
    forall a, b ensures Earlier(m', a, b) ==> Earlier(m, a, b) { }
  }

  lemma IdsAfterBegin(m: Machine, task: TaskId)
    requires IdsFit(m) && task !in m.open
    ensures IdsFit(m.(nextId := m.nextId + 1, open := m.open[task := m.nextId], taskOf := m.taskOf[m.nextId := task]))
  {
  }

  lemma IdsAfterCommit(m: Machine, task: TaskId)
    requires IdsFit(m) && task in m.open
    ensures IdsFit(CommitTx(m, task))
  {
  }

  /** The newly committed id is the last of its task, and is in no topic and no batch yet. */
  lemma EarlierAfterCommit(cfg: Config, m: Machine, task: TaskId, a: Id, b: Id)
    requires IdsFit(m) && RowsFit(cfg, m) && task in m.open && Earlier(CommitTx(m, task), a, b)
    ensures b == m.open[task] || Earlier(m, a, b)
    ensures m.open[task] !in m.log
  {
    assert RowFits(cfg, m, m.open[task]);
  }

  lemma OrderAfterCommit(cfg: Config, m: Machine, task: TaskId)
    requires Inv(cfg, m) && task in m.open
    ensures OrderFits(CommitTx(m, task))
  {
    var m' := CommitTx(m, task);
    forall a, b | Earlier(m', a, b) ensures Precedes(m'.log, a, b) { EarlierAfterCommit(cfg, m, task, a, b); }
  }

  lemma RowsAfterCommit(cfg: Config, m: Machine, task: TaskId)
    requires IdsFit(m) && RowsFit(cfg, m) && task in m.open
    ensures RowsFit(cfg, CommitTx(m, task))
  {
    var m' := CommitTx(m, task);
    assert m.open[task] in m'.commits;
    forall id: Id ensures RowFits(cfg, m', id) { assert RowFits(cfg, m, id); }
  }

  lemma PassAfterCommit(cfg: Config, m: Machine, task: TaskId)
    requires Inv(cfg, m) && task in m.open && m.active.Some?
    ensures PassFits(cfg, CommitTx(m, task), m.active.value)
  {
    var m', a := CommitTx(m, task), m.active.value;
    assert forall id :: id in a.batch[a.next..] ==> id in a.batch;
    assert RowFits(cfg, m, m.open[task]);
    forall x, y | Earlier(m', x, y) && y in a.batch[a.next..] ensures Earlier(m, x, y) { EarlierAfterCommit(cfg, m, task, x, y); }
  }

  lemma CommitKeeps(cfg: Config, m: Machine, task: TaskId)
    requires Inv(cfg, m) && task in m.open
    ensures Inv(cfg, CommitTx(m, task))
  {
    IdsAfterCommit(m, task);
    OrderAfterCommit(cfg, m, task);
    RowsAfterCommit(cfg, m, task);
    if m.active.Some? { PassAfterCommit(cfg, m, task); }
  }

  /** What must precede a row of the batch is in the topic already, or in the batch. */
  lemma BatchHasEarlier(cfg: Config, m: Machine, batch: seq<Id>, x: Id, y: Id)
    requires cfg.Valid() && RowsFit(cfg, m) && IsBatch(cfg, batch, m.table, m.now) && Earlier(m, x, y) && y in batch
    ensures x in m.log || x in batch
  {
    assert RowFits(cfg, m, x);
    if x in m.table {
      assert m.table[x].rejections == 0 && m.table[x].due.None?;
      assert Due(cfg, m.table[x], m.now);
    }
  }

  lemma SelectKeeps(cfg: Config, m: Machine, batch: seq<Id>)
    requires cfg.Valid() && Inv(cfg, m) && m.active.None? && IsBatch(cfg, batch, m.table, m.now)
    ensures Inv(cfg, Next(cfg, m, Select(batch)))
  {
    var a := Active(batch, 0, Pass(m.log, [], [], false, false), m.now);
    SelectFits(cfg, m, batch, a);
    NewPass(cfg, m, Some(a));
  }

  lemma SelectFits(cfg: Config, m: Machine, batch: seq<Id>, a: Active)
    requires cfg.Valid() && RowsFit(cfg, m) && IsBatch(cfg, batch, m.table, m.now)
    requires a == Active(batch, 0, Pass(m.log, [], [], false, false), m.now)
    ensures PassFits(cfg, m, a)
  {
    assert a.batch[a.next..] == batch;
    forall x, y | Earlier(m, x, y) && y in batch ensures x in m.log || x in batch { BatchHasEarlier(cfg, m, batch, x, y); }
  }

  /** The lock's holder changes, nothing else. */
  lemma NewPass(cfg: Config, m: Machine, active: Option<Active>)
    requires Inv(cfg, m) && (active.Some? ==> PassFits(cfg, m, active.value))
    ensures Inv(cfg, m.(active := active))
  {
    hide Precedes, Distinct;
    var m' := m.(active := active);
    forall id: Id ensures RowFits(cfg, m', id) { assert RowFits(cfg, m, id); }
    forall a, b ensures Earlier(m', a, b) <==> Earlier(m, a, b) { }
  }

  /** Appending `id` keeps the order if all that must precede it is there. */
  lemma AppendKeepsOrder(log: seq<Id>, id: Id, a: Id, b: Id)
    requires Precedes(log, a, b) && (b == id ==> a in log)
    ensures Precedes(log + [id], a, b)
  {
    var log' := log + [id];
    forall j | 0 <= j < |log'| && log'[j] == b ensures a in log'[..j] {
      assert log'[..j] == if j < |log| then log[..j] else log;
    }
  }

  /** What a publish leaves of the clean tasks still in the batch. */
  lemma RestStays(cfg: Config, m: Machine, a: Active, v: Verdict)
    requires Inv(cfg, m) && m.active == Some(a) && a.next < |a.batch| && !a.p.stopped && !v.Outage?
    ensures var m' := PublishOne(m, a, v);
            forall x, y :: Earlier(m', x, y) && y in a.batch[a.next + 1..] ==> x in m'.log || x in a.batch[a.next + 1..]
  {
    var m', id := PublishOne(m, a, v), a.batch[a.next];
    assert a.batch[a.next..] == [id] + a.batch[a.next + 1..];
    assert id in a.batch && RowFits(cfg, m, id);
    forall x, y | Earlier(m', x, y) && y in a.batch[a.next + 1..]
      ensures x in m'.log || x in a.batch[a.next + 1..]
    {
      assert Earlier(m, x, y);
    }
  }

  lemma OrderAfterPublish(cfg: Config, m: Machine, a: Active, v: Verdict)
    requires Inv(cfg, m) && m.active == Some(a) && a.next < |a.batch| && !a.p.stopped
    ensures OrderFits(PublishOne(m, a, v))
  {
    var m', id := PublishOne(m, a, v), a.batch[a.next];
    assert id in a.batch[a.next..] && id in a.batch && RowFits(cfg, m, id);
    forall x, y | Earlier(m', x, y) ensures Precedes(m'.log, x, y) {
      assert Earlier(m, x, y);
      if y == id && x !in m.log { NotBefore(a.batch, a.next, x); }
      AppendKeepsOrder(m.log, id, x, y);
    }
  }

  lemma NotBefore(batch: seq<Id>, k: nat, x: Id)
    requires k < |batch| && (forall i, j :: 0 <= i < j < |batch| ==> batch[i] < batch[j]) && x in batch[k..]
    ensures x >= batch[k]
  {
    var i :| 0 <= i < |batch[k..]| && batch[k..][i] == x;
    assert batch[k..][i] == batch[k + i];
  }

  lemma RowsAfterPublish(cfg: Config, m: Machine, a: Active, v: Verdict)
    requires Inv(cfg, m) && m.active == Some(a) && a.next < |a.batch|
    ensures RowsFit(cfg, PublishOne(m, a, v)) && IdsFit(PublishOne(m, a, v))
  {
    var id := a.batch[a.next];
    var m' := PublishOne(m, a, v);
    assert id in a.batch && RowFits(cfg, m, id);
    forall x: Id ensures RowFits(cfg, m', x) { assert RowFits(cfg, m, x); }
  }

  lemma PassAfterPublish(cfg: Config, m: Machine, a: Active, v: Verdict)
    requires Inv(cfg, m) && m.active == Some(a) && a.next < |a.batch| && !a.p.stopped
    ensures PassFits(cfg, PublishOne(m, a, v), PublishOne(m, a, v).active.value)
  {
    var m', id := PublishOne(m, a, v), a.batch[a.next];
    var a' := m'.active.value;
    assert a.batch[..a.next + 1] == a.batch[..a.next] + [id];
    assert id in a.batch && RowFits(cfg, m, id);
    assert id !in a.p.rejected by { assert id !in a.batch[..a.next]; }
    if !v.Outage? { RestStays(cfg, m, a, v); }
  }

  lemma PublishKeeps(cfg: Config, m: Machine, v: Verdict)
    requires Inv(cfg, m)
    ensures Inv(cfg, Next(cfg, m, PublishNext(v)))
  {
    hide Publish, Precedes;
    if m.active.Some? && !m.active.value.p.stopped && m.active.value.next < |m.active.value.batch| {
      OrderAfterPublish(cfg, m, m.active.value, v);
      RowsAfterPublish(cfg, m, m.active.value, v);
      PassAfterPublish(cfg, m, m.active.value, v);
    }
  }

  lemma {:induction false} CountOnce(s: seq<Id>, id: Id)
    requires Distinct(s)
    ensures multiset(s)[id] == if id in s then 1 else 0
  {
    if s != [] {
      var init := s[..|s| - 1];
      assert s == init + [s[|s| - 1]];
      CountOnce(init, id);
    }
  }

  lemma EndKeeps(cfg: Config, m: Machine, how: Ending)
    requires Inv(cfg, m)
    ensures Inv(cfg, Next(cfg, m, End(how)))
  {
    hide Left, Precedes, Distinct, PassFits, RowFits;
    if m.active.Some? {
      var m' := Next(cfg, m, End(how));
      RowsAfterEnd(cfg, m, m.active.value, how);
      forall a, b ensures Earlier(m', a, b) ==> Earlier(m, a, b) { }
    }
  }

  /** A row that the pass acknowledged is gone and in the topic, one it rejected is counted once more, the rest stay. */
  lemma RowsAfterEnd(cfg: Config, m: Machine, a: Active, how: Ending)
    requires RowsFit(cfg, m) && PassFits(cfg, m, a)
    ensures RowsFit(cfg, EndPass(cfg, m, a, how))
  {
    hide RejectDelay;
    forall id: Id ensures RowFits(cfg, EndPass(cfg, m, a, how), id) {
      assert RowFits(cfg, m, id);
      CountOnce(a.p.rejected, id);
      assert id in a.batch[..a.next] ==> id in a.batch;
    }
  }

  lemma TickKeeps(cfg: Config, m: Machine, d: nat)
    requires Inv(cfg, m)
    ensures Inv(cfg, Next(cfg, m, Tick(d)))
  {
    Unmoved(cfg, m, Next(cfg, m, Tick(d)));
  }

  lemma BeginKeeps(cfg: Config, m: Machine, task: TaskId)
    requires Inv(cfg, m)
    ensures Inv(cfg, Next(cfg, m, Begin(task)))
  {
    if task !in m.open {
      IdsAfterBegin(m, task);
      Unmoved(cfg, m, Next(cfg, m, Begin(task)));
    }
  }

  lemma AbortKeeps(cfg: Config, m: Machine, task: TaskId)
    requires Inv(cfg, m)
    ensures Inv(cfg, Next(cfg, m, Abort(task)))
  {
    Unmoved(cfg, m, Next(cfg, m, Abort(task)));
  }

  lemma StepKeeps(cfg: Config, m: Machine, act: Action)
    requires cfg.Valid() && Inv(cfg, m)
    ensures Inv(cfg, Next(cfg, m, act))
  {
    hide Inv;
    match act
    case Tick(d) => TickKeeps(cfg, m, d);
    case Begin(task) => BeginKeeps(cfg, m, task);
    case Commit(task) => if task in m.open { CommitKeeps(cfg, m, task); }
    case Abort(task) => AbortKeeps(cfg, m, task);
    case Select(batch) => if m.active.None? && IsBatch(cfg, batch, m.table, m.now) { SelectKeeps(cfg, m, batch); }
    case PublishNext(v) => PublishKeeps(cfg, m, v);
    case End(how) => EndKeeps(cfg, m, how);
  }

  lemma {:induction false} Reachable(cfg: Config, acts: seq<Action>)
    requires cfg.Valid()
    ensures Inv(cfg, Run(cfg, acts))
  {
    hide Next;
    if acts != [] {
      Reachable(cfg, acts[..|acts| - 1]);
      StepKeeps(cfg, Run(cfg, acts[..|acts| - 1]), acts[|acts| - 1]);
    }
  }

  // ------------------------------------------------------------ over every run

  /** Per-task order: of a task none of whose events was ever rejected, events appear in the topic in commit order,
      each appearance of a later one after an appearance of the earlier. */
  lemma TaskOrderKept(cfg: Config, acts: seq<Action>, i: nat, j: nat)
    requires cfg.Valid() && i < j < |Run(cfg, acts).commits|
    requires SameCleanTask(Run(cfg, acts), Run(cfg, acts).commits[i], Run(cfg, acts).commits[j])
    ensures Precedes(Run(cfg, acts).log, Run(cfg, acts).commits[i], Run(cfg, acts).commits[j])
  {
    Reachable(cfg, acts);
    var m := Run(cfg, acts);
    assert Earlier(m, m.commits[i], m.commits[j]);
  }

  /** No event is lost: each committed one is still in the table or is in the topic; a row that is gone was acknowledged. */
  lemma NoEventLost(cfg: Config, acts: seq<Action>, id: Id)
    requires cfg.Valid() && id in Run(cfg, acts).commits
    ensures id in Run(cfg, acts).table || (id in Run(cfg, acts).acked && id in Run(cfg, acts).log)
  {
    Reachable(cfg, acts);
    assert RowFits(cfg, Run(cfg, acts), id);
  }

  /** A row's count is the number of its committed rejections, at most MaxAttempts: it is dead exactly when it has them all. */
  lemma DeadAfterMaxAttempts(cfg: Config, acts: seq<Action>, id: Id)
    requires cfg.Valid() && id in Run(cfg, acts).table
    ensures !Live(cfg, Run(cfg, acts).table[id]) <==> Run(cfg, acts).counted[id] == cfg.maxAttempts
  {
    Reachable(cfg, acts);
    assert RowFits(cfg, Run(cfg, acts), id);
  }

  // ------------------------------------------------------------ a pass of Relay is a run

  ghost function RunFrom(cfg: Config, m: Machine, acts: seq<Action>): Machine {
    if acts == [] then m else Next(cfg, RunFrom(cfg, m, acts[..|acts| - 1]), acts[|acts| - 1])
  }

  function Publishes(verdicts: seq<Verdict>): seq<Action> {
    seq(|verdicts|, i requires 0 <= i < |verdicts| => PublishNext(verdicts[i]))
  }

  lemma {:induction false} PublishesAreARun(cfg: Config, m: Machine, batch: seq<Id>, verdicts: seq<Verdict>, n: nat)
    requires m.active == Some(Active(batch, 0, Pass(m.log, [], [], false, false), m.now)) && n <= |verdicts| <= |batch|
    ensures var m', p := RunFrom(cfg, m, Publishes(verdicts[..n])), Published(m.log, batch, verdicts, n);
            && m'.log == p.log && m'.table == m.table
            && m'.active.Some? && m'.active.value == Active(batch, m'.active.value.next, p, m.now) && (!p.stopped ==> m'.active.value.next == n)
  {
    hide Publish;
    if n > 0 {
      PublishesAreARun(cfg, m, batch, verdicts, n - 1);
      assert Publishes(verdicts[..n])[..n - 1] == Publishes(verdicts[..n - 1]);
    }
  }

  /** What `Outbox.RelayOnce` leaves in the topic and in the table is what the steps of this machine leave. */
  lemma PassIsARun(cfg: Config, m: Machine, batch: seq<Id>, verdicts: seq<Verdict>, how: Ending)
    requires m.active.None? && IsBatch(cfg, batch, m.table, m.now) && |verdicts| <= |batch|
    ensures var m' := RunFrom(cfg, m, [Select(batch)] + Publishes(verdicts) + [End(how)]);
            var p := Published(m.log, batch, verdicts, |verdicts|);
            m'.log == p.log && m'.table == Left(cfg, m.table, p, m.now, how) && m'.active.None?
  {
    hide Published, Left, IsBatch;
    var selected := Next(cfg, m, Select(batch));
    var acts := [Select(batch)] + Publishes(verdicts);
    PublishesAreARun(cfg, selected, batch, verdicts, |verdicts|);
    assert verdicts[..|verdicts|] == verdicts;
    After(cfg, m, Select(batch), Publishes(verdicts));
    assert (acts + [End(how)])[..|acts|] == acts;
  }

  lemma {:induction false} After(cfg: Config, m: Machine, first: Action, rest: seq<Action>)
    ensures RunFrom(cfg, m, [first] + rest) == RunFrom(cfg, Next(cfg, m, first), rest)
  {
    hide Next;
    if rest == [] {
      assert [first] + rest == [first] && [first][..0] == [];
    } else {
      After(cfg, m, first, rest[..|rest| - 1]);
      assert ([first] + rest)[..|rest|] == [first] + rest[..|rest| - 1];
    }
  }
}
