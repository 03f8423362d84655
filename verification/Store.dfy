/**
The task repository of services/tasks/internal/store: every change is one transaction
that also writes its event to the outbox.

A transaction works on a copy of the tables and is committed or thrown away; a commit may
also take effect and yet be reported as failed. Transactions on one row, and on one
idempotency key, are serialised by the database, so a run is a sequence of transactions.
Task ids are numbers standing for the database's collation order.
*/
module Store {
  type Id = nat

  datatype Option<+T> = None | Some(value: T)

  datatype Task = Task(id: Id, title: string, done: bool, version: int, createdAt: nat)

  datatype Patch = Patch(title: Option<string>, done: Option<bool>)

  /** The client's key, and the digest of what it asked for. */
  datatype IdempotencyKey = IdempotencyKey(key: string, hash: string)

  datatype KeyRow = KeyRow(hash: string, taskId: Id, createdAt: nat)

  datatype Event =
    | TaskCreated(id: Id, title: string, version: int)
    | TaskUpdated(id: Id, title: string, done: bool, version: int)
    | TaskDeleted(id: Id, version: int)

  datatype Error = NotFound | VersionMismatch | KeyReused | Internal

  /** What a transaction answers; `Replaying` names the task to read, in a query of its own, for `Replayed`. */
  datatype Answer = Done(task: Task) | Replaying(first: Id) | Replayed(task: Task) | Removed | Purged | Failed(error: Error)

  /** The tables; `events` is every event committed to the outbox, in commit order, relayed or not. */
  datatype Tables = Tables(tasks: map<Id, Task>, keys: map<string, KeyRow>, events: seq<Event>)

  /** How the transaction ends once its statements have run: a statement or the commit may fail, and a
      commit that took effect may be reported as failed. */
  datatype Ending = Committed | RolledBack | ReplyLost

  // ------------------------------------------------------------ specification

  function Or<T>(o: Option<T>, default: T): T { if o.Some? then o.value else default }

  function AfterCreate(db: Tables, id: Id, title: string, idem: Option<IdempotencyKey>, now: nat): (Tables, Answer) {
    if id in db.tasks then (db, Failed(Internal))
    else if idem.Some? && idem.value.key in db.keys then
      var row := db.keys[idem.value.key];
      (db, if row.hash != idem.value.hash then Failed(KeyReused) else Replaying(row.taskId))
    else
      var t := Task(id, title, false, 1, now);
      (Tables(db.tasks[id := t],
              if idem.Some? then db.keys[idem.value.key := KeyRow(idem.value.hash, id, now)] else db.keys,
              db.events + [TaskCreated(id, title, 1)]), Done(t))
  }

  /** The read that completes a replay, on the tasks it finds. */
  function Reread(tasks: map<Id, Task>, first: Id): Answer {
    if first in tasks then Replayed(tasks[first]) else Failed(Internal)
  }

  /** Whether a conditional statement on row `id` matches it. */
  predicate Matches(db: Tables, id: Id, ifVersion: Option<int>) {
    id in db.tasks && (ifVersion.None? || db.tasks[id].version == ifVersion.value)
  }

  function MissOrMismatch(db: Tables, id: Id): Answer {
    Failed(if id in db.tasks then VersionMismatch else NotFound)
  }

  function AfterUpdate(db: Tables, id: Id, patch: Patch, ifVersion: Option<int>): (Tables, Answer) {
    if !Matches(db, id, ifVersion) then (db, MissOrMismatch(db, id))
    else
      var was := db.tasks[id];
      var t := was.(title := Or(patch.title, was.title), done := Or(patch.done, was.done), version := was.version + 1);
      (db.(tasks := db.tasks[id := t], events := db.events + [TaskUpdated(id, t.title, t.done, t.version)]), Done(t))
  }

  /** The task's idempotency keys go with it. */
  function AfterDelete(db: Tables, id: Id, ifVersion: Option<int>): (Tables, Answer) {
    if !Matches(db, id, ifVersion) then (db, MissOrMismatch(db, id))
    else (Tables(db.tasks - {id}, map k | k in db.keys && db.keys[k].taskId != id :: db.keys[k],
                 db.events + [TaskDeleted(id, db.tasks[id].version)]), Removed)
  }

  function AfterPurge(db: Tables, cutoff: int): (Tables, Answer) {
    (db.(keys := map k | k in db.keys && db.keys[k].createdAt >= cutoff :: db.keys[k]), Purged)
  }

  /** The tables a transaction leaves, and what its caller is told; one that changes nothing has no commit to lose. */
  function Ended(db: Tables, after: (Tables, Answer), how: Ending): (Tables, Answer) {
    match how
    case Committed => after
    case RolledBack => (db, Failed(Internal))
    case ReplyLost => if after.1.Replaying? || after.1.Failed? then after else (after.0, Failed(Internal))
  }

  datatype Op =
    | Create(id: Id, title: string, idem: Option<IdempotencyKey>, now: nat, how: Ending)
    | Update(id: Id, patch: Patch, ifVersion: Option<int>, how: Ending)
    | Delete(id: Id, ifVersion: Option<int>, how: Ending)
    | Purge(cutoff: int, how: Ending)

  function Tried(db: Tables, op: Op): (Tables, Answer) {
    match op
    case Create(id, title, idem, now, _) => AfterCreate(db, id, title, idem, now)
    case Update(id, patch, ifVersion, _) => AfterUpdate(db, id, patch, ifVersion)
    case Delete(id, ifVersion, _) => AfterDelete(db, id, ifVersion)
    case Purge(cutoff, _) => AfterPurge(db, cutoff)
  }

  function After(db: Tables, op: Op): (Tables, Answer) { Ended(db, Tried(db, op), op.how) }

  const EMPTY := Tables(map[], map[], [])

  /** The tables after the first `n` of `ops`. */
  ghost function At(ops: seq<Op>, n: nat): Tables
    requires n <= |ops|
  {
    if n == 0 then EMPTY else After(At(ops, n - 1), ops[n - 1]).0
  }

  // ------------------------------------------------------------ what each operation asks for is what it does

  /** An update that is not rolled back changes the row asked for, if it is there in the version asked for: the fields the
      patch gives, the version by one, no other field, no other row and no key; and its event tells the new row. */
  lemma UpdateApplies(db: Tables, id: Id, patch: Patch, ifVersion: Option<int>, how: Ending)
    ensures var (after, said) := After(db, Update(id, patch, ifVersion, how));
            if how != RolledBack && id in db.tasks && (ifVersion.Some? ==> db.tasks[id].version == ifVersion.value) then
              && id in after.tasks
              && var was, t := db.tasks[id], after.tasks[id];
                 && t.title == (if patch.title.Some? then patch.title.value else was.title)
                 && t.done == (if patch.done.Some? then patch.done.value else was.done)
                 && t.version == was.version + 1 && t.createdAt == was.createdAt && t.id == was.id
                 && after.tasks == db.tasks[id := t] && after.keys == db.keys
                 && after.events == db.events + [TaskUpdated(id, t.title, t.done, t.version)]
                 && said == (if how == Committed then Done(t) else Failed(Internal))
            else
              && after == db
              && said == Failed(if how == RolledBack then Internal else if id in db.tasks then VersionMismatch else NotFound)
  {
  }

  /** A create with a free id, and a free key if it has one, that is not rolled back makes the row it is asked for, its
      event and its key; one whose key is taken makes nothing. */
  lemma CreateMakes(db: Tables, id: Id, title: string, idem: Option<IdempotencyKey>, now: nat, how: Ending)
    ensures var (after, said) := After(db, Create(id, title, idem, now, how));
            var taken := idem.Some? && idem.value.key in db.keys;
            && (how == RolledBack || id in db.tasks ==> after == db && said == Failed(Internal))
            && (how != RolledBack && id !in db.tasks && taken ==>
                  after == db && said == if db.keys[idem.value.key].hash == idem.value.hash then Replaying(db.keys[idem.value.key].taskId) else Failed(KeyReused))
            && (how != RolledBack && id !in db.tasks && !taken ==>
                  && after.tasks == db.tasks[id := Task(id, title, false, 1, now)]
                  && after.events == db.events + [TaskCreated(id, title, 1)]
                  && after.keys == (if idem.Some? then db.keys[idem.value.key := KeyRow(idem.value.hash, id, now)] else db.keys)
                  && said == if how == Committed then Done(Task(id, title, false, 1, now)) else Failed(Internal))
  {
  }

  /** A delete that is not rolled back takes the row asked for, if it is there in the version asked for, with the keys of
      that task and no others. */
  lemma DeleteTakes(db: Tables, id: Id, ifVersion: Option<int>, how: Ending)
    ensures var (after, said) := After(db, Delete(id, ifVersion, how));
            if how != RolledBack && id in db.tasks && (ifVersion.Some? ==> db.tasks[id].version == ifVersion.value) then
              && after.tasks == db.tasks - {id}
              && (forall k :: k in after.keys <==> k in db.keys && db.keys[k].taskId != id)
              && (forall k :: k in after.keys ==> after.keys[k] == db.keys[k])
              && after.events == db.events + [TaskDeleted(id, db.tasks[id].version)]
              && said == (if how == Committed then Removed else Failed(Internal))
            else
              && after == db
              && said == Failed(if how == RolledBack then Internal else if id in db.tasks then VersionMismatch else NotFound)
  {
  }

  /** A purge that is not rolled back drops the keys from before the cutoff, and nothing else. */
  lemma PurgeDrops(db: Tables, cutoff: int, how: Ending)
    ensures var after := After(db, Purge(cutoff, how)).0;
            && after.tasks == db.tasks && after.events == db.events
            && (forall k :: k in after.keys <==> k in db.keys && (how == RolledBack || db.keys[k].createdAt >= cutoff))
            && (forall k :: k in after.keys ==> after.keys[k] == db.keys[k])
  {
  }

  // ------------------------------------------------------------ store and event stream agree

  /** What a consumer of the stream knows of a task. */
  datatype View = View(title: string, done: bool, version: int)

  function Applied(m: map<Id, View>, e: Event): map<Id, View> {
    match e
    case TaskCreated(id, title, version) => m[id := View(title, false, version)]
    case TaskUpdated(id, title, done, version) => m[id := View(title, done, version)]
    case TaskDeleted(id, _) => m - {id}
  }

  function Fold(events: seq<Event>): map<Id, View> {
    if events == [] then map[] else Applied(Fold(events[..|events| - 1]), events[|events| - 1])
  }

  /** An event that continues what the stream said before it: versions start at 1 and rise by one. */
  predicate Follows(m: map<Id, View>, e: Event) {
    match e
    case TaskCreated(id, _, version) => id !in m && version == 1
    case TaskUpdated(id, _, _, version) => id in m && version == m[id].version + 1
    case TaskDeleted(id, version) => id in m && version == m[id].version
  }

  predicate Orderly(events: seq<Event>) {
    events == [] || (Orderly(events[..|events| - 1]) && Follows(Fold(events[..|events| - 1]), events[|events| - 1]))
  }

  function Seen(tasks: map<Id, Task>): map<Id, View> {
    map id | id in tasks :: View(tasks[id].title, tasks[id].done, tasks[id].version)
  }

  /** The stream tells the tables, and keeps its versions in order. */
  ghost predicate Told(events: seq<Event>, tasks: map<Id, Task>) { Fold(events) == Seen(tasks) && Orderly(events) }

  ghost predicate Agrees(db: Tables) {
    && Told(db.events, db.tasks)
    && (forall id :: id in db.tasks ==> db.tasks[id].id == id)
    && (forall k :: k in db.keys ==> db.keys[k].taskId in db.tasks)
  }

  lemma OneMoreEvent(events: seq<Event>, e: Event)
    ensures Fold(events + [e]) == Applied(Fold(events), e)
    ensures Orderly(events + [e]) == (Orderly(events) && Follows(Fold(events), e))
  {
    hide Applied, Follows;
    assert (events + [e])[..|events|] == events;
  }

  /** A row written, and its event. */
  lemma ToldAfterPut(events: seq<Event>, tasks: map<Id, Task>, id: Id, t: Task, e: Event)
    requires Told(events, tasks)
    requires if id in tasks then e == TaskUpdated(id, t.title, t.done, t.version) && t.version == tasks[id].version + 1
             else e == TaskCreated(id, t.title, t.version) && t.version == 1 && !t.done
    ensures Told(events + [e], tasks[id := t])
  {
    hide Fold, Orderly;
    OneMoreEvent(events, e);
  }

  lemma ToldAfterRemove(events: seq<Event>, tasks: map<Id, Task>, id: Id)
    requires Told(events, tasks) && id in tasks
    ensures Told(events + [TaskDeleted(id, tasks[id].version)], tasks - {id})
  {
    hide Fold, Orderly;
    OneMoreEvent(events, TaskDeleted(id, tasks[id].version));
  }

  lemma AgreesAfterCreate(db: Tables, id: Id, title: string, idem: Option<IdempotencyKey>, now: nat)
    requires Agrees(db)
    ensures Agrees(AfterCreate(db, id, title, idem, now).0)
  {
    hide Told;
    if id !in db.tasks {
      ToldAfterPut(db.events, db.tasks, id, Task(id, title, false, 1, now), TaskCreated(id, title, 1));
    }
  }

  lemma AgreesAfterUpdate(db: Tables, id: Id, patch: Patch, ifVersion: Option<int>)
    requires Agrees(db)
    ensures Agrees(AfterUpdate(db, id, patch, ifVersion).0)
  {
    hide Told;
    if Matches(db, id, ifVersion) {
      var t := AfterUpdate(db, id, patch, ifVersion).0.tasks[id];
      ToldAfterPut(db.events, db.tasks, id, t, TaskUpdated(id, t.title, t.done, t.version));
    }
  }

  lemma AgreesAfterDelete(db: Tables, id: Id, ifVersion: Option<int>)
    requires Agrees(db)
    ensures Agrees(AfterDelete(db, id, ifVersion).0)
  {
    hide Told;
    if Matches(db, id, ifVersion) { ToldAfterRemove(db.events, db.tasks, id); }
  }

  lemma AgreesAfterPurge(db: Tables, cutoff: int)
    requires Agrees(db)
    ensures Agrees(AfterPurge(db, cutoff).0)
  {
    hide Told;
  }

  lemma AgreesAfter(db: Tables, op: Op)
    requires Agrees(db)
    ensures Agrees(After(db, op).0)
  {
    hide Agrees, AfterCreate, AfterUpdate, AfterDelete, AfterPurge;
    match op
    case Create(id, title, idem, now, _) => AgreesAfterCreate(db, id, title, idem, now);
    case Update(id, patch, ifVersion, _) => AgreesAfterUpdate(db, id, patch, ifVersion);
    case Delete(id, ifVersion, _) => AgreesAfterDelete(db, id, ifVersion);
    case Purge(cutoff, _) => AgreesAfterPurge(db, cutoff);
  }

  /** Over every run, folding the committed events gives exactly the tasks table, and per task the versions rise by one. */
  lemma {:induction false} StreamAgreesWithTable(ops: seq<Op>, n: nat)
    requires n <= |ops|
    ensures Fold(At(ops, n).events) == Seen(At(ops, n).tasks) && Orderly(At(ops, n).events) && Agrees(At(ops, n))
  {
    hide After;
    if n > 0 {
      StreamAgreesWithTable(ops, n - 1);
      AgreesAfter(At(ops, n - 1), ops[n - 1]);
    }
  }

  // ------------------------------------------------------------ conditional changes

  /** The operation's transaction was committed, whatever its caller was told. */
  ghost predicate TookEffect(db: Tables, op: Op) { |After(db, op).0.events| > |db.events| }

  /** A conditional change of version `v` of task `id` that took effect. */
  ghost predicate Changes(db: Tables, op: Op, id: Id, v: int) {
    && (op.Update? || op.Delete?) && op.id == id && op.ifVersion == Some(v)
    && TookEffect(db, op)
  }

  ghost predicate Creates(db: Tables, op: Op, id: Id) {
    op.Create? && op.id == id && TookEffect(db, op)
  }

  ghost predicate Updates(db: Tables, op: Op, id: Id) {
    op.Update? && op.id == id && TookEffect(db, op)
  }

  ghost predicate Removes(db: Tables, op: Op, id: Id) {
    op.Delete? && op.id == id && TookEffect(db, op)
  }

  /** The updates of `id` from `i` up to `j` that took effect. */
  ghost function UpdateCount(ops: seq<Op>, i: nat, j: nat, id: Id): nat
    requires i <= j <= |ops|
    decreases j
  {
    if i == j then 0 else UpdateCount(ops, i, j - 1, id) + if Updates(At(ops, j - 1), ops[j - 1], id) then 1 else 0
  }

  /** Operation `k` created task `id`, and none since, up to `n`, removed it. */
  ghost predicate LivesSince(ops: seq<Op>, k: nat, n: nat, id: Id)
    requires n <= |ops|
  {
    k < n && Creates(At(ops, k), ops[k], id) && forall l :: k < l < n ==> !Removes(At(ops, l), ops[l], id)
  }

  /** What one operation does to the presence and the version of a task. */
  lemma VersionStep(db: Tables, op: Op, id: Id)
    ensures var after := After(db, op).0.tasks;
            && (Creates(db, op, id) ==> id !in db.tasks && id in after && after[id].version == 1)
            && (Updates(db, op, id) ==> id in db.tasks && id in after && after[id].version == db.tasks[id].version + 1)
            && (Removes(db, op, id) ==> id in db.tasks && id !in after)
            && (!Creates(db, op, id) && !Updates(db, op, id) && !Removes(db, op, id) ==>
                  (id in after <==> id in db.tasks) && (id in after ==> after[id].version == db.tasks[id].version))
  {
  }

  /** A task's version is one more than the updates since it was created. */
  lemma {:induction false} VersionCountsUpdates(ops: seq<Op>, k: nat, n: nat, id: Id)
    requires n <= |ops| && LivesSince(ops, k, n, id)
    ensures id in At(ops, n).tasks && At(ops, n).tasks[id].version == 1 + UpdateCount(ops, k + 1, n, id)
  {
    hide After, Creates, Updates, Removes;
    VersionStep(At(ops, n - 1), ops[n - 1], id);
    if k < n - 1 { VersionCountsUpdates(ops, k, n - 1, id); }
  }

  lemma {:induction false} HasBirth(ops: seq<Op>, n: nat, id: Id) returns (k: nat)
    requires n <= |ops| && id in At(ops, n).tasks
    ensures LivesSince(ops, k, n, id)
  {
    hide After, Creates, Updates, Removes;
    VersionStep(At(ops, n - 1), ops[n - 1], id);
    if Creates(At(ops, n - 1), ops[n - 1], id) { k := n - 1; } else { k := HasBirth(ops, n - 1, id); }
  }

  lemma {:induction false} UpdateCountGrows(ops: seq<Op>, i: nat, j: nat, n: nat, id: Id)
    requires i <= j <= n <= |ops|
    ensures UpdateCount(ops, i, j, id) <= UpdateCount(ops, i, n, id)
  {
    hide Updates;
    if j < n { UpdateCountGrows(ops, i, j, n - 1, id); }
  }

  /** An operation asking for a change of version `v` of task `id`, whose transaction is not rolled back. */
  predicate Asks(op: Op, id: Id, v: int) {
    (op.Update? || op.Delete?) && op.id == id && op.ifVersion == Some(v) && op.how != RolledBack
  }

  lemma ChangeNeedsVersion(db: Tables, op: Op, id: Id, v: int)
    ensures Changes(db, op, id, v) <==> Asks(op, id, v) && id in db.tasks && db.tasks[id].version == v
    ensures Changes(db, op, id, v) ==> Updates(db, op, id) || Removes(db, op, id)
  {
  }

  /** Task `id` was created at `k`, and is at `n` in version `v` of that life. */
  ghost predicate AtVersionSince(ops: seq<Op>, k: nat, n: nat, id: Id, v: int)
    requires n <= |ops|
  {
    LivesSince(ops, k, n, id) && UpdateCount(ops, k + 1, n, id) == v - 1
  }

  /** A change of version `v` was made at `i`: no life of the task that began before is in that version any more. */
  lemma VersionIsPast(ops: seq<Op>, i: nat, j: nat, k: nat, id: Id, v: int)
    requires i < j <= |ops| && Changes(At(ops, i), ops[i], id, v) && AtVersionSince(ops, k, j, id, v)
    ensures i < k
  {
    hide After, Creates, Updates, Removes, Changes;
    ChangeNeedsVersion(At(ops, i), ops[i], id, v);
    if k < i {
      VersionCountsUpdates(ops, k, i, id);
      assert UpdateCount(ops, k + 1, i + 1, id) == v;
      UpdateCountGrows(ops, k + 1, i + 1, j, id);
    } else if k == i {
      VersionStep(At(ops, i), ops[i], id);
    }
  }

  /** After one change of version `v`, another takes effect exactly when the task was created anew in between, still
      lives, and has been updated v - 1 times since. */
  lemma SecondChangeExactly(ops: seq<Op>, i: nat, j: nat, id: Id, v: int)
    requires i < j < |ops| && Changes(At(ops, i), ops[i], id, v) && Asks(ops[j], id, v)
    ensures Changes(At(ops, j), ops[j], id, v) <==> exists k :: i < k < j && AtVersionSince(ops, k, j, id, v)
  {
    hide After, Creates, Updates, Removes, Changes;
    ChangeNeedsVersion(At(ops, j), ops[j], id, v);
    if Changes(At(ops, j), ops[j], id, v) {
      var k := HasBirth(ops, j, id);
      VersionCountsUpdates(ops, k, j, id);
      VersionIsPast(ops, i, j, k, id, v);
    }
    forall k | i < k < j && AtVersionSince(ops, k, j, id, v) ensures Changes(At(ops, j), ops[j], id, v) {
      VersionCountsUpdates(ops, k, j, id);
    }
  }

  /** So while a task lives at most one conditional change of each of its versions takes effect. */
  lemma OneChangePerVersion(ops: seq<Op>, i: nat, j: nat, id: Id, v: int)
    requires i < j < |ops| && Changes(At(ops, i), ops[i], id, v) && Changes(At(ops, j), ops[j], id, v)
    ensures exists k :: i < k < j && Creates(At(ops, k), ops[k], id)
  {
    hide After, Creates, Changes;
    ChangeNeedsVersion(At(ops, j), ops[j], id, v);
    SecondChangeExactly(ops, i, j, id, v);
  }

  /** Such a run: deleted and created anew, a task has its first version again. */
  lemma RecreatedVersionChangesAgain(patch: Patch)
    ensures var ops := Recreation(patch); Changes(At(ops, 1), ops[1], 0, 1) && Changes(At(ops, 4), ops[4], 0, 1)
  {
    var ops := Recreation(patch);
    assert At(ops, 0) == EMPTY;
    var db1 := At(ops, 1);
    assert db1 == AfterCreate(EMPTY, 0, "", None, 0).0;
    assert 0 in db1.tasks && db1.tasks[0].version == 1;
    var db2 := At(ops, 2);
    assert 0 in db2.tasks && db2.keys == map[];
    var db3 := At(ops, 3);
    assert 0 !in db3.tasks;
    var db4 := At(ops, 4);
    assert 0 in db4.tasks && db4.tasks[0].version == 1;
  }

  function Recreation(patch: Patch): seq<Op> {
    [Create(0, "", None, 0, Committed), Update(0, patch, Some(1), Committed), Delete(0, None, Committed),
     Create(0, "", None, 0, Committed), Update(0, patch, Some(1), Committed)]
  }

  /** The caller of a conditional change learns why it did not apply, and a committed one moved exactly that version on. */
  lemma ConditionalChange(db: Tables, id: Id, patch: Patch, v: int)
    ensures var r := After(db, Update(id, patch, Some(v), Committed));
            && (r.1.Done? <==> id in db.tasks && db.tasks[id].version == v)
            && (r.1.Done? ==> r.1.task.version == v + 1 && r.1.task == r.0.tasks[id] && Fold(r.0.events) == Fold(db.events)[id := View(r.1.task.title, r.1.task.done, v + 1)])
            && (r.1 == Failed(NotFound) <==> id !in db.tasks)
            && (r.1 == Failed(VersionMismatch) <==> id in db.tasks && db.tasks[id].version != v)
            && (!r.1.Done? ==> r.0 == db)
  {
    var r := After(db, Update(id, patch, Some(v), Committed));
    if r.1.Done? {
      OneMoreEvent(db.events, TaskUpdated(id, r.1.task.title, r.1.task.done, v + 1));
    }
  }

  // ------------------------------------------------------------ idempotent creates

  /** A replay and every error leave the tables as they were; only a failed commit leaves it open. */
  lemma ReplayAddsNothing(db: Tables, op: Op)
    requires var a := After(db, op).1; a.Replaying? || (a.Failed? && (a.error == Internal ==> op.how != ReplyLost))
    ensures After(db, op).0 == db
  {
  }

  /** No operation from `i` to `j` takes key `key` or its task away. */
  ghost predicate KeyStays(ops: seq<Op>, i: nat, j: nat, key: string)
    requires i <= j <= |ops|
  {
    forall k :: i <= k <= j ==> key in At(ops, k).keys
  }

  lemma KeyHolds(db: Tables, op: Op, key: string)
    requires Agrees(db) && key in db.keys && key in After(db, op).0.keys
    ensures After(db, op).0.keys[key] == db.keys[key]
  {
  }

  lemma {:induction false} KeyKeepsItsTask(ops: seq<Op>, i: nat, j: nat, key: string)
    requires i <= j <= |ops| && KeyStays(ops, i, j, key)
    ensures At(ops, j).keys[key] == At(ops, i).keys[key]
  {
    hide After, Agrees;
    if i < j {
      KeyKeepsItsTask(ops, i, j - 1, key);
      StreamAgreesWithTable(ops, j - 1);
      assert key in At(ops, j).keys && key in At(ops, j - 1).keys;
      KeyHolds(At(ops, j - 1), ops[j - 1], key);
    }
  }

  /** A purge that takes a key made at `made`. */
  predicate Purges(op: Op, made: nat) { op.Purge? && op.cutoff > made && op.how != RolledBack }

  lemma KeyStep(db: Tables, op: Op, key: string)
    requires Agrees(db) && key in db.keys && !Removes(db, op, db.keys[key].taskId) && !Purges(op, db.keys[key].createdAt)
    ensures key in After(db, op).0.keys && After(db, op).0.keys[key] == db.keys[key]
  {
    hide Told;
  }

  /** A key is kept until its task is deleted or a purge reaches it. */
  lemma {:induction false} KeyIsKept(ops: seq<Op>, i: nat, j: nat, idem: IdempotencyKey)
    requires i < j <= |ops| && ops[i].Create? && ops[i].idem == Some(idem) && Creates(At(ops, i), ops[i], ops[i].id)
    requires forall l :: i < l < j ==> !Removes(At(ops, l), ops[l], ops[i].id) && !Purges(ops[l], ops[i].now)
    ensures KeyStays(ops, i + 1, j, idem.key) && At(ops, j).keys[idem.key] == KeyRow(idem.hash, ops[i].id, ops[i].now)
  {
    hide After, Agrees, Creates, Removes, Purges;
    CreateTakesKey(ops, i, idem);
    if j > i + 1 {
      KeyIsKept(ops, i, j - 1, idem);
      StreamAgreesWithTable(ops, j - 1);
      KeyStep(At(ops, j - 1), ops[j - 1], idem.key);
    }
  }

  lemma CreateTakesKey(ops: seq<Op>, i: nat, idem: IdempotencyKey)
    requires i < |ops| && ops[i].Create? && ops[i].idem == Some(idem) && Creates(At(ops, i), ops[i], ops[i].id)
    ensures idem.key in At(ops, i + 1).keys && At(ops, i + 1).keys[idem.key] == KeyRow(idem.hash, ops[i].id, ops[i].now)
  {
  }

  lemma ReplayAnswer(db: Tables, idem: IdempotencyKey, id: Id, title: string, now: nat)
    requires idem.key in db.keys && db.keys[idem.key].hash == idem.hash && id !in db.tasks
    ensures After(db, Create(id, title, Some(idem), now, Committed)).1 == Replaying(db.keys[idem.key].taskId)
    ensures forall hash :: hash != idem.hash ==>
              After(db, Create(id, title, Some(IdempotencyKey(idem.key, hash)), now, Committed)).1 == Failed(KeyReused)
    ensures forall hash, how :: After(db, Create(id, title, Some(IdempotencyKey(idem.key, hash)), now, how)).0 == db
  {
  }

  /** A create that took effect, even one whose reply was lost, answers every repeat of its key: while the key is
      kept, a repeat with the same digest and a fresh id is a replay of the first task, one with another digest is
      refused, and neither changes anything. */
  lemma RepeatsReplayTheFirst(ops: seq<Op>, i: nat, j: nat, idem: IdempotencyKey, id: Id, title: string, now: nat)
    requires i < j <= |ops| && ops[i].Create? && ops[i].idem == Some(idem) && Creates(At(ops, i), ops[i], ops[i].id)
    requires KeyStays(ops, i + 1, j, idem.key) && id !in At(ops, j).tasks
    ensures var db := At(ops, j);
            && After(db, Create(id, title, Some(idem), now, Committed)).1 == Replaying(ops[i].id)
            && (forall hash :: hash != idem.hash ==>
                  After(db, Create(id, title, Some(IdempotencyKey(idem.key, hash)), now, Committed)).1 == Failed(KeyReused))
            && (forall hash, how :: After(db, Create(id, title, Some(IdempotencyKey(idem.key, hash)), now, how)).0 == db)
  {
    hide After, At;
    KeyKeepsItsTask(ops, i + 1, j, idem.key);
    CreateTakesKey(ops, i, idem);
    ReplayAnswer(At(ops, j), idem, id, title, now);
  }

  /** The read that completes the replay runs at `n`, after whatever happened since: it finds the task, as it is then,
      exactly when the task was not removed in between, or was created anew. */
  lemma ReplayFindsTheFirst(ops: seq<Op>, i: nat, j: nat, n: nat, idem: IdempotencyKey)
    requires i < j <= n <= |ops| && ops[i].Create? && ops[i].idem == Some(idem) && Creates(At(ops, i), ops[i], ops[i].id)
    requires KeyStays(ops, i + 1, j, idem.key)
    ensures var first := ops[i].id;
            && (Reread(At(ops, n).tasks, first).Replayed? <==>
                  || (forall l :: j <= l < n ==> !Removes(At(ops, l), ops[l], first))
                  || (exists k :: j <= k < n && LivesSince(ops, k, n, first)))
            && (Reread(At(ops, n).tasks, first).Replayed? ==>
                  first in At(ops, n).tasks && Reread(At(ops, n).tasks, first).task == At(ops, n).tasks[first] && At(ops, n).tasks[first].id == first)
  {
    hide After, Creates, Updates, Removes, Told;
    var first := ops[i].id;
    KeyKeepsItsTask(ops, i + 1, j, idem.key);
    CreateTakesKey(ops, i, idem);
    StreamAgreesWithTable(ops, j);
    StreamAgreesWithTable(ops, n);
    if first in At(ops, n).tasks {
      var k := HasBirth(ops, n, first);
    }
    if forall l :: j <= l < n ==> !Removes(At(ops, l), ops[l], first) { StaysUnlessRemoved(ops, j, n, first); }
    forall k | j <= k < n && LivesSince(ops, k, n, first) ensures first in At(ops, n).tasks {
      VersionCountsUpdates(ops, k, n, first);
    }
  }

  lemma {:induction false} StaysUnlessRemoved(ops: seq<Op>, j: nat, n: nat, id: Id)
    requires j <= n <= |ops| && id in At(ops, j).tasks && forall l :: j <= l < n ==> !Removes(At(ops, l), ops[l], id)
    ensures id in At(ops, n).tasks
  {
    hide After, Creates, Updates, Removes;
    if j < n {
      StaysUnlessRemoved(ops, j, n - 1, id);
      VersionStep(At(ops, n - 1), ops[n - 1], id);
    }
  }

  // ------------------------------------------------------------ in place

  class TaskStore {
    var tasks: map<Id, Task>
    var keys: map<string, KeyRow>
    var events: seq<Event>

    ghost function Abs(): Tables
      reads this
    {
      Tables(tasks, keys, events)
    }

    constructor ()
      ensures Abs() == EMPTY
    {
      tasks, keys, events := map[], map[], [];
    }

    /** The end of a transaction that worked on `t`, `k` and `e`: whether the caller may trust it. */
    method Commit(t: map<Id, Task>, k: map<string, KeyRow>, e: seq<Event>, how: Ending) returns (ok: bool)
      modifies this
      ensures ok == (how == Committed)
      ensures Abs() == if how == RolledBack then old(Abs()) else Tables(t, k, e)
    {
      if how != RolledBack {
        tasks, keys, events := t, k, e;
      }
      ok := how == Committed;
    }

    /** `later` are the tasks the read of a replay finds: other transactions may run before it. */
    method Create(id: Id, title: string, idem: Option<IdempotencyKey>, now: nat, how: Ending, later: map<Id, Task>) returns (a: Answer)
      modifies this
      ensures var (db, said) := After(old(Abs()), Op.Create(id, title, idem, now, how));
              Abs() == db && a == if said.Replaying? then Reread(later, said.first) else said
      ensures var said := After(old(Abs()), Op.Create(id, title, idem, now, how)).1;
              said.Replaying? ==> a == if said.first in later then Replayed(later[said.first]) else Failed(Internal)
    {
      var work, workKeys := tasks, keys;
      if id in work { return Failed(Internal); }
      var t := Task(id, title, false, 1, now);
      work := work[id := t];
      if idem.Some? {
        var k := idem.value;
        if k.key in workKeys {
          // the insert conflicts and returns the winner's row; this attempt's task is rolled back
          if how == RolledBack { return Failed(Internal); }
          if workKeys[k.key].hash != k.hash { return Failed(KeyReused); }
          var replayId := workKeys[k.key].taskId;
          if replayId !in later { return Failed(Internal); }
          return Replayed(later[replayId]);
        }
        workKeys := workKeys[k.key := KeyRow(k.hash, id, now)];
      }
      var ok := Commit(work, workKeys, events + [TaskCreated(id, title, 1)], how);
      a := if ok then Done(t) else Failed(Internal);
    }

    method Update(id: Id, patch: Patch, ifVersion: Option<int>, how: Ending) returns (a: Answer)
      modifies this
      ensures (Abs(), a) == After(old(Abs()), Op.Update(id, patch, ifVersion, how))
    {
      if id !in tasks || (ifVersion.Some? && tasks[id].version != ifVersion.value) {
        if how == RolledBack { return Failed(Internal); }
        return Failed(if id in tasks then VersionMismatch else NotFound);
      }
      var t := tasks[id];
      if patch.title.Some? { t := t.(title := patch.title.value); }
      if patch.done.Some? { t := t.(done := patch.done.value); }
      t := t.(version := t.version + 1);
      var ok := Commit(tasks[id := t], keys, events + [TaskUpdated(id, t.title, t.done, t.version)], how);
      a := if ok then Done(t) else Failed(Internal);
    }

    method Delete(id: Id, ifVersion: Option<int>, how: Ending) returns (a: Answer)
      modifies this
      ensures (Abs(), a) == After(old(Abs()), Op.Delete(id, ifVersion, how))
    {
      if id !in tasks || (ifVersion.Some? && tasks[id].version != ifVersion.value) {
        if how == RolledBack { return Failed(Internal); }
        return Failed(if id in tasks then VersionMismatch else NotFound);
      }
      var kept := map k | k in keys && keys[k].taskId != id :: keys[k];
      var ok := Commit(tasks - {id}, kept, events + [TaskDeleted(id, tasks[id].version)], how);
      a := if ok then Removed else Failed(Internal);
    }

    method Purge(cutoff: int, how: Ending) returns (a: Answer)
      modifies this
      ensures (Abs(), a) == After(old(Abs()), Op.Purge(cutoff, how))
    {
      var kept := map k | k in keys && keys[k].createdAt >= cutoff :: keys[k];
      var ok := Commit(tasks, kept, events, how);
      a := if ok then Purged else Failed(Internal);
    }
  }
}
