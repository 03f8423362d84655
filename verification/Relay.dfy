/**
One pass of the outbox relay of services/tasks/internal/outbox/relay.go: select a batch of
due rows, publish them in id order, then delete what the broker acknowledged and record
what it rejected, in one transaction.

`RelayOnce` is the pass, proved against `Published` and `Merged`; the drain measure says that
passes without outages leave only dead rows. RelayRuns interleaves passes with transactions.
*/
module Relay {
  type Id = nat

  datatype Option<+T> = None | Some(value: T)

  /** An outbox row: the task its event is about, the rejections counted, and when it is due (None: now). */
  datatype Row = Row(task: nat, rejections: nat, due: Option<int>)

  type Table = map<Id, Row>

  /** Times and durations are in nanoseconds, as the source's durations are. */
  datatype Config = Config(maxAttempts: nat, batchSize: nat, rejectBackoff: nat) {
    /** As `withDefaults` leaves it. */
    ghost predicate Valid() { maxAttempts >= 1 && batchSize >= 1 && rejectBackoff >= 1 }
  }

  /** maxRejectDelay: an hour. */
  const MAX_REJECT_DELAY := 3_600_000_000_000

  /** How a publish ends: acknowledged, rejected, or an outage, in which the record may have been appended.
      `recorded` is false when the statement that notes the failure fails, which dooms the transaction. */
  datatype Verdict = Acked | Rejected(recorded: bool) | Outage(appended: bool, recorded: bool)

  datatype Ending = Committed | RolledBack | ReplyLost

  // ------------------------------------------------------------ selection

  predicate Live(cfg: Config, row: Row) { row.rejections < cfg.maxAttempts }

  predicate Due(cfg: Config, row: Row, now: int) { Live(cfg, row) && (row.due.None? || row.due.value <= now) }

  /** The answer to the select: the first due rows, by id, at most batchSize. */
  ghost predicate IsBatch(cfg: Config, batch: seq<Id>, table: Table, now: int) {
    && |batch| <= cfg.batchSize
    && (forall i, j :: 0 <= i < j < |batch| ==> batch[i] < batch[j])
    && (forall id :: id in batch ==> id in table && Due(cfg, table[id], now))
    && (forall id, b :: id in table && Due(cfg, table[id], now) && b in batch && id < b ==> id in batch)
    && (|batch| < cfg.batchSize ==> forall id :: id in table && Due(cfg, table[id], now) ==> id in batch)
  }

  /** With room in the batch, a row is selected exactly when it has had fewer than maxAttempts rejections and its time,
      if it was put off, has come; without room, a row due is passed over only for rows before it. */
  lemma SelectedOnceDue(cfg: Config, batch: seq<Id>, table: Table, now: int, id: Id)
    requires IsBatch(cfg, batch, table, now) && id in table
    ensures id in batch ==> table[id].rejections < cfg.maxAttempts && (table[id].due.Some? ==> table[id].due.value <= now)
    ensures table[id].rejections < cfg.maxAttempts && (table[id].due.Some? ==> table[id].due.value <= now) && id !in batch ==>
              |batch| == cfg.batchSize && forall b :: b in batch ==> b < id
  {
  }

  // ------------------------------------------------------------ publishing

  function Pow2(n: nat): nat { if n == 0 then 1 else 2 * Pow2(n - 1) }

  function RejectDelay(cfg: Config, rejections: nat): int {
    if cfg.rejectBackoff * Pow2(rejections) < MAX_REJECT_DELAY then cfg.rejectBackoff * Pow2(rejections) else MAX_REJECT_DELAY
  }

  /** The wait after a rejection doubles with each, from rejectBackoff, and never passes the maximum. */
  lemma {:induction false} RejectDelayDoubles(cfg: Config, rejections: nat)
    ensures RejectDelay(cfg, 0) == Min(cfg.rejectBackoff, 60 * 60 * 1_000_000_000)
    ensures RejectDelay(cfg, rejections + 1) == Min(2 * RejectDelay(cfg, rejections), 60 * 60 * 1_000_000_000)
  {
    assert cfg.rejectBackoff * Pow2(rejections + 1) == 2 * (cfg.rejectBackoff * Pow2(rejections));
  }

  /** A pass under way: the topic, the ids acknowledged, the ids rejected, whether it goes on and whether it can commit. */
  datatype Pass = Pass(log: seq<Id>, done: seq<Id>, rejected: seq<Id>, stopped: bool, doomed: bool)

  /** The pass after the publish of `id` ended in `v`. */
  function Publish(p: Pass, id: Id, v: Verdict): Pass {
    match v
    case Acked => p.(log := p.log + [id], done := p.done + [id])
    case Rejected(recorded) =>
      if recorded then p.(rejected := p.rejected + [id]) else p.(stopped := true, doomed := true)
    case Outage(appended, recorded) =>
      p.(log := if appended then p.log + [id] else p.log, stopped := true, doomed := !recorded)
  }

  /** Publishing the first `n` of `batch`, unless the pass stops before. */
  function Published(log: seq<Id>, batch: seq<Id>, verdicts: seq<Verdict>, n: nat): Pass
    requires n <= |batch| && n <= |verdicts|
  {
    if n == 0 then Pass(log, [], [], false, false)
    else
      var p := Published(log, batch, verdicts, n - 1);
      if p.stopped then p else Publish(p, batch[n - 1], verdicts[n - 1])
  }

  /** The table after the pass's transaction: acknowledged rows gone, rejected ones counted and put off. */
  function Merged(cfg: Config, table: Table, p: Pass, now: int): Table {
    map id | id in table && id !in p.done ::
      if id in p.rejected then Row(table[id].task, table[id].rejections + 1, Some(now + RejectDelay(cfg, table[id].rejections)))
      else table[id]
  }

  /** The table a pass leaves: only a pass that is not doomed can commit. */
  function Left(cfg: Config, table: Table, p: Pass, now: int, how: Ending): Table {
    if p.doomed || how.RolledBack? then table else Merged(cfg, table, p, now)
  }

  // ------------------------------------------------------------ the drain measure

  /** Rejections the rows with ids below `n` can still take. */
  function Budget(cfg: Config, table: Table, n: nat): nat {
    if n == 0 then 0
    else Budget(cfg, table, n - 1) +
         if n - 1 in table && Live(cfg, table[n - 1]) then cfg.maxAttempts - table[n - 1].rejections else 0
  }

  /** How many ids of `batch` are below `n`. */
  function Below(batch: seq<Id>, n: nat): nat {
    if n == 0 then 0 else Below(batch, n - 1) + if n - 1 in batch then 1 else 0
  }

  // ------------------------------------------------------------ a pass by its verdicts

  /** The publishes before `k` were acknowledged, or rejected with the rejection noted: the pass comes to record `k`. */
  ghost predicate Comes(verdicts: seq<Verdict>, k: nat)
    requires k <= |verdicts|
  {
    forall i :: 0 <= i < k ==> verdicts[i] == Acked || verdicts[i] == Rejected(true)
  }

  /** The pass meets a failure that it cannot note in its transaction. */
  ghost predicate Spoiled(verdicts: seq<Verdict>, n: nat)
    requires n <= |verdicts|
  {
    exists k :: 0 <= k < n && Comes(verdicts, k) && (verdicts[k] == Rejected(false) || (verdicts[k].Outage? && !verdicts[k].recorded))
  }

  ghost predicate AckedAt(batch: seq<Id>, verdicts: seq<Verdict>, k: nat, id: Id)
    requires |verdicts| <= |batch|
  {
    k < |verdicts| && Comes(verdicts, k) && verdicts[k] == Acked && batch[k] == id
  }

  ghost predicate RejectedAt(batch: seq<Id>, verdicts: seq<Verdict>, k: nat, id: Id)
    requires |verdicts| <= |batch|
  {
    k < |verdicts| && Comes(verdicts, k) && verdicts[k] == Rejected(true) && batch[k] == id
  }

  /** How many of the first `n` publishes were acknowledged. */
  ghost function Acks(verdicts: seq<Verdict>, n: nat): nat
    requires n <= |verdicts|
  {
    if n == 0 then 0 else Acks(verdicts, n - 1) + if Comes(verdicts, n - 1) && verdicts[n - 1] == Acked then 1 else 0
  }

  ghost function Rejections(verdicts: seq<Verdict>, n: nat): nat
    requires n <= |verdicts|
  {
    if n == 0 then 0 else Rejections(verdicts, n - 1) + if Comes(verdicts, n - 1) && verdicts[n - 1] == Rejected(true) then 1 else 0
  }

  /** What the first `n` publishes appended to the topic. */
  ghost function Appended(batch: seq<Id>, verdicts: seq<Verdict>, n: nat): seq<Id>
    requires n <= |verdicts| <= |batch|
  {
    if n == 0 then []
    else Appended(batch, verdicts, n - 1) +
         if Comes(verdicts, n - 1) && (verdicts[n - 1] == Acked || (verdicts[n - 1].Outage? && verdicts[n - 1].appended)) then [batch[n - 1]] else []
  }

  /** A pass goes on exactly until the first outage or rejection it cannot note; the topic and the counts follow. */
  lemma {:induction false} PassByVerdicts(log: seq<Id>, batch: seq<Id>, verdicts: seq<Verdict>, n: nat)
    requires n <= |verdicts| <= |batch|
    ensures var p := Published(log, batch, verdicts, n);
            && (p.stopped <==> !Comes(verdicts, n)) && (p.doomed <==> Spoiled(verdicts, n))
            && p.log == log + Appended(batch, verdicts, n)
            && |p.done| == Acks(verdicts, n) && |p.rejected| == Rejections(verdicts, n)
  {
    if n > 0 {
      PassByVerdicts(log, batch, verdicts, n - 1);
      assert Comes(verdicts, n) <==> Comes(verdicts, n - 1) && (verdicts[n - 1] == Acked || verdicts[n - 1] == Rejected(true));
      assert !Comes(verdicts, n - 1) || !Spoiled(verdicts, n - 1);
    }
  }

  lemma {:induction false} IdsByVerdicts(log: seq<Id>, batch: seq<Id>, verdicts: seq<Verdict>, n: nat, id: Id)
    requires n <= |verdicts| <= |batch|
    ensures var p := Published(log, batch, verdicts, n);
            && (id in p.done <==> exists k: nat :: k < n && AckedAt(batch, verdicts, k, id))
            && (id in p.rejected <==> exists k: nat :: k < n && RejectedAt(batch, verdicts, k, id))
  {
    if n > 0 {
      IdsByVerdicts(log, batch, verdicts, n - 1, id);
      PassByVerdicts(log, batch, verdicts, n - 1);
      var p, p' := Published(log, batch, verdicts, n - 1), Published(log, batch, verdicts, n);
      if id in p'.done && id !in p.done { assert AckedAt(batch, verdicts, n - 1, id); }
      if id in p'.rejected && id !in p.rejected { assert RejectedAt(batch, verdicts, n - 1, id); }
    }
  }

  /** What was acknowledged is deleted, and nothing else, whether or not an outage ended the pass, if its transaction
      takes effect; if it does not, every row stays. */
  lemma AckedRowsGo(cfg: Config, table: Table, log: seq<Id>, batch: seq<Id>, verdicts: seq<Verdict>, now: int, how: Ending, id: Id)
    requires |verdicts| <= |batch| && id in table
    ensures id !in Left(cfg, table, Published(log, batch, verdicts, |verdicts|), now, how) <==>
              how != RolledBack && !Spoiled(verdicts, |verdicts|) && exists k: nat :: AckedAt(batch, verdicts, k, id)
  {
    hide Published, RejectDelay, AckedAt, RejectedAt, Spoiled;
    PassByVerdicts(log, batch, verdicts, |verdicts|);
    IdsByVerdicts(log, batch, verdicts, |verdicts|, id);
    forall k: nat | AckedAt(batch, verdicts, k, id) ensures k < |verdicts| { AckedInRange(batch, verdicts, k, id); }
  }

  lemma AckedInRange(batch: seq<Id>, verdicts: seq<Verdict>, k: nat, id: Id)
    requires |verdicts| <= |batch|
    ensures AckedAt(batch, verdicts, k, id) || RejectedAt(batch, verdicts, k, id) ==> k < |verdicts|
  {
  }

  /** Outages never count: whatever a pass met and however it ended, a row it leaves is as it was, or has one rejection
      more and is put off, and that exactly when its own publish was rejected, no outage came before, and the
      transaction took effect. */
  lemma OutagesNeverCount(cfg: Config, table: Table, log: seq<Id>, batch: seq<Id>, verdicts: seq<Verdict>, now: int, how: Ending, id: Id)
    requires |verdicts| <= |batch|
    requires id in Left(cfg, table, Published(log, batch, verdicts, |verdicts|), now, how)
    ensures var row := Left(cfg, table, Published(log, batch, verdicts, |verdicts|), now, how)[id];
            && id in table
            && row == if how != RolledBack && !Spoiled(verdicts, |verdicts|) && exists k: nat :: RejectedAt(batch, verdicts, k, id)
                      then Row(table[id].task, table[id].rejections + 1, Some(now + RejectDelay(cfg, table[id].rejections))) else table[id]
  {
    hide Published, RejectDelay, AckedAt, RejectedAt, Spoiled;
    PassByVerdicts(log, batch, verdicts, |verdicts|);
    IdsByVerdicts(log, batch, verdicts, |verdicts|, id);
    forall k: nat | RejectedAt(batch, verdicts, k, id) ensures k < |verdicts| { AckedInRange(batch, verdicts, k, id); }
  }

  /** Without outages every row of the batch is acknowledged or rejected. */
  lemma {:induction false} AllTaken(log: seq<Id>, batch: seq<Id>, verdicts: seq<Verdict>, n: nat)
    requires n <= |batch| && n <= |verdicts| && forall i :: 0 <= i < n ==> verdicts[i] == Acked || verdicts[i] == Rejected(true)
    ensures var p := Published(log, batch, verdicts, n);
            !p.stopped && !p.doomed && forall id :: id in p.done || id in p.rejected <==> id in batch[..n]
  {
    if n > 0 {
      AllTaken(log, batch, verdicts, n - 1);
      assert batch[..n] == batch[..n - 1] + [batch[n - 1]];
    }
  }

  lemma {:induction false} BudgetFalls(cfg: Config, table: Table, p: Pass, batch: seq<Id>, now: int, n: nat)
    requires forall id :: id in p.done || id in p.rejected <==> id in batch
    requires forall id :: id in batch ==> id in table && Live(cfg, table[id])
    ensures Budget(cfg, Merged(cfg, table, p, now), n) + Below(batch, n) <= Budget(cfg, table, n)
  {
    if n > 0 { BudgetFalls(cfg, table, p, batch, now, n - 1); }
  }

  lemma {:induction false} BelowIsCount(batch: seq<Id>, n: nat)
    requires forall i, j :: 0 <= i < j < |batch| ==> batch[i] < batch[j]
    requires forall id :: id in batch ==> id < n
    ensures Below(batch, n) == |batch|
  {
    forall i | 0 <= i < |batch| ensures 0 <= batch[i] < n { assert batch[i] in batch; }
    if n == 0 {
      assert |batch| == 0;
    } else if |batch| > 0 && batch[|batch| - 1] == n - 1 {
      var init := batch[..|batch| - 1];
      assert batch == init + [n - 1];
      BelowIsCount(init, n - 1);
      BelowSame(init, batch, n - 1);
    } else {
      assert forall i :: 0 <= i < |batch| ==> batch[i] < n - 1;
      BelowIsCount(batch, n - 1);
    }
  }

  lemma {:induction false} BelowSame(a: seq<Id>, b: seq<Id>, n: nat)
    requires forall id :: 0 <= id < n ==> (id in a <==> id in b)
    ensures Below(a, n) == Below(b, n)
  {
    if n > 0 { BelowSame(a, b, n - 1); }
  }

  /** A committed pass without outages lowers the budget of the table by at least the size of its batch. */
  lemma PassLowersBudget(cfg: Config, table: Table, log: seq<Id>, batch: seq<Id>, verdicts: seq<Verdict>, now: int, n: nat)
    requires cfg.Valid() && IsBatch(cfg, batch, table, now) && |verdicts| == |batch|
    requires forall i :: 0 <= i < |verdicts| ==> verdicts[i] == Acked || verdicts[i] == Rejected(true)
    requires forall id :: id in table ==> id < n
    ensures var after := Left(cfg, table, Published(log, batch, verdicts, |batch|), now, Committed);
            Budget(cfg, after, n) + |batch| <= Budget(cfg, table, n)
  {
    AllTaken(log, batch, verdicts, |batch|);
    assert batch[..|batch|] == batch;
    BudgetFalls(cfg, table, Published(log, batch, verdicts, |batch|), batch, now, n);
    BelowIsCount(batch, n);
  }

  /** The budget is spent exactly when every row is dead. */
  lemma {:induction false} SpentMeansDead(cfg: Config, table: Table, n: nat)
    ensures Budget(cfg, table, n) == 0 <==> forall id :: id in table && id < n ==> !Live(cfg, table[id])
  {
    if n > 0 { SpentMeansDead(cfg, table, n - 1); }
  }

  /** One committed pass without outages, over a batch that is not empty, leads from one table to the next. */
  ghost predicate Drains(cfg: Config, table: Table, table': Table) {
    exists log, batch, verdicts, now ::
      && IsBatch(cfg, batch, table, now) && batch != [] && |verdicts| == |batch|
      && (forall i :: 0 <= i < |verdicts| ==> verdicts[i] == Acked || verdicts[i] == Rejected(true))
      && table' == Left(cfg, table, Published(log, batch, verdicts, |batch|), now, Committed)
  }

  /** With no new events and no outages there are at most as many such passes as the budget. */
  lemma {:induction false} DrainEnds(cfg: Config, tables: seq<Table>, n: nat)
    requires cfg.Valid() && |tables| >= 1 && (forall i :: 0 <= i < |tables| - 1 ==> Drains(cfg, tables[i], tables[i + 1]))
    requires forall id :: id in tables[0] ==> id < n
    ensures |tables| - 1 + Budget(cfg, tables[|tables| - 1], n) <= Budget(cfg, tables[0], n)
    ensures forall id :: id in tables[|tables| - 1] ==> id in tables[0]
  {
    if |tables| > 1 {
      var init, k := tables[..|tables| - 1], |tables| - 2;
      DrainEnds(cfg, init, n);
      assert init[|init| - 1] == tables[k] && init[0] == tables[0];
      forall id | id in tables[k] ensures id < n { assert id in tables[0]; }
      assert Drains(cfg, tables[k], tables[k + 1]);
      var log, batch, verdicts, now :|
        && IsBatch(cfg, batch, tables[k], now) && batch != [] && |verdicts| == |batch|
        && (forall i :: 0 <= i < |verdicts| ==> verdicts[i] == Acked || verdicts[i] == Rejected(true))
        && tables[k + 1] == Left(cfg, tables[k], Published(log, batch, verdicts, |batch|), now, Committed);
      PassLowersBudget(cfg, tables[k], log, batch, verdicts, now, n);
    }
  }

  /** And a batch is empty only when no row is due: once every live row is due, only dead rows can remain. */
  lemma EmptyBatchMeansDead(cfg: Config, table: Table, now: int)
    requires cfg.Valid() && IsBatch(cfg, [], table, now)
    requires forall id :: id in table && Live(cfg, table[id]) ==> Due(cfg, table[id], now)
    ensures forall id :: id in table ==> table[id].rejections >= cfg.maxAttempts
  {
  }

  // ------------------------------------------------------------ in place

  class Outbox {
    const cfg: Config
    var table: Table
    var log: seq<Id>            // the topic

    constructor (cfg: Config)
      requires cfg.Valid()
      ensures this.cfg == cfg && table == map[] && log == []
    {
      this.cfg := cfg;
      table, log := map[], [];
    }

    /** One pass over `batch`, the select's answer; it stops early after |verdicts| records on shutdown. */
    method RelayOnce(batch: seq<Id>, verdicts: seq<Verdict>, now: int, how: Ending) returns (sent: nat, taken: nat, err: bool)
      requires cfg.Valid() && IsBatch(cfg, batch, table, now) && |verdicts| <= |batch|
      modifies this
      ensures var p := Published(old(log), batch, verdicts, |verdicts|);
              && log == p.log && table == Left(cfg, old(table), p, now, how)
      ensures log == old(log) + Appended(batch, verdicts, |verdicts|)
      ensures err == (!Comes(verdicts, |verdicts|) || (batch != [] && how != Committed))
      ensures Spoiled(verdicts, |verdicts|) || how != Committed ==> sent == taken == 0
      ensures !Spoiled(verdicts, |verdicts|) && how == Committed ==>
                sent == Acks(verdicts, |verdicts|) && taken == sent + Rejections(verdicts, |verdicts|)
    {
      hide RejectDelay, IsBatch, Published, Noted, Merged, Appended, Acks, Rejections, Comes, Spoiled;
      PassByVerdicts(log, batch, verdicts, |verdicts|);
      NothingMerged(cfg, table, batch, verdicts, log, now);
      if batch == [] { return 0, 0, false; }
      var work, done, stop, doomed;
      ghost var rejected;
      work, done, rejected, taken, stop, doomed := PublishBatch(batch, verdicts, now);
      err := stop;
      if doomed || how.RolledBack? {
        return 0, 0, true;
      }
      NotedThenDeleted(cfg, table, Pass(log, done, rejected, stop, doomed), now, work);
      table := map id | id in work && id !in done :: work[id];
      if how.ReplyLost? {
        return 0, 0, true;
      }
      sent := |done|;
    }

    /** The loop of a pass: `work` is the transaction's view of the rows, `done` what is to be deleted from it. */
    method PublishBatch(batch: seq<Id>, verdicts: seq<Verdict>, now: int)
      returns (work: Table, done: seq<Id>, ghost rejected: seq<Id>, taken: nat, stop: bool, doomed: bool)
      requires IsBatch(cfg, batch, table, now) && |verdicts| <= |batch|
      modifies this`log
      ensures Published(old(log), batch, verdicts, |verdicts|) == Pass(log, done, rejected, stop, doomed)
      ensures taken == |done| + |rejected| && (doomed ==> stop)
      ensures work == Noted(cfg, table, rejected, now)
    {
      hide RejectDelay, Noted, Merged, Due;
      work := table;
      NothingNoted(cfg, table, now);
      done, rejected, taken, stop, doomed := [], [], 0, false, false;
      var i := 0;
      while i < |verdicts| && !stop
        invariant 0 <= i <= |verdicts|
        invariant Published(old(log), batch, verdicts, i) == Pass(log, done, rejected, stop, doomed)
        invariant taken == |done| + |rejected| && (doomed ==> stop)
        invariant forall id :: id in rejected ==> id in batch[..i]
        invariant work == Noted(cfg, table, rejected, now)
      {
        var x, v := batch[i], verdicts[i];
        assert x !in batch[..i] && x in batch;
        assert batch[..i + 1] == batch[..i] + [x];
        match v {
          case Acked =>
            log := log + [x];
            done := done + [x];
            taken := taken + 1;
          case Rejected(recorded) =>
            if recorded {
              taken := taken + 1;
              OneMoreNoted(cfg, table, rejected, now, x);
              work := work[x := Row(work[x].task, work[x].rejections + 1, Some(now + RejectDelay(cfg, work[x].rejections)))];
              rejected := rejected + [x];
            } else {
              stop, doomed := true, true;
            }
          case Outage(appended, recorded) =>
            if appended { log := log + [x]; }
            stop, doomed := true, !recorded;
        }
        i := i + 1;
      }
      StopsThere(old(log), batch, verdicts, i);
    }
  }

  /** The rows with the rejections of a pass noted in them. */
  function Noted(cfg: Config, table: Table, rejected: seq<Id>, now: int): Table {
    map id | id in table ::
      if id in rejected then Row(table[id].task, table[id].rejections + 1, Some(now + RejectDelay(cfg, table[id].rejections)))
      else table[id]
  }

  lemma NothingMerged(cfg: Config, table: Table, batch: seq<Id>, verdicts: seq<Verdict>, log: seq<Id>, now: int)
    requires |verdicts| <= |batch|
    ensures batch == [] ==> Published(log, batch, verdicts, |verdicts|) == Pass(log, [], [], false, false)
    ensures Merged(cfg, table, Pass(log, [], [], false, false), now) == table
  {
  }

  lemma NothingNoted(cfg: Config, table: Table, now: int)
    ensures Noted(cfg, table, [], now) == table
  {
  }

  lemma OneMoreNoted(cfg: Config, table: Table, rejected: seq<Id>, now: int, x: Id)
    requires x in table && x !in rejected
    ensures Noted(cfg, table, rejected + [x], now)
            == Noted(cfg, table, rejected, now)[x := Row(table[x].task, table[x].rejections + 1, Some(now + RejectDelay(cfg, table[x].rejections)))]
    ensures x in Noted(cfg, table, rejected, now) && Noted(cfg, table, rejected, now)[x] == table[x]
  {
    hide RejectDelay;
  }

  /** Deleting the acknowledged rows from the noted ones leaves what the pass leaves. */
  lemma NotedThenDeleted(cfg: Config, table: Table, p: Pass, now: int, work: Table)
    requires work == Noted(cfg, table, p.rejected, now)
    ensures (map id | id in work && id !in p.done :: work[id]) == Merged(cfg, table, p, now)
  {
    hide RejectDelay;
  }

  lemma {:induction false} StopsThere(log: seq<Id>, batch: seq<Id>, verdicts: seq<Verdict>, i: nat)
    requires i <= |verdicts| <= |batch| && (i == |verdicts| || Published(log, batch, verdicts, i).stopped)
    ensures Published(log, batch, verdicts, |verdicts|) == Published(log, batch, verdicts, i)
    decreases |verdicts| - i
  {
    if i < |verdicts| { StopsThere(log, batch, verdicts, i + 1); }
  }

  // ------------------------------------------------------------ backoff

  function Min(a: int, b: int): int { if a < b then a else b }

  /** The delay after the n-th failure in a row: interval doubled n - 1 times, capped, then jittered into its upper half by `pick`. */
  method Backoff(n: int, interval: nat, maxDelay: nat, pick: nat) returns (d: nat)
    requires interval >= 1 && maxDelay >= 1
    ensures var full := Min(interval * Pow2(if n > 1 then n - 1 else 0), maxDelay);
            && full / 2 <= d <= full && d <= maxDelay
            && (pick <= full / 2 && full >= 2 ==> d == full / 2 + pick)
  {
    d := interval;
    var i := 1;
    while i < n && d < maxDelay
      invariant 1 <= i && (i <= n || i == 1)
      invariant d == interval * Pow2(i - 1)
    {
      d := d * 2;
      i := i + 1;
    }
    GrowsPast(interval, i - 1, if n > 1 then n - 1 else 0, maxDelay);
    d := Min(d, maxDelay);
    var half := d / 2;
    if half <= 0 { return; }
    d := half + (if pick <= half then pick else half);
  }

  lemma {:induction false} GrowsPast(interval: nat, i: nat, n: nat, maxDelay: nat)
    requires i <= n && (i == n || interval * Pow2(i) >= maxDelay)
    ensures Min(interval * Pow2(i), maxDelay) == Min(interval * Pow2(n), maxDelay)
    decreases n - i
  {
    if i < n {
      assert interval * Pow2(i + 1) == 2 * (interval * Pow2(i));
      GrowsPast(interval, i + 1, n, maxDelay);
    }
  }
}
