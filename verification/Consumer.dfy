/**
The consumer of libs/kafka/consumer.go: process a batch in order with retries and
dead-lettering, mark what finished, commit it, and react to group changes.

The handler, the dead-letter topic and the broker's answers are parameters. What the class
does to `pending` and `owned` is given by functions; ConsumerGroup runs many members of them.
*/
module Consumer {
  datatype Option<+T> = None | Some(value: T)

  datatype Partition = Partition(topic: string, index: int)

  datatype Record = Record(tp: Partition, off: nat)

  /** How a handler attempt, or a dead-letter publish, ends: accepted, or failed, with whether the error is
      permanent, whether the loop is draining by then, and whether the wait before the next try runs to its end. */
  datatype Reply = Accept | Fail(permanent: bool, draining: bool, waited: bool)

  /** How a record fares: skipped (its partition is not owned), accepted by the handler, parked on the dead-letter
      topic, left by a draining loop, or stuck, which stops the loop. */
  datatype Fate = Skipped | Handled | Parked | Draining | Stuck

  predicate IsDone(f: Fate) { f.Handled? || f.Parked? }

  // ------------------------------------------------------------ one record

  /** Attempt `a` of the handler fails and is retried. */
  predicate Retried(replies: nat -> Reply, a: nat) {
    replies(a).Fail? && !replies(a).permanent && !replies(a).draining && replies(a).waited
  }

  /** Publish `n` to the dead-letter topic fails and is retried. */
  predicate Republished(replies: nat -> Reply, n: nat) {
    replies(n).Fail? && !replies(n).draining && replies(n).waited
  }

  /** The handler's attempts 1 .. a end with the record given up: the last fails for good, those before were retried. */
  ghost predicate GivesUp(handler: nat -> Reply, maxRetries: nat, a: nat) {
    && 1 <= a <= maxRetries + 1 && (forall i :: 1 <= i < a ==> Retried(handler, i))
    && handler(a).Fail? && !handler(a).draining && (handler(a).permanent || a == maxRetries + 1)
  }

  /** Attempt `a` of the handler, the first that is not retried, accepts the record. */
  ghost predicate AcceptsAt(handler: nat -> Reply, maxRetries: nat, a: nat) {
    1 <= a <= maxRetries + 1 && (forall i :: 1 <= i < a ==> Retried(handler, i)) && handler(a).Accept?
  }

  /** Attempt `a` of the handler finds the loop draining, or is cut off while it waits for the next. */
  ghost predicate CutOffAt(handler: nat -> Reply, maxRetries: nat, a: nat) {
    && 1 <= a <= maxRetries + 1 && (forall i :: 1 <= i < a ==> Retried(handler, i)) && handler(a).Fail?
    && (handler(a).draining || (!handler(a).permanent && !handler(a).waited && a <= maxRetries))
  }

  /** Publish `n` to the dead-letter topic, the first that is not retried, is taken. */
  ghost predicate TakenAt(deadLetter: nat -> Reply, maxRetries: nat, n: nat) {
    n <= maxRetries && (forall i :: 0 <= i < n ==> Republished(deadLetter, i)) && deadLetter(n).Accept?
  }

  ghost predicate PublishCutOffAt(deadLetter: nat -> Reply, maxRetries: nat, n: nat) {
    && n <= maxRetries && (forall i :: 0 <= i < n ==> Republished(deadLetter, i)) && deadLetter(n).Fail?
    && (deadLetter(n).draining || (!deadLetter(n).waited && n < maxRetries))
  }

  /** All the publishes the dead-letter topic gets fail. */
  ghost predicate NeverTaken(deadLetter: nat -> Reply, maxRetries: nat) {
    && (forall i :: 0 <= i < maxRetries ==> Republished(deadLetter, i))
    && deadLetter(maxRetries).Fail? && !deadLetter(maxRetries).draining
  }

  /** Everything processBatch depends on for one record: whether the loop is draining when it comes to it, and the replies. */
  datatype Run = Run(stopFirst: bool, handler: nat -> Reply, deadLetter: nat -> Reply)

  ghost predicate HandlerGaveUp(handler: nat -> Reply, maxRetries: nat) { exists a: nat :: GivesUp(handler, maxRetries, a) }

  /** What the replies make of an owned record. */
  ghost predicate Fares(handler: nat -> Reply, deadLetter: nat -> Reply, dlqEnabled: bool, maxRetries: nat, fate: Fate) {
    match fate
    case Skipped => false
    case Handled => exists a: nat :: AcceptsAt(handler, maxRetries, a)
    case Parked => dlqEnabled && HandlerGaveUp(handler, maxRetries) && exists n: nat :: TakenAt(deadLetter, maxRetries, n)
    case Stuck => HandlerGaveUp(handler, maxRetries) && (dlqEnabled ==> NeverTaken(deadLetter, maxRetries))
    case Draining =>
      || (exists a: nat :: CutOffAt(handler, maxRetries, a))
      || (dlqEnabled && HandlerGaveUp(handler, maxRetries) && exists n: nat :: PublishCutOffAt(deadLetter, maxRetries, n))
  }

  /** How an attempt that is not retried ends: 0 accepted, 1 given up, 2 cut off. */
  ghost predicate HandlerEnds(handler: nat -> Reply, maxRetries: nat, a: nat, kind: nat) {
    || (kind == 0 && AcceptsAt(handler, maxRetries, a))
    || (kind == 1 && GivesUp(handler, maxRetries, a))
    || (kind == 2 && CutOffAt(handler, maxRetries, a))
  }

  lemma HandlerEndsOnce(handler: nat -> Reply, maxRetries: nat, a: nat, kind: nat, b: nat, kind': nat)
    requires HandlerEnds(handler, maxRetries, a, kind) && HandlerEnds(handler, maxRetries, b, kind')
    ensures kind == kind'
  {
    if a < b { assert Retried(handler, a); }
    if b < a { assert Retried(handler, b); }
  }

  ghost predicate PublishEnds(deadLetter: nat -> Reply, maxRetries: nat, n: nat, kind: nat) {
    || (kind == 0 && TakenAt(deadLetter, maxRetries, n))
    || (kind == 1 && n == maxRetries && NeverTaken(deadLetter, maxRetries))
    || (kind == 2 && PublishCutOffAt(deadLetter, maxRetries, n))
  }

  lemma PublishEndsOnce(deadLetter: nat -> Reply, maxRetries: nat, n: nat, kind: nat, k: nat, kind': nat)
    requires PublishEnds(deadLetter, maxRetries, n, kind) && PublishEnds(deadLetter, maxRetries, k, kind')
    ensures kind == kind'
  {
    if n < k { assert Republished(deadLetter, n); }
    if k < n { assert Republished(deadLetter, k); }
  }

  /** The way an owned record ends, by its last handler attempt and its last publish. */
  ghost predicate EndsBy(handler: nat -> Reply, deadLetter: nat -> Reply, dlqEnabled: bool, maxRetries: nat, fate: Fate, a: nat, kind: nat, n: nat, kind': nat) {
    && kind <= 2 && HandlerEnds(handler, maxRetries, a, kind)
    && (kind == 1 && dlqEnabled ==> PublishEnds(deadLetter, maxRetries, n, kind'))
    && fate == if kind == 0 then Handled else if kind == 2 then Draining else if !dlqEnabled then Stuck
               else if kind' == 0 then Parked else if kind' == 1 then Stuck else Draining
  }

  lemma HasEnd(handler: nat -> Reply, deadLetter: nat -> Reply, dlqEnabled: bool, maxRetries: nat, fate: Fate) returns (a: nat, kind: nat, n: nat, kind': nat)
    requires Fares(handler, deadLetter, dlqEnabled, maxRetries, fate)
    ensures EndsBy(handler, deadLetter, dlqEnabled, maxRetries, fate, a, kind, n, kind')
  {
    hide AcceptsAt, GivesUp, CutOffAt, TakenAt, PublishCutOffAt, NeverTaken;
    a, kind, n, kind' := 0, 0, 0, 0;
    if fate.Handled? {
      a :| AcceptsAt(handler, maxRetries, a);
    } else if cut: nat :| fate.Draining? && CutOffAt(handler, maxRetries, cut) {
      a, kind := cut, 2;
    } else {
      a :| GivesUp(handler, maxRetries, a);
      kind := 1;
      if fate.Parked? { n :| TakenAt(deadLetter, maxRetries, n); }
      if fate.Stuck? { n, kind' := maxRetries, 1; }
      if fate.Draining? { n :| PublishCutOffAt(deadLetter, maxRetries, n); kind' := 2; }
    }
  }

  /** The replies leave a record one fate only. */
  lemma FateIsForced(handler: nat -> Reply, deadLetter: nat -> Reply, dlqEnabled: bool, maxRetries: nat, f: Fate, g: Fate)
    requires Fares(handler, deadLetter, dlqEnabled, maxRetries, f) && Fares(handler, deadLetter, dlqEnabled, maxRetries, g)
    ensures f == g
  {
    hide Fares, HandlerEnds, PublishEnds;
    var a, kind, n, kind' := HasEnd(handler, deadLetter, dlqEnabled, maxRetries, f);
    var b, kind2, k, kind2' := HasEnd(handler, deadLetter, dlqEnabled, maxRetries, g);
    HandlerEndsOnce(handler, maxRetries, a, kind, b, kind2);
    if kind == 1 && dlqEnabled { PublishEndsOnce(deadLetter, maxRetries, n, kind', k, kind2'); }
  }

  /** What becomes of one record: it is tried on the handler, and once that is hopeless on the dead-letter topic.
      `attempts` handler calls and `publishes` dead-letter publishes are made. */
  method Process(handler: nat -> Reply, deadLetter: nat -> Reply, dlqEnabled: bool, maxRetries: nat)
    returns (fate: Fate, attempts: nat, publishes: nat)
    ensures !fate.Skipped? && 1 <= attempts <= maxRetries + 1 && publishes <= maxRetries + 1
    ensures forall i :: 1 <= i < attempts ==> Retried(handler, i)
    ensures fate.Handled? <==> handler(attempts).Accept?
    ensures publishes > 0 ==> dlqEnabled && GivesUp(handler, maxRetries, attempts) && forall i :: 0 <= i < publishes - 1 ==> Republished(deadLetter, i)
    ensures fate.Parked? <==> publishes > 0 && deadLetter(publishes - 1).Accept?
    ensures fate.Stuck? ==> GivesUp(handler, maxRetries, attempts)
                            && (if dlqEnabled then publishes == maxRetries + 1 && NeverTaken(deadLetter, maxRetries) else publishes == 0)
    ensures fate.Draining? ==> if publishes == 0 then CutOffAt(handler, maxRetries, attempts)
                               else PublishCutOffAt(deadLetter, maxRetries, publishes - 1)
    ensures Fares(handler, deadLetter, dlqEnabled, maxRetries, fate)
  {
    attempts, publishes := 1, 0;
    var giveUp := false;
    while !giveUp
      invariant 1 <= attempts <= maxRetries + 1 && publishes == 0
      invariant forall i :: 1 <= i < attempts ==> Retried(handler, i)
      invariant giveUp ==> GivesUp(handler, maxRetries, attempts)
      decreases maxRetries + 1 - attempts, !giveUp
    {
      var r := handler(attempts);
      assert r.Accept? ==> AcceptsAt(handler, maxRetries, attempts);
      assert r.Fail? && r.draining ==> CutOffAt(handler, maxRetries, attempts);
      if r.Accept? { return Handled, attempts, 0; }
      if r.draining { return Draining, attempts, 0; }
      if r.permanent || attempts > maxRetries {
        giveUp := true;
      } else {
        assert !r.waited ==> CutOffAt(handler, maxRetries, attempts);
        if !r.waited { return Draining, attempts, 0; }
        attempts := attempts + 1;
      }
    }
    assert HandlerGaveUp(handler, maxRetries);
    if !dlqEnabled { return Stuck, attempts, 0; }
    while true
      invariant publishes <= maxRetries
      invariant forall i :: 0 <= i < publishes ==> Republished(deadLetter, i)
      decreases maxRetries - publishes
    {
      var r := deadLetter(publishes);
      assert r.Accept? ==> TakenAt(deadLetter, maxRetries, publishes);
      assert r.Fail? && (r.draining || (!r.waited && publishes < maxRetries)) ==> PublishCutOffAt(deadLetter, maxRetries, publishes);
      publishes := publishes + 1;
      if r.Accept? { return Parked, attempts, publishes; }
      if r.draining { return Draining, attempts, publishes; }
      if publishes > maxRetries { return Stuck, attempts, publishes; }
      if !r.waited { return Draining, attempts, publishes; }
    }
  }

  // ------------------------------------------------------------ pending offsets

  /** What a commit names: the next offsets of the pending partitions that are owned, of those in `only` if given. */
  function Offsets(pending: map<Partition, nat>, owned: set<Partition>, only: Option<set<Partition>>): map<Partition, nat> {
    map tp | tp in pending && tp in owned && (only.None? || tp in only.value) :: pending[tp] + 1
  }

  /** The pending offsets after the commit: those of partitions not owned are dropped, those committed forgotten. */
  function AfterCommit(pending: map<Partition, nat>, owned: set<Partition>, only: Option<set<Partition>>, ok: bool): map<Partition, nat> {
    map tp | tp in pending && tp in owned && !(ok && tp in Offsets(pending, owned, only)) :: pending[tp]
  }

  /** Marking the finished ones of the first `n` records. */
  function Marked(pending: map<Partition, nat>, records: seq<Record>, fates: seq<Fate>, n: nat): map<Partition, nat>
    requires n <= |fates| && n <= |records|
  {
    if n == 0 then pending
    else
      var p := Marked(pending, records, fates, n - 1);
      if IsDone(fates[n - 1]) then p[records[n - 1].tp := records[n - 1].off] else p
  }

  class Member {
    var pending: map<Partition, nat>
    var owned: set<Partition>
    const maxRetries: nat
    const dlqEnabled: bool

    constructor (maxRetries: nat, dlqEnabled: bool)
      ensures pending == map[] && owned == {} && this.maxRetries == maxRetries && this.dlqEnabled == dlqEnabled
    {
      this.maxRetries, this.dlqEnabled := maxRetries, dlqEnabled;
      pending, owned := map[], {};
    }

    /** Takes the records one after the other, marks those that are done, and breaks off at the first that is not.
        The fates are those of the records it came to. */
    method ProcessBatch(records: seq<Record>, runs: seq<Run>) returns (fates: seq<Fate>, err: bool)
      requires |runs| == |records|
      modifies this`pending
      ensures |fates| <= |records| && pending == Marked(old(pending), records, fates, |fates|)
      ensures forall i :: 0 <= i < |fates| ==> (fates[i].Skipped? <==> records[i].tp !in owned)
      ensures forall i :: 0 <= i < |fates| && records[i].tp in owned ==> Fares(runs[i].handler, runs[i].deadLetter, dlqEnabled, maxRetries, fates[i])
      ensures forall i :: 0 <= i < |fates| ==> !runs[i].stopFirst
      ensures forall i :: 0 <= i < |fates| - 1 ==> fates[i].Skipped? || IsDone(fates[i])
      ensures !err ==> |fates| == |records| && (fates != [] ==> fates[|fates| - 1].Skipped? || IsDone(fates[|fates| - 1]))
      ensures err ==> (fates != [] && (fates[|fates| - 1].Stuck? || fates[|fates| - 1].Draining?)) || (|fates| < |records| && runs[|fates|].stopFirst)
    {
      fates := [];
      var i := 0;
      while i < |records|
        invariant i == |fates| <= |records|
        invariant pending == Marked(old(pending), records, fates, i)
        invariant forall k :: 0 <= k < i ==> (fates[k].Skipped? <==> records[k].tp !in owned)
        invariant forall k :: 0 <= k < i && records[k].tp in owned ==> Fares(runs[k].handler, runs[k].deadLetter, dlqEnabled, maxRetries, fates[k])
        invariant forall k :: 0 <= k < i ==> !runs[k].stopFirst && (fates[k].Skipped? || IsDone(fates[k]))
      {
        ghost var before := fates;
        if runs[i].stopFirst { return fates, true; }
        var r := records[i];
        var fate := Skipped;
        if r.tp in owned {
          var attempts, publishes;
          fate, attempts, publishes := Process(runs[i].handler, runs[i].deadLetter, dlqEnabled, maxRetries);
        }
        fates := fates + [fate];
        MarkedSame(old(pending), records, before, fates, i);
        if fate.Draining? || fate.Stuck? { return fates, true; }
        if !fate.Skipped? { MarkDone(r); }
        i := i + 1;
      }
      err := false;
    }

    method MarkDone(r: Record)
      modifies this`pending
      ensures pending == old(pending)[r.tp := r.off]
    {
      pending := pending[r.tp := r.off];
    }

    /** `only` limits the commit, `ok` is the broker's answer; the result is what the broker was asked for. */
    method CommitLocked(only: Option<set<Partition>>, ok: bool) returns (offsets: map<Partition, nat>)
      modifies this`pending
      ensures offsets == Offsets(old(pending), owned, only)
      ensures pending == AfterCommit(old(pending), owned, only, ok)
      ensures forall tp :: tp in offsets <==> tp in old(pending) && tp in owned && (only.None? || tp in only.value)
      ensures forall tp :: tp in offsets ==> offsets[tp] == old(pending)[tp] + 1
      ensures forall tp :: tp in pending <==> tp in old(pending) && tp in owned && !(ok && tp in offsets)
      ensures forall tp :: tp in pending ==> pending[tp] == old(pending)[tp]
    {
      offsets := Collect(only);
      if offsets == map[] || !ok { return; }
      Settle(offsets);
    }

    /** The offsets to commit; those of partitions that are not owned are dropped on the way. */
    method Collect(only: Option<set<Partition>>) returns (offsets: map<Partition, nat>)
      modifies this`pending
      ensures offsets == Offsets(old(pending), owned, only)
      ensures pending == AfterCommit(old(pending), owned, only, false)
    {
      offsets := map[];
      var todo := pending.Keys;
      while todo != {}
        invariant todo <= old(pending).Keys
        invariant forall tp :: tp in offsets <==> tp in Offsets(old(pending), owned, only) && tp !in todo
        invariant forall tp :: tp in offsets ==> offsets[tp] == old(pending)[tp] + 1
        invariant forall tp :: tp in pending <==> tp in old(pending) && (tp in owned || tp in todo)
        invariant forall tp :: tp in pending ==> pending[tp] == old(pending)[tp]
        decreases |todo|
      {
        var tp :| tp in todo;
        todo := todo - {tp};
        if tp !in owned {
          pending := pending - {tp};
        } else if only.None? || tp in only.value {
          offsets := offsets[tp := pending[tp] + 1];
        }
      }
    }

    /** Forgets the offsets committed, unless they have moved on since. */
    method Settle(offsets: map<Partition, nat>)
      requires forall tp :: tp in offsets ==> tp in pending && offsets[tp] == pending[tp] + 1
      modifies this`pending
      ensures pending == old(pending) - offsets.Keys
    {
      var todo := offsets.Keys;
      while todo != {}
        invariant todo <= offsets.Keys
        invariant pending == old(pending) - (offsets.Keys - todo)
        decreases |todo|
      {
        var tp :| tp in todo;
        todo := todo - {tp};
        if pending[tp] == offsets[tp] - 1 {
          pending := pending - {tp};
        }
      }
    }

    method OnAssigned(parts: seq<Partition>)
      modifies this`owned
      ensures owned == old(owned) + set p | p in parts
    {
      for i := 0 to |parts|
        invariant owned == old(owned) + set p | p in parts[..i]
      {
        owned := owned + {parts[i]};
      }
    }

    /** The last commit for the revoked partitions (for all, when the slice is nil); a failed one is not kept for later. */
    method OnRevoked(parts: seq<Partition>, nilSlice: bool, ok: bool) returns (offsets: map<Partition, nat>)
      requires nilSlice ==> parts == []
      modifies this
      ensures var gone := set p | p in parts;
              var only := if nilSlice then None else Some(gone);
              && offsets == Offsets(old(pending), old(owned), only)
              && pending == AfterCommit(old(pending), old(owned), only, ok) - gone
              && owned == old(owned) - gone
    {
      offsets := CommitLocked(if nilSlice then None else Some(set p | p in parts), ok);
      ghost var kept := pending;
      for i := 0 to |parts|
        invariant pending == kept - set p | p in parts[..i]
        invariant owned == old(owned)
      {
        pending := pending - {parts[i]};
      }
      Forget(parts);
    }

    /** The broker hears nothing: what was pending on the partitions is given up with them. */
    method OnLost(parts: seq<Partition>)
      modifies this
      ensures var gone := set p | p in parts; pending == old(pending) - gone && owned == old(owned) - gone
    {
      for i := 0 to |parts|
        invariant pending == old(pending) - set p | p in parts[..i]
        invariant owned == old(owned)
      {
        if parts[i] in pending {
          pending := pending - {parts[i]};
        }
      }
      Forget(parts);
    }

    method Forget(gone: seq<Partition>)
      modifies this`owned
      ensures owned == old(owned) - set p | p in gone
    {
      for i := 0 to |gone|
        invariant owned == old(owned) - set p | p in gone[..i]
      {
        owned := owned - {gone[i]};
      }
    }
  }

  lemma {:induction false} MarkedSame(pending: map<Partition, nat>, records: seq<Record>, fates: seq<Fate>, more: seq<Fate>, n: nat)
    requires n <= |fates| <= |more| && n <= |records| && fates == more[..|fates|]
    ensures Marked(pending, records, fates, n) == Marked(pending, records, more, n)
  {
    if n > 0 { MarkedSame(pending, records, fates, more, n - 1); }
  }

  /** What is marked is a per-partition prefix: the pending offset of a partition the batch touched is that of
      its last finished record, and every record of it before that one is finished too. */
  lemma {:induction false} MarkedIsPrefix(pending: map<Partition, nat>, records: seq<Record>, fates: seq<Fate>, n: nat, i: nat)
    requires n <= |fates| && n <= |records| && i < n
    requires forall k :: 0 <= k < n - 1 ==> IsDone(fates[k]) || fates[k].Skipped?
    requires forall k, l :: 0 <= k < n && 0 <= l < n && records[k].tp == records[l].tp ==> (fates[k].Skipped? <==> fates[l].Skipped?)
    requires IsDone(fates[i])
    ensures records[i].tp in Marked(pending, records, fates, n)
    ensures exists k :: i <= k < n && records[k].tp == records[i].tp && IsDone(fates[k]) && Marked(pending, records, fates, n)[records[i].tp] == records[k].off
                        && forall l :: 0 <= l <= k && records[l].tp == records[i].tp ==> IsDone(fates[l])
  {
    if IsDone(fates[n - 1]) && records[n - 1].tp == records[i].tp {
      assert Marked(pending, records, fates, n)[records[i].tp] == records[n - 1].off;
    } else {
      MarkedIsPrefix(pending, records, fates, n - 1, i);
    }
  }

  /** A partition none of whose records is done keeps its pending offset, or has none. */
  lemma {:induction false} UndoneIsNotMarked(pending: map<Partition, nat>, records: seq<Record>, fates: seq<Fate>, n: nat, tp: Partition)
    requires n <= |fates| && n <= |records| && forall i :: 0 <= i < n && records[i].tp == tp ==> !fates[i].Handled? && !fates[i].Parked?
    ensures tp in Marked(pending, records, fates, n) <==> tp in pending
    ensures tp in pending ==> Marked(pending, records, fates, n)[tp] == pending[tp]
  {
    if n > 0 { UndoneIsNotMarked(pending, records, fates, n - 1, tp); }
  }
}
