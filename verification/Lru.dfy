/**
The dedupe of services/consumer/internal/worker: a bounded set of event ids kept as a
recency list and an index, and the handler that skips an id it finds there.

The specification is the whole history of touches: `Recency` lists the distinct ids of a
history, the last touched first, and the list is always its first `size` ids.
*/
module Lru {
  /** An event id, never the empty string: an event without one is `Event(NoId, ...)`. */
  datatype Id = Id(text: string)

  datatype EventId = NoId | SomeId(id: Id)

  // ------------------------------------------------------------ specification

  function Without(s: seq<Id>, id: Id): seq<Id> {
    if s == [] then []
    else if s[0] == id then Without(s[1..], id)
    else [s[0]] + Without(s[1..], id)
  }

  lemma {:induction false} WithoutMembers(s: seq<Id>, id: Id)
    ensures |Without(s, id)| <= |s|
    ensures forall x :: x in Without(s, id) <==> x in s && x != id
  {
    if s != [] {
      WithoutMembers(s[1..], id);
      assert s == [s[0]] + s[1..];
    }
  }

  /** The distinct ids of a history of touches, the last touched first. */
  ghost function Recency(touches: seq<Id>): seq<Id> {
    if touches == [] then []
    else
      var id := touches[|touches| - 1];
      [id] + Without(Recency(touches[..|touches| - 1]), id)
  }

  ghost predicate Distinct(s: seq<Id>) {
    forall i, j :: 0 <= i < j < |s| ==> s[i] != s[j]
  }

  function Ids(s: seq<Id>): set<Id> { set x | x in s }

  function First(s: seq<Id>, size: int): seq<Id> {
    if size <= 0 then [] else if size >= |s| then s else s[..size]
  }

  lemma {:induction false} WithoutDistinct(s: seq<Id>, id: Id)
    requires Distinct(s)
    ensures Distinct(Without(s, id))
    ensures id in s ==> |Without(s, id)| == |s| - 1
    ensures id !in s ==> Without(s, id) == s
  {
    if s != [] {
      assert forall x :: x in s[1..] ==> x in s;
      WithoutDistinct(s[1..], id);
      WithoutMembers(s[1..], id);
      if s[0] == id {
        assert id !in s[1..];
      } else {
        assert s == [s[0]] + s[1..];
        assert s[0] !in s[1..];
      }
    }
  }

  lemma {:induction false} RecencyDistinct(touches: seq<Id>)
    ensures Distinct(Recency(touches))
    ensures forall x :: x in Recency(touches) <==> x in touches
  {
    if touches != [] {
      var init, id := touches[..|touches| - 1], touches[|touches| - 1];
      RecencyDistinct(init);
      WithoutDistinct(Recency(init), id);
      WithoutMembers(Recency(init), id);
      assert touches == init + [id];
    }
  }

  /** Without the id at place `k` a list is what is before and what is after it. */
  lemma {:induction false} WithoutAt(s: seq<Id>, k: nat)
    requires Distinct(s) && k < |s|
    ensures Without(s, s[k]) == s[..k] + s[k + 1..]
  {
    var tail := s[1..];
    assert s[0] !in tail;
    if k == 0 {
      TailDistinct(s);
      WithoutDistinct(tail, s[0]);
    } else {
      TailDistinct(s);
      WithoutAt(tail, k - 1);
      assert tail[k - 1] == s[k] != s[0];
      assert [s[0]] + tail[..k - 1] == s[..k] && tail[k..] == s[k + 1..];
    }
  }

  lemma TailDistinct(s: seq<Id>)
    requires Distinct(s) && s != []
    ensures Distinct(s[1..])
  {
  }

  /** Removing an id from a list and then cutting it is cutting the list one later and then removing. */
  lemma CutThenRemove(s: seq<Id>, id: Id, n: nat)
    requires Distinct(s) && id in First(s, n)
    ensures First(Without(s, id), n - 1) == Without(First(s, n), id)
  {
    hide Without;
    var f := First(s, n);
    var k :| 0 <= k < |f| && f[k] == id;
    WithoutAt(s, k);
    FirstDistinct(s, n);
    WithoutAt(f, k);
  }

  lemma FirstDistinct(s: seq<Id>, n: nat)
    requires Distinct(s)
    ensures Distinct(First(s, n))
  {
  }

  lemma CutWithout(s: seq<Id>, id: Id, n: nat)
    requires Distinct(s) && id !in First(s, n) && n > 0
    ensures First(Without(s, id), n - 1) == First(s, n - 1)
  {
    hide Without, Distinct;
    if id in s {
      var k :| 0 <= k < |s| && s[k] == id;
      assert forall j :: 0 <= j < |First(s, n)| ==> s[j] == First(s, n)[j];
      WithoutAt(s, k);
    } else {
      WithoutDistinct(s, id);
    }
  }

  /** A touch moves an id that is remembered, or adds one and forgets the oldest, exactly as the history says. */
  lemma TouchTracksHistory(touches: seq<Id>, id: Id, size: int)
    ensures var order, order' := First(Recency(touches), size), First(Recency(touches + [id]), size);
            order' == if id in order then [id] + Without(order, id) else First([id] + order, size)
  {
    var r := Recency(touches);
    RecencyDistinct(touches);
    assert (touches + [id])[..|touches|] == touches;
    var r' := [id] + Without(r, id);
    if size > 0 {
      var order := First(r, size);
      assert First(r', size) == [id] + First(Without(r, id), size - 1);
      if id in order {
        CutThenRemove(r, id, size);
      } else {
        CutWithout(r, id, size);
        assert First([id] + order, size) == [id] + First(r, size - 1);
      }
    }
  }

  /** `id` is at place `k` of `r`, and the ids ahead of it are those of `after`. */
  ghost predicate AheadOf(r: seq<Id>, k: int, id: Id, after: seq<Id>) {
    0 <= k < |r| && r[k] == id && forall x :: x in r[..k] <==> x in after
  }

  /** The ids ahead of `id` in the recency of a history are those touched after its last touch. */
  lemma {:induction false} AheadWereTouched(before: seq<Id>, id: Id, after: seq<Id>) returns (k: nat)
    requires id !in after
    ensures AheadOf(Recency(before + [id] + after), k, id, after)
  {
    var all := before + [id] + after;
    if after == [] {
      assert all[..|all| - 1] == before;
      k := 0;
    } else {
      var init, x := after[..|after| - 1], after[|after| - 1];
      assert all[..|all| - 1] == before + [id] + init;
      var l := AheadWereTouched(before, id, init);
      var r := Recency(before + [id] + init);
      SplitWithout(r, x, l);
      var cut := Without(r[..l], x);
      WithoutMembers(r[..l], x);
      assert Recency(all) == [x] + (cut + [id] + Without(r[l + 1..], x));
      k := |cut| + 1;
      assert Recency(all)[..k] == [x] + cut && Recency(all)[k] == id;
      assert after == init + [x];
    }
  }

  lemma {:induction false} SplitWithout(s: seq<Id>, x: Id, k: nat)
    requires k < |s| && s[k] != x
    ensures Without(s, x) == Without(s[..k], x) + [s[k]] + Without(s[k + 1..], x)
  {
    if k > 0 {
      assert s[1..][..k - 1] == s[..k][1..] && s[1..][k..] == s[k + 1..];
      SplitWithout(s[1..], x, k - 1);
    }
  }

  /** An id touched and since forgotten: at least `size` other distinct ids were touched after it. */
  lemma ForgottenAfterSize(before: seq<Id>, id: Id, after: seq<Id>, size: nat)
    requires id !in after && id !in First(Recency(before + [id] + after), size)
    ensures |Ids(after)| >= size
  {
    var r := Recency(before + [id] + after);
    var k := AheadWereTouched(before, id, after);
    RecencyDistinct(before + [id] + after);
    assert forall i :: 0 <= i < |r| && i < size ==> r[i] == First(r, size)[i];
    CountDistinct(r[..k]);
    assert Ids(r[..k]) == Ids(after);
  }

  lemma {:induction false} CountDistinct(s: seq<Id>)
    requires Distinct(s)
    ensures |Ids(s)| == |s|
  {
    if s != [] {
      var init, x := s[..|s| - 1], s[|s| - 1];
      CountDistinct(init);
      assert x !in init;
      assert Ids(s) == Ids(init) + {x};
    }
  }

  /** The last touch of an id in a sequence that has one. */
  lemma {:induction false} LastTouch(s: seq<Id>, id: Id) returns (k: nat)
    requires id in s
    ensures k < |s| && s[k] == id && id !in s[k + 1..]
  {
    k := |s| - 1;
    if s[k] != id {
      var init := s[..|s| - 1];
      assert s == init + [s[k]];
      var last := k;
      k := LastTouch(init, id);
      assert s[k + 1..] == init[k + 1..] + [s[last]];
    }
  }

  /** However often it was touched in between. */
  lemma ForgottenBetween(before: seq<Id>, id: Id, between: seq<Id>, size: nat)
    requires id !in First(Recency(before + [id] + between), size)
    ensures |Ids(between) - {id}| >= size
  {
    hide Recency, Without;
    var rest, after := before, between;
    if id in between {
      var l := LastTouch(between, id);
      rest, after := before + [id] + between[..l], between[l + 1..];
      assert between == between[..l] + [id] + between[l + 1..];
      assert before + [id] + between == rest + [id] + after;
    }
    ForgottenAfterSize(rest, id, after, size);
    assert Ids(after) <= Ids(between) - {id};
    Subset(Ids(after), Ids(between) - {id});
  }

  lemma Subset(s: set<Id>, t: set<Id>)
    requires s <= t
    ensures |s| <= |t|
  {
    assert t == s + (t - s);
  }

  /** As many ids are remembered as were touched, up to `size`, the last touched first of all. */
  lemma RemembersUpToSize(touches: seq<Id>, size: nat)
    ensures |First(Recency(touches), size)| == if |Ids(touches)| < size then |Ids(touches)| else size
    ensures touches != [] && size > 0 ==> First(Recency(touches), size)[0] == touches[|touches| - 1]
  {
    RecencyDistinct(touches);
    CountDistinct(Recency(touches));
    assert Ids(Recency(touches)) == Ids(touches);
  }

  // ------------------------------------------------------------ in place

  /** The bounded set: a list, front most recent, and the index of its ids. */
  class Lru {
    const size: int
    var order: seq<Id>
    var items: set<Id>

    /** The list agrees with a history of touches, the index with the list. */
    ghost predicate Remembers(touches: seq<Id>)
      reads this
    {
      items == Ids(order) && order == First(Recency(touches), size)
    }

    constructor (size: int)
      ensures this.size == size && Remembers([])
    {
      this.size := size;
      order, items := [], {};
    }

    /** Membership; a hit is a touch, a miss is not. */
    method Contains(id: Id, ghost touches: seq<Id>) returns (hit: bool)
      requires Remembers(touches)
      modifies this
      ensures hit <==> id in old(order)
      ensures !hit ==> order == old(order)
      ensures Remembers(if hit then touches + [id] else touches)
    {
      if id in items {
        MoveToFront(id, touches);
        return true;
      }
      hit := false;
    }

    /** A touch: `id` comes to the front, and with too many ids the back one goes. */
    method Add(id: Id, ghost touches: seq<Id>)
      requires Remembers(touches)
      modifies this
      ensures Remembers(touches + [id])
    {
      hide Recency, Without;
      if id in items {
        MoveToFront(id, touches);
        return;
      }
      TouchTracksHistory(touches, id, size);
      RecencyDistinct(touches);
      assert Distinct([id] + order);
      order, items := [id] + order, items + {id};
      assert items == Ids(order);
      if |order| > size {
        var oldest := order[|order| - 1];
        ghost var kept := order[..|order| - 1];
        assert order == kept + [oldest] && oldest !in kept;
        assert Ids(order) == Ids(kept) + {oldest};
        order, items := order[..|order| - 1], items - {oldest};
      }
    }

    method MoveToFront(id: Id, ghost touches: seq<Id>)
      requires Remembers(touches) && id in items
      modifies this`order
      ensures Remembers(touches + [id])
    {
      TouchTracksHistory(touches, id, size);
      WithoutMembers(order, id);
      order := [id] + Without(order, id);
    }
  }

  // ------------------------------------------------------------ the worker

  /** A delivery as the handler reads it: undecodable or of an unknown type, or an event that may carry an id. */
  datatype Delivery = Undecodable | UnknownType | Event(eid: EventId, injectFails: bool)

  datatype Answer = Applied | Duplicate | Rejected | Failed

  /** What the handler does with a delivery, given the ids it remembers. */
  function Answered(order: seq<Id>, d: Delivery): Answer {
    match d
    case Undecodable => Rejected
    case UnknownType => Rejected
    case Event(eid, injectFails) =>
      if eid.SomeId? && eid.id in order then Duplicate
      else if injectFails then Failed
      else Applied
  }

  /** The touches a delivery makes. */
  function TouchesOf(order: seq<Id>, d: Delivery): seq<Id> {
    if (Answered(order, d) == Applied || Answered(order, d) == Duplicate) && d.eid.SomeId? then [d.eid.id] else []
  }

  class Worker {
    const seen: Lru
    ghost var touches: seq<Id>
    var applied: nat
    var duplicates: nat
    var rejected: nat

    ghost predicate Valid()
      reads this, seen
    {
      seen.Remembers(touches)
    }

    constructor (dedupeSize: int)
      ensures Valid() && fresh(seen) && touches == [] && seen.size == if dedupeSize <= 0 then 10000 else dedupeSize
    {
      var l := new Lru(if dedupeSize <= 0 then 10000 else dedupeSize);
      seen := l;
      touches := [];
      applied, duplicates, rejected := 0, 0, 0;
    }

    /** An event is applied once its effect succeeds, and its id remembered only then; one remembered is passed over. */
    method Handle(d: Delivery) returns (a: Answer)
      requires Valid()
      modifies this, seen
      ensures Valid() && a == Answered(old(seen.order), d) && touches == old(touches) + TouchesOf(old(seen.order), d)
      ensures a == Rejected <==> d.Undecodable? || d.UnknownType?
      ensures a == Duplicate <==> d.Event? && d.eid.SomeId? && d.eid.id in old(seen.order)
      ensures a == Failed <==> d.Event? && d.injectFails && a != Duplicate
      ensures a == Failed || a == Rejected ==> touches == old(touches) && seen.order == old(seen.order)
      ensures a == Applied || a == Duplicate ==> touches == old(touches) + if d.eid.SomeId? then [d.eid.id] else []
      ensures applied == old(applied) + (if a == Applied then 1 else 0)
      ensures duplicates == old(duplicates) + (if a == Duplicate then 1 else 0)
      ensures rejected == old(rejected) + (if a == Rejected then 1 else 0)
    {
      hide Recency, First, Without, Ids;
      assert touches + [] == touches;
      if !d.Event? {
        rejected := rejected + 1;
        return Rejected;
      }
      if d.eid.SomeId? {
        var hit := seen.Contains(d.eid.id, touches);
        if hit {
          duplicates := duplicates + 1;
          touches := touches + [d.eid.id];
          return Duplicate;
        }
      }
      if d.injectFails { return Failed; }
      if d.eid.SomeId? {
        seen.Add(d.eid.id, touches);
        touches := touches + [d.eid.id];
      }
      applied := applied + 1;
      return Applied;
    }
  }

  // ------------------------------------------------------------ whole runs of the worker

  /** Which ids a history of touches leaves remembered. */
  type Memory = seq<Id> -> seq<Id>

  ghost function Bounded(size: int): Memory { (touches: seq<Id>) => First(Recency(touches), size) }

  /** The history of touches after handling the first `n` of `ds` in turn, each as `Worker.Handle` does. */
  ghost function History(memory: Memory, ds: seq<Delivery>, n: nat): seq<Id>
    requires n <= |ds|
  {
    if n == 0 then []
    else
      var touches := History(memory, ds, n - 1);
      touches + TouchesOf(memory(touches), ds[n - 1])
  }

  ghost function AnswerAt(memory: Memory, ds: seq<Delivery>, i: nat): Answer
    requires i < |ds|
  {
    Answered(memory(History(memory, ds, i)), ds[i])
  }

  /** The ids touched by the deliveries from `i` up to `j`. */
  ghost function Touched(memory: Memory, ds: seq<Delivery>, i: nat, j: nat): seq<Id>
    requires j <= |ds|
  {
    if j <= i then []
    else Touched(memory, ds, i, j - 1) + TouchesOf(memory(History(memory, ds, j - 1)), ds[j - 1])
  }

  lemma {:induction false} HistoryGrows(memory: Memory, ds: seq<Delivery>, i: nat, j: nat)
    requires i <= j <= |ds|
    ensures History(memory, ds, j) == History(memory, ds, i) + Touched(memory, ds, i, j)
  {
    hide TouchesOf;
    if i < j {
      HistoryGrows(memory, ds, i, j - 1);
    }
  }

  /** A memory that makes nothing up. */
  ghost predicate Honest(memory: Memory) { forall touches, id :: id in memory(touches) ==> id in touches }

  /** Delivery `i` is of `id`, and was applied. */
  ghost predicate AppliesAt(memory: Memory, ds: seq<Delivery>, i: nat, id: Id) {
    i < |ds| && ds[i].Event? && ds[i].eid == SomeId(id) && AnswerAt(memory, ds, i) == Applied
  }

  lemma {:induction false} TouchedWasApplied(memory: Memory, ds: seq<Delivery>, n: nat, id: Id) returns (i: nat)
    requires n <= |ds| && Honest(memory) && id in History(memory, ds, n)
    ensures i < n && AppliesAt(memory, ds, i, id)
  {
    if id in History(memory, ds, n - 1) {
      i := TouchedWasApplied(memory, ds, n - 1, id);
    } else {
      i := n - 1;
    }
  }

  lemma BoundedIsHonest(size: int)
    ensures Honest(Bounded(size))
  {
    hide Recency, Distinct;
    forall touches, id | id in Bounded(size)(touches) ensures id in touches {
      RecencyDistinct(touches);
      assert id in Recency(touches);
    }
  }

  /** A delivery is passed over only if its id was applied before: one that failed, however often, is not. */
  lemma PassedOverOnlyOnceApplied(size: int, ds: seq<Delivery>, j: nat) returns (i: nat)
    requires j < |ds| && AnswerAt(Bounded(size), ds, j) == Duplicate
    ensures ds[j].Event? && ds[j].eid.SomeId? && i < j && AppliesAt(Bounded(size), ds, i, ds[j].eid.id)
  {
    hide Bounded, History;
    BoundedIsHonest(size);
    i := TouchedWasApplied(Bounded(size), ds, j, ds[j].eid.id);
  }

  /** An event with an id is applied only if the id is not remembered, and then touches it. */
  lemma AppliedIsNew(memory: Memory, ds: seq<Delivery>, i: nat)
    requires i < |ds| && ds[i].Event? && ds[i].eid.SomeId? && AnswerAt(memory, ds, i) == Applied
    ensures ds[i].eid.id !in memory(History(memory, ds, i))
    ensures History(memory, ds, i + 1) == History(memory, ds, i) + [ds[i].eid.id]
  {
  }

  /** What a memory that forgets an id applied at `i` by the time `j` applies it again has seen in between. */
  lemma AppliedAgain(memory: Memory, ds: seq<Delivery>, i: nat, j: nat)
    requires i < j < |ds| && ds[i].Event? && ds[j].Event? && ds[i].eid.SomeId? && ds[i].eid == ds[j].eid
    requires AnswerAt(memory, ds, i) == Applied && AnswerAt(memory, ds, j) == Applied
    ensures ds[i].eid.id !in memory(History(memory, ds, i) + [ds[i].eid.id] + Touched(memory, ds, i + 1, j))
  {
    hide History, Touched, AnswerAt;
    AppliedIsNew(memory, ds, i);
    AppliedIsNew(memory, ds, j);
    HistoryGrows(memory, ds, i + 1, j);
  }

  /** An event id is applied a second time only if the deliveries in between applied, or saw again,
      at least `size` other distinct ids. */
  lemma AppliedTwiceOnlyAfterSize(size: nat, ds: seq<Delivery>, i: nat, j: nat)
    requires i < j < |ds| && ds[i].Event? && ds[j].Event? && ds[i].eid.SomeId? && ds[i].eid == ds[j].eid
    requires AnswerAt(Bounded(size), ds, i) == Applied && AnswerAt(Bounded(size), ds, j) == Applied
    ensures |Ids(Touched(Bounded(size), ds, i + 1, j)) - {ds[i].eid.id}| >= size
  {
    hide History, Touched, AnswerAt, Recency, First;
    AppliedAgain(Bounded(size), ds, i, j);
    ForgottenBetween(History(Bounded(size), ds, i), ds[i].eid.id, Touched(Bounded(size), ds, i + 1, j), size);
  }
}
