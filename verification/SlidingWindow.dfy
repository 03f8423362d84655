/**
The sliding window of libs/resilient-http-client/window.go: a ring of ten slots,
overwritten in place, that must count like a log which keeps every event.

Times are nanoseconds since the epoch, as `UnixNano` gives them. `RingRefinesLog`
is the connection between the two forms: after any sequence of additions whose
times do not go back, the ring's totals are exactly those of the logged events
fewer than ten slot indices old.
*/
module SlidingWindow {
  /** windowSlots */
  const SLOTS := 10

  /** One slot of the ring: the slot of time it counts, and two totals. */
  datatype Slot = Slot(idx: int, a: nat, b: nat)

  /** One addition, as a log that forgets nothing would keep it. */
  datatype Entry = Entry(t: nat, a: nat, b: nat)

  datatype Totals = Totals(a: nat, b: nat)

  type Ring = s: seq<Slot> | |s| == SLOTS witness seq(SLOTS, i => Slot(0, 0, 0))

  // ---------------------------------------------------------------- the log

  /** Totals of the entries of `log` that satisfy `f`. */
  function Total(log: seq<Entry>, f: Entry -> bool): (r: Totals) {
    if log == [] then Totals(0, 0)
    else
      var rest := Total(log[..|log| - 1], f);
      var e := log[|log| - 1];
      if f(e) then Totals(rest.a + e.a, rest.b + e.b) else rest
  }

  /** Whether an entry is fewer than ten slot indices older than `now`. */
  predicate Recent(slot: int, now: nat, e: Entry)
    requires slot >= 1
  {
    now / slot - e.t / slot < SLOTS
  }

  /** What a log that keeps every event reports at `now`. */
  function LogSum(log: seq<Entry>, slot: int, now: nat): (r: Totals)
    requires slot >= 1
  {
    Total(log, e => Recent(slot, now, e))
  }

  ghost predicate Nondecreasing(log: seq<Entry>) {
    forall i, j :: 0 <= i < j < |log| ==> log[i].t <= log[j].t
  }

  ghost predicate NoneAfter(log: seq<Entry>, now: nat) {
    forall e :: e in log ==> e.t <= now
  }

  // --------------------------------------------------------------- the ring

  function Empty(): Ring { seq(SLOTS, i => Slot(0, 0, 0)) }

  /** The ring after counting `a` and `b` at slot index `idx`: a slot that counts another index starts over. */
  function Added(ring: Ring, idx: nat, a: nat, b: nat): (r: Ring) {
    var s := ring[idx % SLOTS];
    var kept := if s.idx != idx then Slot(idx, 0, 0) else s;
    ring[idx % SLOTS := Slot(idx, kept.a + a, kept.b + b)]
  }

  /** What slot `s` contributes to the totals at slot index `idx`. */
  function Contribution(s: Slot, idx: int): Totals {
    if idx - s.idx < SLOTS then Totals(s.a, s.b) else Totals(0, 0)
  }

  /** Totals of the first `k` slots at slot index `idx`. */
  function RingSum(ring: Ring, idx: int, k: nat): (r: Totals)
    requires k <= SLOTS
  {
    if k == 0 then Totals(0, 0)
    else
      var rest := RingSum(ring, idx, k - 1);
      var c := Contribution(ring[k - 1], idx);
      Totals(rest.a + c.a, rest.b + c.b)
  }

  /** The ring left by a whole log of additions since the last reset. */
  function Replay(log: seq<Entry>, slot: int): (r: Ring)
    requires slot >= 1
  {
    if log == [] then Empty()
    else
      var e := log[|log| - 1];
      Added(Replay(log[..|log| - 1], slot), e.t / slot, e.a, e.b)
  }

  // ------------------------------------------------- the ring and the log agree

  lemma {:induction false} TotalsAgree(log: seq<Entry>, f: Entry -> bool, g: Entry -> bool)
    requires forall e :: e in log ==> f(e) == g(e)
    ensures Total(log, f) == Total(log, g)
  {
    if log != [] {
      assert log[|log| - 1] in log;
      TotalsAgree(log[..|log| - 1], f, g);
    }
  }

  /** A filter that splits into two disjoint ones splits the totals. */
  lemma {:induction false} TotalsSplit(log: seq<Entry>, f: Entry -> bool, g: Entry -> bool, h: Entry -> bool)
    requires forall e :: e in log ==> f(e) == (g(e) || h(e)) && !(g(e) && h(e))
    ensures Total(log, f).a == Total(log, g).a + Total(log, h).a
    ensures Total(log, f).b == Total(log, g).b + Total(log, h).b
  {
    if log != [] {
      assert log[|log| - 1] in log;
      TotalsSplit(log[..|log| - 1], f, g, h);
    }
  }

  lemma {:induction false} TotalsMonotone(log: seq<Entry>, f: Entry -> bool, g: Entry -> bool)
    requires forall e :: e in log ==> f(e) ==> g(e)
    ensures Total(log, f).a <= Total(log, g).a
    ensures Total(log, f).b <= Total(log, g).b
  {
    if log != [] {
      assert log[|log| - 1] in log;
      TotalsMonotone(log[..|log| - 1], f, g);
    }
  }

  /** The entries of slot index `i`, when `i` falls on slot `r` of the ring. */
  ghost function AtIndex(slot: int, i: int, r: nat): Entry -> bool
    requires slot >= 1
  {
    (e: Entry) => e.t / slot == i && i % SLOTS == r
  }

  /** Slot `r` of the ring holds the newest index of its residue, and all of that index's counts. */
  ghost predicate SlotTells(s: Slot, r: nat, log: seq<Entry>, slot: int)
    requires slot >= 1
  {
    && (forall e :: e in log && e.t / slot % SLOTS == r ==> e.t / slot <= s.idx)
    && (s.idx % SLOTS != r ==> s.idx == 0)
    && (s.idx == 0 || exists e :: e in log && e.t / slot == s.idx)
    && Totals(s.a, s.b) == Total(log, AtIndex(slot, s.idx, r))
  }

  ghost predicate RingTells(ring: Ring, log: seq<Entry>, slot: int)
    requires slot >= 1
  {
    forall r :: 0 <= r < SLOTS ==> SlotTells(ring[r], r, log, slot)
  }

  lemma NothingTold(log: seq<Entry>, f: Entry -> bool)
    requires forall e :: e in log ==> !f(e)
    ensures Total(log, f) == Totals(0, 0)
    decreases |log|
  {
    if log != [] {
      assert log[|log| - 1] in log;
      NothingTold(log[..|log| - 1], f);
    }
  }

  lemma AddedTells(ring: Ring, log: seq<Entry>, e: Entry, slot: int)
    requires slot >= 1 && RingTells(ring, log, slot) && NoneAfter(log, e.t)
    ensures RingTells(Added(ring, e.t / slot, e.a, e.b), log + [e], slot)
  {
    var idx := e.t / slot;
    var after := Added(ring, idx, e.a, e.b);
    var log' := log + [e];
    assert log'[..|log'| - 1] == log;
    forall r | 0 <= r < SLOTS ensures SlotTells(after[r], r, log', slot) {
      var s := ring[r];
      var s' := after[r];
      assert SlotTells(s, r, log, slot);
      forall x | x in log' && x.t / slot % SLOTS == r ensures x.t / slot <= s'.idx {
        if x in log { Ordered(x.t, e.t, slot); }
      }
      var f' := AtIndex(slot, s'.idx, r);
      if r == idx % SLOTS && s.idx != idx {
        forall x | x in log ensures !f'(x) {
          Ordered(x.t, e.t, slot);
        }
        NothingTold(log, f');
      } else {
        TotalsAgree(log, f', AtIndex(slot, s.idx, r));
      }
      assert Total(log', f') == Totals(s'.a, s'.b);
    }
  }

  lemma {:induction false} Scaled(p: int, q: int, slot: int)
    requires slot >= 1
    ensures q > p ==> q * slot >= p * slot + slot
    decreases q - p
  {
    if q > p {
      Scaled(p, q - 1, slot);
      assert q * slot == (q - 1) * slot + slot;
    }
  }

  lemma Ordered(t: nat, u: nat, slot: int)
    requires slot >= 1 && t <= u
    ensures t / slot <= u / slot
  {
    assert t == (t / slot) * slot + t % slot;
    assert u == (u / slot) * slot + u % slot;
    Scaled(u / slot, t / slot, slot);
  }

  lemma {:induction false} ReplayTells(log: seq<Entry>, slot: int)
    requires slot >= 1 && Nondecreasing(log)
    ensures RingTells(Replay(log, slot), log, slot)
  {
    if log != [] {
      var init, e := log[..|log| - 1], log[|log| - 1];
      ReplayTells(init, slot);
      AddedTells(Replay(init, slot), init, e, slot);
      assert init + [e] == log;
    }
  }

  /** An index of residue `r` is recent exactly when it is the slot's own and the slot is recent. */
  lemma RecentIndex(i: int, held: int, r: nat, idx: int)
    requires 0 <= i && held <= idx && (i % SLOTS == r ==> i <= held) && (held % SLOTS != r ==> held == 0)
    ensures (idx - i < SLOTS && i % SLOTS == r) <==> (i == held && held % SLOTS == r && idx - held < SLOTS)
  {
  }

  lemma RecentHere(held: int, r: nat, slot: int, now: nat, e: Entry)
    requires slot >= 1 && held <= now / slot && (e.t / slot % SLOTS == r ==> e.t / slot <= held) && (held % SLOTS != r ==> held == 0)
    ensures (Recent(slot, now, e) && e.t / slot % SLOTS == r) == (AtIndex(slot, held, r)(e) && now / slot - held < SLOTS)
  {
    RecentIndex(e.t / slot, held, r, now / slot);
  }

  /** One slot's contribution is what the log holds of the slot's residue. */
  lemma SlotContribution(s: Slot, r: nat, log: seq<Entry>, slot: int, now: nat)
    requires slot >= 1 && r < SLOTS && SlotTells(s, r, log, slot) && NoneAfter(log, now)
    ensures Contribution(s, now / slot) == Total(log, e => Recent(slot, now, e) && e.t / slot % SLOTS == r)
  {
    var here := AtIndex(slot, s.idx, r);
    var want := (e: Entry) => Recent(slot, now, e) && e.t / slot % SLOTS == r;
    assert s.idx <= now / slot by {
      if e :| e in log && e.t / slot == s.idx { Ordered(e.t, now, slot); }
    }
    forall e | e in log ensures want(e) == (here(e) && now / slot - s.idx < SLOTS) {
      RecentHere(s.idx, r, slot, now, e);
    }
    if now / slot - s.idx < SLOTS {
      TotalsAgree(log, want, here);
    } else {
      NothingTold(log, want);
    }
  }

  /** The totals of the first `k` residues. */
  lemma {:induction false} RingSumTells(ring: Ring, log: seq<Entry>, slot: int, now: nat, k: nat)
    requires slot >= 1 && k <= SLOTS && RingTells(ring, log, slot) && NoneAfter(log, now)
    ensures RingSum(ring, now / slot, k) == Total(log, e => Recent(slot, now, e) && e.t / slot % SLOTS < k)
  {
    var below := (e: Entry) => Recent(slot, now, e) && e.t / slot % SLOTS < k;
    if k == 0 {
      NothingTold(log, below);
    } else {
      RingSumTells(ring, log, slot, now, k - 1);
      SlotContribution(ring[k - 1], k - 1, log, slot, now);
      TotalsSplit(log, below,
                  e => Recent(slot, now, e) && e.t / slot % SLOTS < k - 1,
                  e => Recent(slot, now, e) && e.t / slot % SLOTS == k - 1);
    }
  }

  /** The ring refines the full log, for every log whose times do not go back. */
  lemma RingRefinesLog(log: seq<Entry>, slot: int, now: nat)
    requires slot >= 1 && Nondecreasing(log) && NoneAfter(log, now)
    ensures RingSum(Replay(log, slot), now / slot, SLOTS) == LogSum(log, slot, now)
  {
    ReplayTells(log, slot);
    RingSumTells(Replay(log, slot), log, slot, now, SLOTS);
    TotalsAgree(log, e => Recent(slot, now, e) && e.t / slot % SLOTS < SLOTS, e => Recent(slot, now, e));
  }

  /** In times: everything within nine slot lengths is counted, nothing ten or more slot lengths old is. */
  lemma RecentInTime(slot: int, now: nat, e: Entry)
    requires slot >= 1 && e.t <= now
    ensures now - e.t <= 9 * slot ==> Recent(slot, now, e)
    ensures now - e.t >= 10 * slot ==> !Recent(slot, now, e)
  {
    var i, idx := e.t / slot, now / slot;
    assert e.t == i * slot + e.t % slot;
    assert now == idx * slot + now % slot;
    assert (i + 9) * slot == i * slot + 9 * slot;
    assert (i + 10) * slot == i * slot + 10 * slot;
    Scaled(i + 9, idx, slot);
    Scaled(idx, i + 10, slot);
  }

  ghost function Anything(): Entry -> bool { (e: Entry) => true }

  /** Whatever the times, the ring never reports more than was added since the reset. */
  lemma RingNeverOvercounts(log: seq<Entry>, slot: int, idx: int)
    requires slot >= 1
    ensures RingSum(Replay(log, slot), idx, SLOTS).a <= Total(log, Anything()).a
    ensures RingSum(Replay(log, slot), idx, SLOTS).b <= Total(log, Anything()).b
  {
    HeldNeverOvercounts(log, slot);
    SumWithinHeld(Replay(log, slot), idx, SLOTS);
  }

  /** All the ring holds, stale slots included. */
  ghost function Held(ring: Ring, k: nat): Totals
    requires k <= SLOTS
  {
    if k == 0 then Totals(0, 0)
    else Totals(Held(ring, k - 1).a + ring[k - 1].a, Held(ring, k - 1).b + ring[k - 1].b)
  }

  lemma {:induction false} SumWithinHeld(ring: Ring, idx: int, k: nat)
    requires k <= SLOTS
    ensures RingSum(ring, idx, k).a <= Held(ring, k).a && RingSum(ring, idx, k).b <= Held(ring, k).b
  {
    if k > 0 { SumWithinHeld(ring, idx, k - 1); }
  }

  lemma {:induction false} HeldAfterUpdate(ring: Ring, i: nat, s: Slot, k: nat)
    requires i < SLOTS && k <= SLOTS
    ensures Held(ring[i := s], k).a == Held(ring, k).a + if i < k then s.a - ring[i].a else 0
    ensures Held(ring[i := s], k).b == Held(ring, k).b + if i < k then s.b - ring[i].b else 0
  {
    if k > 0 { HeldAfterUpdate(ring, i, s, k - 1); }
  }

  lemma {:induction false} HeldWhenEmpty(k: nat)
    requires k <= SLOTS
    ensures Held(Empty(), k) == Totals(0, 0)
  {
    if k > 0 { HeldWhenEmpty(k - 1); }
  }

  lemma {:induction false} HeldNeverOvercounts(log: seq<Entry>, slot: int)
    requires slot >= 1
    ensures Held(Replay(log, slot), SLOTS).a <= Total(log, Anything()).a
    ensures Held(Replay(log, slot), SLOTS).b <= Total(log, Anything()).b
  {
    if log == [] {
      HeldWhenEmpty(SLOTS);
    } else {
      var init, e := log[..|log| - 1], log[|log| - 1];
      HeldNeverOvercounts(init, slot);
      var ring, idx := Replay(init, slot), e.t / slot;
      HeldAfterUpdate(ring, idx % SLOTS, Added(ring, idx, e.a, e.b)[idx % SLOTS], SLOTS);
    }
  }

  // ------------------------------------------------------------- in place

  /** The window itself: an array of slots overwritten in place. Its owner holds a lock. */
  class Window {
    const slot: int
    const slots: array<Slot>

    ghost predicate Valid()
      reads this
    {
      slot >= 1 && slots.Length == SLOTS
    }

    ghost function Contents(): Ring
      requires Valid()
      reads this, slots
    {
      slots[..]
    }

    constructor (length: int)
      ensures Valid() && fresh(slots)
      ensures slot == if length / SLOTS > 1 then length / SLOTS else 1
      ensures Contents() == Empty()
    {
      slot := if length / SLOTS > 1 then length / SLOTS else 1;
      slots := new Slot[SLOTS](i => Slot(0, 0, 0));
      new;
      assert slots[..] == Empty();
    }

    method Add(now: nat, a: nat, b: nat)
      requires Valid()
      modifies slots
      ensures Contents() == Added(old(Contents()), now / slot, a, b)
    {
      var idx := now / slot;
      assert 0 <= idx;
      var k := idx % SLOTS;
      if slots[k].idx != idx {
        slots[k] := Slot(idx, 0, 0);
      }
      slots[k] := slots[k].(a := slots[k].a + a, b := slots[k].b + b);
    }

    method Sum(now: nat) returns (a: nat, b: nat)
      requires Valid()
      ensures Totals(a, b) == RingSum(Contents(), now / slot, SLOTS)
    {
      var idx := now / slot;
      a, b := 0, 0;
      for i := 0 to SLOTS
        invariant Totals(a, b) == RingSum(Contents(), idx, i)
      {
        var s := slots[i];
        if idx - s.idx < SLOTS {
          a := a + s.a;
          b := b + s.b;
        }
      }
    }

    method Reset()
      requires Valid()
      modifies slots
      ensures Contents() == Empty()
    {
      forall i | 0 <= i < SLOTS {
        slots[i] := Slot(0, 0, 0);
      }
    }
  }
}
