/**
The retry budget of libs/resilient-http-client/budget.go: retries are bounded to
minRetries + ratio * requests over a sliding window.

`RetriesInTenSlots` bounds the retries granted in any ten consecutive slots of any
run, `RetriesOverRun` the retries of a whole run: however the calls arrive, an outage
cannot multiply the traffic by the attempt count. Ratios are reals.
*/
module RetryBudget {
  import opened SlidingWindow

  datatype Config = Config(slot: int, ratio: real, minRetries: nat) {
    ghost predicate Valid() { slot >= 1 && ratio >= 0.0 }
  }

  /** A call on the budget, made at time `t`. */
  datatype Call = Request(t: nat) | TryRetry(t: nat)

  function Times(r: real, n: nat): real { r * n as real }

  /** Whether the totals (a = requests, b = retries) leave a retry to spend. */
  predicate Affordable(cfg: Config, seen: Totals) {
    !(seen.b as real >= cfg.minRetries as real + Times(cfg.ratio, seen.a))
  }

  ghost predicate ClockForward(calls: seq<Call>) {
    forall i, j :: 0 <= i < j < |calls| ==> calls[i].t <= calls[j].t
  }

  // ------------------------------------------- the budget over a full log

  /** What a budget that keeps every event has logged after `calls`: a request counts 1 in a, a granted retry 1 in b. */
  ghost function Log(cfg: Config, calls: seq<Call>): seq<Entry>
    requires cfg.Valid()
  {
    if calls == [] then []
    else
      var log := Log(cfg, calls[..|calls| - 1]);
      var c := calls[|calls| - 1];
      match c
      case Request(t) => log + [Entry(t, 1, 0)]
      case TryRetry(t) => if Affordable(cfg, LogSum(log, cfg.slot, t)) then log + [Entry(t, 0, 1)] else log
  }

  // ------------------------------------------- the budget over the ring

  /** The ring left by `calls`, each tested against the ring's own totals. */
  ghost function RingAfter(cfg: Config, calls: seq<Call>): Ring
    requires cfg.Valid()
  {
    if calls == [] then Empty()
    else
      var ring := RingAfter(cfg, calls[..|calls| - 1]);
      var c := calls[|calls| - 1];
      match c
      case Request(t) => Added(ring, t / cfg.slot, 1, 0)
      case TryRetry(t) =>
        if Affordable(cfg, RingSum(ring, t / cfg.slot, SLOTS)) then Added(ring, t / cfg.slot, 0, 1) else ring
  }

  lemma {:induction false} LogInOrder(cfg: Config, calls: seq<Call>)
    requires cfg.Valid() && ClockForward(calls)
    ensures Nondecreasing(Log(cfg, calls))
    ensures forall e :: e in Log(cfg, calls) ==> exists c :: c in calls && c.t == e.t
  {
    hide Affordable, LogSum, Times;
    if calls != [] {
      var init := calls[..|calls| - 1];
      LogInOrder(cfg, init);
      assert forall c :: c in init ==> c in calls;
      assert calls[|calls| - 1] in calls;
      var log := Log(cfg, init);
      forall i | 0 <= i < |log| ensures log[i].t <= calls[|calls| - 1].t {
        assert log[i] in log;
      }
    }
  }

  lemma LogBefore(cfg: Config, calls: seq<Call>, last: Call)
    requires cfg.Valid() && ClockForward(calls + [last])
    ensures NoneAfter(Log(cfg, calls), last.t) && Nondecreasing(Log(cfg, calls))
  {
    var all := calls + [last];
    assert forall i, j :: 0 <= i < j < |calls| ==> all[i] == calls[i] && all[j] == calls[j];
    LogInOrder(cfg, calls);
    forall c | c in calls ensures c.t <= last.t {
      var i :| 0 <= i < |calls| && calls[i] == c;
      assert all[i].t <= all[|calls|].t;
    }
  }

  /** The ring-based budget grants exactly the retries of the one that keeps every event. */
  lemma {:induction false} RingRefinesFullLog(cfg: Config, calls: seq<Call>)
    requires cfg.Valid() && ClockForward(calls)
    ensures RingAfter(cfg, calls) == Replay(Log(cfg, calls), cfg.slot)
  {
    if calls != [] {
      var init, last := calls[..|calls| - 1], calls[|calls| - 1];
      RingRefinesFullLog(cfg, init);
      assert init + [last] == calls;
      LogBefore(cfg, init, last);
      var log := Log(cfg, init);
      RingRefinesLog(log, cfg.slot, last.t);
      assert (log + [Entry(last.t, 1, 0)])[..|log|] == log;
      assert (log + [Entry(last.t, 0, 1)])[..|log|] == log;
    }
  }

  /** So the next call is decided alike by both. */
  lemma GrantsAgree(cfg: Config, calls: seq<Call>, now: nat)
    requires cfg.Valid() && ClockForward(calls + [TryRetry(now)])
    ensures RingSum(RingAfter(cfg, calls), now / cfg.slot, SLOTS) == LogSum(Log(cfg, calls), cfg.slot, now)
  {
    var all := calls + [TryRetry(now)];
    assert forall i, j :: 0 <= i < j < |calls| ==> all[i] == calls[i] && all[j] == calls[j];
    LogBefore(cfg, calls, TryRetry(now));
    RingRefinesFullLog(cfg, calls);
    RingRefinesLog(Log(cfg, calls), cfg.slot, now);
  }

  // ------------------------------------------------------------ the bound

  /** The entries whose slot index is in [lo, hi]. */
  ghost function Between(slot: int, lo: int, hi: int): Entry -> bool
    requires slot >= 1
  {
    (e: Entry) => lo <= e.t / slot <= hi
  }

  ghost function Requests(cfg: Config, calls: seq<Call>, lo: int, hi: int): nat
    requires cfg.Valid()
  {
    Total(Log(cfg, calls), Between(cfg.slot, lo, hi)).a
  }

  ghost function Retries(cfg: Config, calls: seq<Call>, lo: int, hi: int): nat
    requires cfg.Valid()
  {
    Total(Log(cfg, calls), Between(cfg.slot, lo, hi)).b
  }

  /** ratio * n, as n additions. */
  ghost function Share(ratio: real, n: nat): real {
    if n == 0 then 0.0 else ratio + Share(ratio, n - 1)
  }

  lemma {:induction false} ShareIsProduct(ratio: real, n: nat)
    ensures Share(ratio, n) == Times(ratio, n)
  {
    if n > 0 {
      ShareIsProduct(ratio, n - 1);
      assert n as real == (n - 1) as real + 1.0;
      assert ratio * n as real == ratio * (n - 1) as real + ratio;
    }
  }

  lemma {:induction false} ShareOfSum(ratio: real, n: nat, m: nat)
    ensures Share(ratio, n + m) == Share(ratio, n) + Share(ratio, m)
  {
    if m > 0 { ShareOfSum(ratio, n, m - 1); }
  }

  lemma {:induction false} ShareMonotone(ratio: real, n: nat, m: nat)
    requires ratio >= 0.0 && n <= m
    ensures 0.0 <= Share(ratio, n) <= Share(ratio, m)
  {
    if m > n {
      ShareMonotone(ratio, n, m - 1);
    } else if n > 0 {
      ShareMonotone(ratio, n - 1, n - 1);
    }
  }

  /** A retry granted at `t` in the ten slots from `lo`: those granted there before it were within the budget. */
  lemma GrantedWithinBudget(cfg: Config, log: seq<Entry>, t: nat, lo: int)
    requires cfg.Valid() && NoneAfter(log, t) && Affordable(cfg, LogSum(log, cfg.slot, t))
    requires lo <= t / cfg.slot <= lo + 9
    ensures Total(log, Between(cfg.slot, lo, lo + 9)).b as real
            < cfg.minRetries as real + Share(cfg.ratio, Total(log, Between(cfg.slot, lo - 9, lo + 9)).a)
  {
    hide Times;
    var slot := cfg.slot;
    var recent := (e: Entry) => Recent(slot, t, e);
    forall e | e in log
      ensures Between(slot, lo, lo + 9)(e) ==> recent(e)
      ensures recent(e) ==> Between(slot, lo - 9, lo + 9)(e)
    {
      Ordered(e.t, t, slot);
    }
    TotalsMonotone(log, Between(slot, lo, lo + 9), recent);
    TotalsMonotone(log, recent, Between(slot, lo - 9, lo + 9));
    ShareIsProduct(cfg.ratio, LogSum(log, slot, t).a);
    ShareMonotone(cfg.ratio, Total(log, recent).a, Total(log, Between(slot, lo - 9, lo + 9)).a);
  }

  /** The retries granted in any ten consecutive slots are fewer than
      minRetries + ratio * (requests in those slots and the nine before) + 1. */
  lemma RetriesInTenSlots(cfg: Config, calls: seq<Call>, lo: int)
    requires cfg.Valid() && ClockForward(calls)
    ensures Retries(cfg, calls, lo, lo + 9) as real
            < cfg.minRetries as real + Times(cfg.ratio, Requests(cfg, calls, lo - 9, lo + 9)) + 1.0
  {
    hide Times;
    TenSlots(cfg, calls, lo);
    ShareIsProduct(cfg.ratio, Requests(cfg, calls, lo - 9, lo + 9));
  }

  lemma {:induction false} TenSlots(cfg: Config, calls: seq<Call>, lo: int)
    requires cfg.Valid() && ClockForward(calls)
    ensures Retries(cfg, calls, lo, lo + 9) as real
            < cfg.minRetries as real + Share(cfg.ratio, Requests(cfg, calls, lo - 9, lo + 9)) + 1.0
  {
    if calls == [] {
      assert Log(cfg, calls) == [];
    } else {
      var init, last := calls[..|calls| - 1], calls[|calls| - 1];
      TenSlots(cfg, init, lo);
      assert init + [last] == calls;
      LogBefore(cfg, init, last);
      var log, log' := Log(cfg, init), Log(cfg, calls);
      if log' != log {
        assert log'[..|log'| - 1] == log;
        ShareMonotone(cfg.ratio, Requests(cfg, init, lo - 9, lo + 9), Requests(cfg, calls, lo - 9, lo + 9));
        if last.TryRetry? && lo <= last.t / cfg.slot <= lo + 9 {
          GrantedWithinBudget(cfg, log, last.t, lo);
        }
      }
    }
  }

  /** Retries and requests of the first `k` ten-slot blocks from slot `lo`: a request counts for its block and the next. */
  lemma {:induction false} Blocks(cfg: Config, calls: seq<Call>, lo: int, k: nat)
    requires cfg.Valid() && ClockForward(calls) && k >= 1
    requires forall e :: e in Log(cfg, calls) ==> lo <= e.t / cfg.slot
    ensures Retries(cfg, calls, lo, lo + 10 * k - 1) as real
            < Share(cfg.minRetries as real + 1.0, k)
              + Share(cfg.ratio, Requests(cfg, calls, lo, lo + 10 * k - 1)) + Share(cfg.ratio, Requests(cfg, calls, lo, lo + 10 * k - 11))
  {
    hide Log, Total;
    var log, slot, ratio := Log(cfg, calls), cfg.slot, cfg.ratio;
    var from := lo + 10 * k - 10;
    TenSlots(cfg, calls, from);
    TotalsMonotone(log, Between(slot, from - 9, from + 9), Between(slot, from - 10, from + 9));
    ShareMonotone(ratio, Requests(cfg, calls, from - 9, from + 9), Requests(cfg, calls, from - 10, from + 9));
    TotalsSplit(log, Between(slot, from - 10, from + 9), Between(slot, from - 10, from - 1), Between(slot, from, from + 9));
    ShareOfSum(ratio, Requests(cfg, calls, from - 10, from - 1), Requests(cfg, calls, from, from + 9));
    TotalsSplit(log, Between(slot, lo, from + 9), Between(slot, lo, from - 1), Between(slot, from, from + 9));
    ShareOfSum(ratio, Requests(cfg, calls, lo, from - 1), Requests(cfg, calls, from, from + 9));
    if k == 1 {
      NothingTold(log, Between(slot, lo, from - 1));
      NothingTold(log, Between(slot, from - 10, from - 1));
    } else {
      Blocks(cfg, calls, lo, k - 1);
      TotalsSplit(log, Between(slot, lo, from - 1), Between(slot, lo, from - 11), Between(slot, from - 10, from - 1));
      ShareOfSum(ratio, Requests(cfg, calls, lo, from - 11), Requests(cfg, calls, from - 10, from - 1));
    }
  }

  lemma RunWithinBlocks(cfg: Config, calls: seq<Call>, lo: int, k: nat)
    requires cfg.Valid() && ClockForward(calls) && k >= 1
    requires forall c :: c in calls ==> lo <= c.t / cfg.slot < lo + 10 * k
    ensures Total(Log(cfg, calls), Anything()).b as real
            < Share(cfg.minRetries as real + 1.0, k) + 2.0 * Share(cfg.ratio, Total(Log(cfg, calls), Anything()).a)
  {
    var log, slot := Log(cfg, calls), cfg.slot;
    var hi := lo + 10 * k - 1;
    LogInOrder(cfg, calls);
    forall e | e in log ensures Between(slot, lo, hi)(e) {
      var c :| c in calls && c.t == e.t;
    }
    Blocks(cfg, calls, lo, k);
    TotalsAgree(log, Between(slot, lo, hi), Anything());
    TotalsMonotone(log, Between(slot, lo, hi - 10), Anything());
    ShareMonotone(cfg.ratio, Requests(cfg, calls, lo, hi - 10), Total(log, Anything()).a);
  }

  /** A run over `k` ten-slot blocks with `n` requests grants fewer than k * (minRetries + 1) + 2 * ratio * n retries. */
  lemma RetriesOverRun(cfg: Config, calls: seq<Call>, lo: int, k: nat)
    requires cfg.Valid() && ClockForward(calls) && k >= 1
    requires forall c :: c in calls ==> lo <= c.t / cfg.slot < lo + 10 * k
    ensures Total(Log(cfg, calls), Anything()).b as real
            < Times(cfg.minRetries as real + 1.0, k) + 2.0 * Times(cfg.ratio, Total(Log(cfg, calls), Anything()).a)
  {
    hide Times;
    RunWithinBlocks(cfg, calls, lo, k);
    ShareIsProduct(cfg.ratio, Total(Log(cfg, calls), Anything()).a);
    ShareIsProduct(cfg.minRetries as real + 1.0, k);
  }

  // ------------------------------------------------------------ exactly when a retry is granted

  /** Whether time `t` is in slots [lo, hi]. */
  predicate Within(t: nat, slot: int, lo: int, hi: int)
    requires slot >= 1
  {
    lo <= t / slot <= hi
  }

  /** The requests among the first `n` calls, in slots [lo, hi]. */
  function RequestCount(calls: seq<Call>, n: nat, slot: int, lo: int, hi: int): nat
    requires n <= |calls| && slot >= 1
  {
    if n == 0 then 0
    else RequestCount(calls, n - 1, slot, lo, hi) + if calls[n - 1].Request? && Within(calls[n - 1].t, slot, lo, hi) then 1 else 0
  }

  /** The budget's answer to call `k`, on the totals its ring reports. */
  ghost predicate GrantedAt(cfg: Config, calls: seq<Call>, k: nat)
    requires cfg.Valid() && k < |calls|
  {
    calls[k].TryRetry? && Affordable(cfg, RingSum(RingAfter(cfg, calls[..k]), calls[k].t / cfg.slot, SLOTS))
  }

  /** The retries granted among the first `n` calls, in slots [lo, hi]. */
  ghost function GrantCount(cfg: Config, calls: seq<Call>, n: nat, lo: int, hi: int): nat
    requires cfg.Valid() && n <= |calls|
  {
    if n == 0 then 0
    else GrantCount(cfg, calls, n - 1, lo, hi) + if GrantedAt(cfg, calls, n - 1) && Within(calls[n - 1].t, cfg.slot, lo, hi) then 1 else 0
  }

  lemma ClockForwardBefore(calls: seq<Call>, n: nat)
    requires ClockForward(calls) && n <= |calls|
    ensures ClockForward(calls[..n])
  {
  }

  /** What one call adds to the full log. */
  lemma LogStep(cfg: Config, calls: seq<Call>, k: nat)
    requires cfg.Valid() && ClockForward(calls) && k < |calls|
    ensures var t := calls[k].t;
            && (calls[k].Request? ==> !GrantedAt(cfg, calls, k))
            && Log(cfg, calls[..k + 1]) == Log(cfg, calls[..k]) +
              if calls[k].Request? then [Entry(t, 1, 0)] else if GrantedAt(cfg, calls, k) then [Entry(t, 0, 1)] else []
  {
    hide Affordable, RingSum, LogSum, RingAfter;
    assert calls[..k + 1][..k] == calls[..k];
    if calls[k].TryRetry? {
      assert calls[..k] + [TryRetry(calls[k].t)] == calls[..k + 1];
      ClockForwardBefore(calls, k + 1);
      GrantsAgree(cfg, calls[..k], calls[k].t);
    }
  }

  lemma OneMoreEntry(log: seq<Entry>, e: Entry, slot: int, lo: int, hi: int)
    requires slot >= 1
    ensures var was, now := Total(log, Between(slot, lo, hi)), Total(log + [e], Between(slot, lo, hi));
            now == if Within(e.t, slot, lo, hi) then Totals(was.a + e.a, was.b + e.b) else was
  {
    assert (log + [e])[..|log|] == log;
  }

  /** The full log counts every request once and every granted retry once. */
  lemma {:induction false} CountsAreTotals(cfg: Config, calls: seq<Call>, n: nat, lo: int, hi: int)
    requires cfg.Valid() && ClockForward(calls) && n <= |calls|
    ensures Total(Log(cfg, calls[..n]), Between(cfg.slot, lo, hi))
            == Totals(RequestCount(calls, n, cfg.slot, lo, hi), GrantCount(cfg, calls, n, lo, hi))
  {
    hide Within, GrantedAt, Between, Log, Total, ClockForward;
    if n == 0 {
      NothingLogged(cfg, calls, lo, hi);
    } else {
      CountsAreTotals(cfg, calls, n - 1, lo, hi);
      LogStep(cfg, calls, n - 1);
      var log, e := Log(cfg, calls[..n - 1]), if calls[n - 1].Request? then Entry(calls[n - 1].t, 1, 0) else Entry(calls[n - 1].t, 0, 1);
      OneMoreEntry(log, e, cfg.slot, lo, hi);
      assert log + [] == log;
    }
  }

  lemma NothingLogged(cfg: Config, calls: seq<Call>, lo: int, hi: int)
    requires cfg.Valid()
    ensures Total(Log(cfg, calls[..0]), Between(cfg.slot, lo, hi)) == Totals(0, 0)
  {
    assert calls[..0] == [];
  }

  /** The last ten slots at `t`, as a range. */
  lemma RecentIsBetween(log: seq<Entry>, slot: int, t: nat)
    requires slot >= 1 && NoneAfter(log, t)
    ensures LogSum(log, slot, t) == Total(log, Between(slot, t / slot - 9, t / slot))
  {
    var f, g := (e: Entry) => Recent(slot, t, e), Between(slot, t / slot - 9, t / slot);
    forall e | e in log ensures f(e) == g(e) { Ordered(e.t, t, slot); }
    TotalsAgree(log, f, g);
  }

  lemma GrantedWhenAffordable(cfg: Config, calls: seq<Call>, k: nat)
    requires cfg.Valid() && ClockForward(calls) && k < |calls| && calls[k].TryRetry?
    ensures var idx := calls[k].t / cfg.slot;
            GrantedAt(cfg, calls, k) <==>
              Affordable(cfg, Totals(RequestCount(calls, k, cfg.slot, idx - 9, idx), GrantCount(cfg, calls, k, idx - 9, idx)))
  {
    hide RingSum, LogSum, Log, RingAfter, Total, Between, Recent, Affordable, RequestCount, GrantCount, Nondecreasing, NoneAfter;
    var t := calls[k].t;
    assert calls[..k] + [TryRetry(t)] == calls[..k + 1];
    ClockForwardBefore(calls, k + 1);
    GrantsAgree(cfg, calls[..k], t);
    LogBefore(cfg, calls[..k], TryRetry(t));
    RecentIsBetween(Log(cfg, calls[..k]), cfg.slot, t);
    CountsAreTotals(cfg, calls, k, t / cfg.slot - 9, t / cfg.slot);
  }

  /** A retry is granted exactly when the retries granted before it in the last ten slots are fewer than minRetries plus
      ratio times the requests made there. */
  lemma GrantedExactly(cfg: Config, calls: seq<Call>, k: nat)
    requires cfg.Valid() && ClockForward(calls) && k < |calls| && calls[k].TryRetry?
    ensures var idx := calls[k].t / cfg.slot;
            GrantedAt(cfg, calls, k) <==>
              GrantCount(cfg, calls, k, idx - 9, idx) as real
              < cfg.minRetries as real + cfg.ratio * RequestCount(calls, k, cfg.slot, idx - 9, idx) as real
  {
    hide GrantedAt, RequestCount, GrantCount, ClockForward;
    GrantedWhenAffordable(cfg, calls, k);
  }

  // ------------------------------------------------------------- in place

  /** The budget itself; its mutex makes each call atomic. */
  class Budget {
    const w: Window
    const cfg: Config

    ghost predicate Valid()
      reads this, w
    {
      w.Valid() && cfg.Valid() && cfg.slot == w.slot
    }

    constructor (length: int, ratio: real, minRetries: nat)
      requires ratio >= 0.0
      ensures Valid() && fresh(w) && fresh(w.slots)
      ensures cfg == Config(if length / 10 > 1 then length / 10 else 1, ratio, minRetries) && w.Contents() == RingAfter(cfg, [])
    {
      var win := new Window(length);
      w := win;
      cfg := Config(win.slot, ratio, minRetries);
    }

    /** `calls` are the calls made so far; this one joins them. */
    method Request(now: nat, ghost calls: seq<Call>)
      requires Valid() && w.Contents() == RingAfter(cfg, calls)
      modifies w.slots
      ensures w.Contents() == RingAfter(cfg, calls + [Call.Request(now)])
    {
      assert (calls + [Call.Request(now)])[..|calls|] == calls;
      w.Add(now, 1, 0);
    }

    /** Grants a retry, and counts it, exactly when the window's totals afford it. */
    method TryRetry(now: nat, ghost calls: seq<Call>) returns (ok: bool)
      requires Valid() && w.Contents() == RingAfter(cfg, calls)
      modifies w.slots
      ensures w.Contents() == RingAfter(cfg, calls + [Call.TryRetry(now)])
      ensures ok == GrantedAt(cfg, calls + [Call.TryRetry(now)], |calls|)
    {
      assert (calls + [Call.TryRetry(now)])[..|calls|] == calls;
      var requests, retries := w.Sum(now);
      if !Affordable(cfg, Totals(requests, retries)) {
        return false;
      }
      w.Add(now, 0, 1);
      ok := true;
    }
  }
}
