/**
`send` and `attempt` of libs/resilient-http-client/client.go: one logical request, its
attempts, and what each takes and gives back.

The ledger records, by request and attempt, every breaker ticket taken and recorded and every
bulkhead slot taken and released, and by request the counts in and out of flight. `Valid` says
that everything is given back but what open response bodies hold; every request and every Close,
in any order, keeps it. Whatever the breaker, the limiter, the bulkhead, the transport, the
budget and the caller's context do is given per attempt by an environment.
*/
module Send {
  datatype Option<+T> = None | Some(value: T)

  datatype Outcome = Success | Failure | Ignored

  /** Attempt `n` of request `req` of a client. */
  datatype Try = Try(req: nat, n: nat)

  datatype Ledger = Ledger(
    tickets: multiset<Try>, records: multiset<Try>, outcomes: map<Try, Outcome>,
    slots: multiset<Try>, releases: multiset<Try>, entered: multiset<nat>, left: multiset<nat>)

  const EMPTY := Ledger(multiset{}, multiset{}, map[], multiset{}, multiset{}, multiset{}, multiset{})

  datatype Kind = Invalid | Shutdown | Canceled | CircuitOpen | RateLimited | BulkheadFull | Redirect | Timeout | Connection | Status(code: int)

  /** An outbound error, with the Retry-After a status response asked for (0: none). */
  datatype Error = Error(kind: Kind, retryAfter: nat)

  /** How the transport ends: the response's status, or an error `classify` maps to a kind. */
  datatype Reply = Answer(code: int, retryAfter: nat) | Broken(kind: Kind)

  /** What one attempt meets. */
  datatype World = World(
    canceled: bool,                       // the caller's context is done at the head of the loop
    allowed: bool,                        // the breaker admits it
    limited: bool,                        // the rate limiter's wait fails
    acquired: bool,                       // the bulkhead has a slot in time
    canceledWaiting: bool,                // the caller's context is done when a wait failed
    bodyFails: bool,                      // the body cannot be replayed (n > 1)
    reply: Reply,
    pick: nat,                            // the jitter's random choice
    deadlineNear: bool,                   // the context's deadline comes before the delay is over
    affordable: bool,                     // the retry budget grants one
    slept: bool)                          // the wait runs to its end

  datatype Policy = Policy(limiter: bool, bulkhead: bool, maxAttempts: nat, baseDelay: nat, maxDelay: nat)

  predicate RetryableStatus(code: int) {
    code == 408 || code == 425 || code == 429 || (500 <= code <= 599 && code != 501 && code != 505)
  }

  predicate Retryable(e: Error) {
    e.kind.Timeout? || e.kind.Connection? || (e.kind.Status? && RetryableStatus(e.kind.code))
  }

  /** `base` doubled `n` times. */
  function Doubled(base: nat, n: nat): nat { if n == 0 then base else 2 * Doubled(base, n - 1) }

  function Min(a: int, b: int): int { if a < b then a else b }

  function Max(a: int, b: int): int { if a < b then b else a }

  /** The jittered wait: `pick` chooses among all values up to the lesser of base * 2^retry and cap. */
  function FullJitter(retry: nat, base: nat, cap: nat, pick: nat): (d: nat)
    ensures d <= cap && d <= Doubled(base, Min(retry, 62)) && (retry == 0 ==> d == 0)
    ensures pick <= Min(Doubled(base, Min(retry, 62)), cap) && retry > 0 ==> d == pick
  {
    var ceiling := Min(Doubled(base, Min(retry, 62)), cap);
    if retry == 0 || ceiling < 1 then 0 else Min(pick, ceiling)
  }

  // ------------------------------------------------------------ what conservation means

  /** An attempt of a request before `req`, or one of the first `n` of `req`. */
  predicate Made(k: Try, req: nat, n: nat) { k.n >= 1 && (k.req < req || (k.req == req && k.n <= n)) }

  ghost predicate AtMostOnce(taken: multiset<Try>, req: nat, n: nat) {
    forall k: Try :: taken[k] <= if Made(k, req, n) then 1 else 0
  }

  lemma OneMoreTry(taken: multiset<Try>, req: nat, n: nat)
    requires n >= 1 && AtMostOnce(taken, req, n - 1)
    ensures AtMostOnce(taken, req, n) && AtMostOnce(taken + multiset{Try(req, n)}, req, n)
  {
    forall k: Try ensures Made(k, req, n) <==> Made(k, req, n - 1) || k == Try(req, n) { }
  }

  /** Each attempt made took at most one ticket and one slot, and each request was counted in at most once; every
      ticket was recorded, every slot but those in `held` released and every request but those in `open` counted out,
      each once. */
  ghost predicate Conserved(l: Ledger, req: nat, n: nat, held: set<Try>, open: set<nat>) {
    && l.records == l.tickets
    && l.slots == l.releases + multiset(held)
    && l.entered == l.left + multiset(open)
    && AtMostOnce(l.tickets, req, n) && AtMostOnce(l.slots, req, n)
    && (forall r: nat :: l.entered[r] <= if r <= req then 1 else 0)
  }

  /** Between the two ledgers only entries of request `req` were added. */
  ghost predicate OnlyAdds(l: Ledger, l': Ledger, req: nat) {
    && (forall k: Try :: k.req != req ==>
          l'.tickets[k] == l.tickets[k] && l'.records[k] == l.records[k] && l'.slots[k] == l.slots[k] && l'.releases[k] == l.releases[k])
    && (forall r: nat :: r != req ==> l'.entered[r] == l.entered[r] && l'.left[r] == l.left[r])
  }

  lemma OnlyAddsThen(l: Ledger, l': Ledger, l'': Ledger, req: nat)
    requires OnlyAdds(l, l', req) && OnlyAdds(l', l'', req)
    ensures OnlyAdds(l, l'', req)
  {
  }

  function In(l: Ledger, r: nat): Ledger { l.(entered := l.entered + multiset{r}) }

  function Out(l: Ledger, r: nat): Ledger { l.(left := l.left + multiset{r}) }

  function Freed(l: Ledger, p: Policy, k: Try): Ledger {
    if p.bulkhead then l.(releases := l.releases + multiset{k}) else l
  }

  lemma NothingAdded(l: Ledger, req: nat)
    ensures OnlyAdds(l, l, req)
  {
  }

  function Ticketed(l: Ledger, k: Try): Ledger { l.(tickets := l.tickets + multiset{k}) }

  function Recorded(l: Ledger, k: Try, o: Outcome): Ledger { l.(records := l.records + multiset{k}, outcomes := l.outcomes[k := o]) }

  function Slotted(l: Ledger, p: Policy, k: Try): Ledger {
    if p.bulkhead then l.(slots := l.slots + multiset{k}) else l
  }

  /** The ledger after an admitted attempt: whether it got past the waits, and whether it succeeded. */
  function Tried(l: Ledger, p: Policy, k: Try, o: Outcome, passed: bool, succeeded: bool): Ledger {
    var l1 := Ticketed(l, k);
    if !passed then Recorded(l1, k, o)
    else if succeeded then Recorded(Slotted(l1, p, k), k, o)
    else Recorded(Freed(Slotted(l1, p, k), p, k), k, o)
  }

  /** What has not been tried holds nothing. */
  lemma NothingHeld(l: Ledger, req: nat, n: nat, held: set<Try>, open: set<nat>, k: Try)
    requires Conserved(l, req, n, held, open) && !Made(k, req, n)
    ensures k !in held && l.tickets[k] == 0 && l.records[k] == 0 && l.slots[k] == 0 && l.releases[k] == 0
  {
  }

  /** A slot taken is released, or held. */
  lemma OneMoreSlot(slots: multiset<Try>, releases: multiset<Try>, held: set<Try>, k: Try)
    requires slots == releases + multiset(held) && k !in held
    ensures slots + multiset{k} == releases + multiset{k} + multiset(held)
    ensures slots + multiset{k} == releases + multiset(held + {k})
  {
    assert multiset(held + {k}) == multiset(held) + multiset{k};
  }

  lemma TryConserved(l: Ledger, p: Policy, req: nat, n: nat, held: set<Try>, open: set<nat>, o: Outcome, passed: bool, succeeded: bool)
    requires n >= 1 && Conserved(l, req, n - 1, held, open) && (succeeded ==> passed)
    ensures Conserved(Tried(l, p, Try(req, n), o, passed, succeeded), req, n,
                      if succeeded && p.bulkhead then held + {Try(req, n)} else held, open)
  {
    hide AtMostOnce;
    var k := Try(req, n);
    NothingHeld(l, req, n - 1, held, open, k);
    OneMoreTry(l.tickets, req, n);
    OneMoreTry(l.slots, req, n);
    OneMoreSlot(l.slots, l.releases, held, k);
    assert l.releases == l.releases + multiset{};
  }

  lemma TryAdds(l: Ledger, p: Policy, k: Try, o: Outcome, passed: bool, succeeded: bool)
    ensures var l' := Tried(l, p, k, o, passed, succeeded);
            OnlyAdds(l, l', k.req) && l'.entered == l.entered && l'.left == l.left
  {
  }

  /** An attempt's own entries: one ticket, recorded once; one slot if it got past the waits of a target with slots,
      released once unless the attempt succeeded. */
  lemma TryCounts(l: Ledger, p: Policy, req: nat, n: nat, held: set<Try>, open: set<nat>, o: Outcome, passed: bool, succeeded: bool)
    requires n >= 1 && Conserved(l, req, n - 1, held, open)
    ensures var k := Try(req, n);
            var l' := Tried(l, p, k, o, passed, succeeded);
            && l'.tickets[k] == 1 && l'.records[k] == 1 && k in l'.outcomes && l'.outcomes[k] == o
            && l'.slots[k] == (if passed && p.bulkhead then 1 else 0)
            && l'.releases[k] == (if passed && p.bulkhead && !succeeded then 1 else 0)
  {
    NothingHeld(l, req, n - 1, held, open, Try(req, n));
  }

  lemma UntriedConserved(l: Ledger, req: nat, n: nat, held: set<Try>, open: set<nat>)
    requires n >= 1 && Conserved(l, req, n - 1, held, open)
    ensures Conserved(l, req, n, held, open)
  {
    OneMoreTry(l.tickets, req, n);
    OneMoreTry(l.slots, req, n);
  }

  lemma EnterConserved(l: Ledger, req: nat, held: set<Try>, open: set<nat>)
    requires Conserved(l, req, 0, held, open) && l.entered[req] == 0
    ensures req !in open
    ensures Conserved(In(l, req), req, 0, held, open + {req}) && OnlyAdds(l, In(l, req), req)
    ensures Conserved(Out(In(l, req), req), req, 0, held, open) && OnlyAdds(l, Out(In(l, req), req), req)
  {
    hide AtMostOnce;
    assert multiset(open)[req] == 0;
    assert multiset(open + {req}) == multiset(open) + multiset{req};
  }

  lemma LeaveConserved(l: Ledger, req: nat, n: nat, held: set<Try>, open: set<nat>, r: nat)
    requires Conserved(l, req, n, held, open) && r in open
    ensures Conserved(Out(l, r), req, n, held, open - {r}) && OnlyAdds(l, Out(l, r), r)
  {
    hide AtMostOnce;
    assert multiset(open) == multiset(open - {r}) + multiset{r};
  }

  lemma ReleaseConserved(l: Ledger, p: Policy, req: nat, n: nat, held: set<Try>, open: set<nat>, k: Try)
    requires Conserved(l, req, n, held, open) && (k in held <==> p.bulkhead)
    ensures Conserved(Freed(l, p, k), req, n, held - {k}, open) && OnlyAdds(l, Freed(l, p, k), k.req)
  {
    hide AtMostOnce;
    if p.bulkhead {
      assert multiset(held) == multiset(held - {k}) + multiset{k};
    } else {
      assert held - {k} == held;
    }
  }

  lemma NextRequest(l: Ledger, req: nat, n: nat, held: set<Try>, open: set<nat>)
    requires Conserved(l, req, n, held, open)
    ensures Conserved(l, req + 1, 0, held, open) && l.entered[req + 1] == 0
  {
  }

  class Client {
    var ledger: Ledger
    var closing: bool
    var requests: nat             // requests counted in so far
    ghost var held: set<Try>      // the slots open bodies hold
    ghost var open: set<nat>      // the requests with an open body

    ghost predicate Valid()
      reads this
    {
      Conserved(ledger, requests, 0, held, open) && ledger.entered[requests] == 0
    }

    constructor ()
      ensures Valid() && ledger == EMPTY && !closing && held == {} && open == {}
    {
      ledger, closing, requests, held, open := EMPTY, false, 0, {}, {};
    }

    method Allow(k: Try)
      modifies this`ledger
      ensures ledger == Ticketed(old(ledger), k)
    {
      ledger := ledger.(tickets := ledger.tickets + multiset{k});
    }

    method Record(k: Try, o: Outcome)
      modifies this`ledger
      ensures ledger == Recorded(old(ledger), k, o)
    {
      ledger := ledger.(records := ledger.records + multiset{k}, outcomes := ledger.outcomes[k := o]);
    }

    method Acquire(p: Policy, k: Try)
      modifies this`ledger
      ensures ledger == Slotted(old(ledger), p, k)
    {
      if p.bulkhead { ledger := ledger.(slots := ledger.slots + multiset{k}); }
    }

    method Release(p: Policy, k: Try)
      modifies this`ledger
      ensures ledger == Freed(old(ledger), p, k)
    {
      if p.bulkhead { ledger := ledger.(releases := ledger.releases + multiset{k}); }
    }

    /** Request `r` is counted before the closing flag is looked at, so a refused one is counted out again. */
    method Enter(r: nat) returns (ok: bool)
      modifies this`ledger
      ensures ok == !closing
      ensures ledger == if ok then In(old(ledger), r) else Out(In(old(ledger), r), r)
    {
      ledger := ledger.(entered := ledger.entered + multiset{r});
      if closing {
        Leave(r);
        return false;
      }
      ok := true;
    }

    method Leave(r: nat)
      modifies this`ledger
      ensures ledger == Out(old(ledger), r)
    {
      ledger := ledger.(left := ledger.left + multiset{r});
    }

    /** Whatever an attempt meets, it settles its ticket, and its slot too unless it succeeds. */
    method Attempt(p: Policy, w: World, r: nat, n: nat) returns (err: Option<Error>)
      requires n >= 1 && Conserved(ledger, r, n - 1, held, open)
      modifies this`ledger, this`held
      ensures Conserved(ledger, r, n, held, open)
      ensures OnlyAdds(old(ledger), ledger, r)
      ensures held == if err.None? && p.bulkhead then old(held) + {Try(r, n)} else old(held)
      ensures ledger.entered == old(ledger).entered && ledger.left == old(ledger).left
      ensures ledger == if w.allowed then Tried(old(ledger), p, Try(r, n), OutcomeOf(p, w, n), Passes(p, w), Succeeds(p, w, n))
                        else old(ledger)
      ensures var k := Try(r, n);
              && ledger.tickets[k] == ledger.records[k] == (if w.allowed then 1 else 0)
              && ledger.slots[k] == (if w.allowed && p.bulkhead && w.acquired && !(p.limiter && w.limited) then 1 else 0)
              && ledger.releases[k] == (if err.Some? then ledger.slots[k] else 0)
              && (w.allowed ==> k in ledger.outcomes && ledger.outcomes[k] == OutcomeOf(p, w, n))
      ensures err.None? <==> Succeeds(p, w, n)
      ensures err.Some? ==> err.value == ErrorOf(p, w, n)
    {
      hide Conserved, OnlyAdds, Ticketed, Recorded, Slotted, Freed, IsReadable, ExchangeError, ExchangeOutcome;
      var k := Try(r, n);
      if !w.allowed {
        UntriedConserved(ledger, r, n, held, open);
        NothingHeld(ledger, r, n - 1, held, open, k);
        NothingAdded(ledger, r);
        return Some(Error(CircuitOpen, 0));
      }
      TryConserved(ledger, p, r, n, held, open, OutcomeOf(p, w, n), Passes(p, w), Succeeds(p, w, n));
      TryCounts(ledger, p, r, n, held, open, OutcomeOf(p, w, n), Passes(p, w), Succeeds(p, w, n));
      TryAdds(ledger, p, k, OutcomeOf(p, w, n), Passes(p, w), Succeeds(p, w, n));
      Allow(k);
      if p.limiter && w.limited {
        Record(k, Ignored);
        return Some(Error(if w.canceledWaiting then Canceled else RateLimited, 0));
      }
      if p.bulkhead && !w.acquired {
        Record(k, Ignored);
        return Some(Error(if w.canceledWaiting then Canceled else BulkheadFull, 0));
      }
      Acquire(p, k);
      err := Exchange(p, w, k);
      if err.None? && p.bulkhead { held := held + {k}; }
    }

    /** The part of an attempt that holds its slot: a response worth reading keeps it, everything else frees it. */
    method Exchange(p: Policy, w: World, k: Try) returns (err: Option<Error>)
      modifies this`ledger
      ensures ledger == Recorded(if err.None? then old(ledger) else Freed(old(ledger), p, k), k, ExchangeOutcome(w, k.n))
      ensures err.None? <==> IsReadable(w, k.n)
      ensures err.Some? ==> err.value == ExchangeError(w, k.n)
    {
      if k.n > 1 && w.bodyFails {
        Release(p, k);
        Record(k, Ignored);
        return Some(Error(Invalid, 0));
      }
      match w.reply {
        case Broken(kind) =>
          Release(p, k);
          Record(k, OfError(kind));
          return Some(Error(kind, 0));
        case Answer(code, retryAfter) =>
          Record(k, if code >= 500 then Failure else Success);
          if code < 400 { return None; }
          Release(p, k);
          return Some(Error(Status(code), retryAfter));
      }
    }

    /** The attempts of request `r`, at most `limit`, with the waits between them. */
    method Attempts(p: Policy, limit: nat, worlds: nat -> World, r: nat) returns (err: Option<Error>, attempts: nat, waits: seq<nat>)
      requires limit >= 1 && Conserved(ledger, r, 0, held, open)
      modifies this`ledger, this`held
      ensures Answered(p, limit, worlds, err, attempts, waits)
      ensures Conserved(ledger, r, attempts, held, open) && OnlyAdds(old(ledger), ledger, r)
      ensures held == if err.None? && p.bulkhead then old(held) + {Try(r, attempts)} else old(held)
      ensures ledger.entered == old(ledger).entered && ledger.left == old(ledger).left
    {
      hide Conserved, OnlyAdds, Tried, OutcomeOf, Succeeds, ErrorOf, Retryable, FullJitter;
      attempts, waits := 0, [];
      NothingAdded(ledger, r);
      while true
        invariant attempts < limit && |waits| == attempts
        invariant Delays(p, worlds, waits)
        invariant forall k :: 1 <= k <= attempts ==> WorthRetrying(p, worlds(k), k)
        invariant Conserved(ledger, r, attempts, held, open) && OnlyAdds(old(ledger), ledger, r) && held == old(held)
        invariant ledger.entered == old(ledger).entered && ledger.left == old(ledger).left
        decreases limit - attempts
      {
        var n := attempts + 1;
        var w := worlds(n);
        if w.canceled { return Some(Error(Canceled, 0)), attempts, waits; }
        attempts := n;
        ghost var l := ledger;
        err := Attempt(p, w, r, n);
        OnlyAddsThen(old(ledger), l, ledger, r);
        if err.None? || n >= limit || !WorthRetrying(p, w, n) { return; }
        waits := waits + [Max(FullJitter(n, p.baseDelay, p.maxDelay, w.pick), err.value.retryAfter)];
        if !w.slept { return Some(Error(Canceled, 0)), attempts, waits; }
      }
    }

    /** One logical request. `body` is what the caller must close on success; `attempts` were made, with `waits` between. */
    method Send(known: bool, validURL: bool, p: Policy, retry: bool, worlds: nat -> World)
      returns (body: Option<Body>, err: Option<Error>, attempts: nat, waits: seq<nat>)
      requires Valid()
      modifies this`ledger, this`requests, this`held, this`open
      // everything taken is given back, but what the body of a successful response still holds
      ensures Valid() && OnlyAdds(old(ledger), ledger, old(requests))
      ensures open == if body.Some? then old(open) + {old(requests)} else old(open)
      ensures held == if body.Some? && p.bulkhead then old(held) + {Try(old(requests), attempts)} else old(held)
      ensures requests == old(requests) + if known && validURL then 1 else 0
      ensures body.Some? <==> err.None?
      ensures body.Some? ==> fresh(body.value) && body.value.client == this && body.value.p == p
                             && body.value.k == Try(old(requests), attempts) && body.value.Valid() && !body.value.closed
      ensures !known || !validURL ==> err == Some(Error(Invalid, 0)) && attempts == 0 && waits == [] && ledger == old(ledger)
      ensures known && validURL && closing ==> err == Some(Error(Shutdown, 0)) && attempts == 0 && waits == []
      ensures known && validURL && !closing ==> Answered(p, if retry then Max(1, p.maxAttempts) else 1, worlds, err, attempts, waits)
    {
      hide Conserved, OnlyAdds, Answered, In, Out;
      ghost var l := ledger;
      body, attempts, waits := None, 0, [];
      if !known || !validURL {
        NothingAdded(ledger, requests);
        return None, Some(Error(Invalid, 0)), 0, [];
      }
      var r := requests;
      EnterConserved(ledger, r, held, open);
      requests := r + 1;
      var entered := Enter(r);
      if !entered {
        NextRequest(ledger, r, 0, held, open);
        return None, Some(Error(Shutdown, 0)), 0, [];
      }
      open := open + {r};
      err, attempts, waits := Serve(p, if retry && p.maxAttempts > 1 then p.maxAttempts else 1, worlds, r);
      OnlyAddsThen(l, In(l, r), ledger, r);
      assert old(open) + {r} - {r} == old(open);
      NextRequest(ledger, r, attempts, held, open);
      if err.None? {
        NothingHeld(l, r, 0, old(held), old(open), Try(r, attempts));
        var b := new Body(this, p, Try(r, attempts));
        body := Some(b);
      }
    }

    /** The attempts of a request counted in, and on failure the count out. */
    method Serve(p: Policy, limit: nat, worlds: nat -> World, r: nat) returns (err: Option<Error>, attempts: nat, waits: seq<nat>)
      requires limit >= 1 && Conserved(ledger, r, 0, held, open) && r in open
      modifies this`ledger, this`held, this`open
      ensures Answered(p, limit, worlds, err, attempts, waits)
      ensures Conserved(ledger, r, attempts, held, open) && OnlyAdds(old(ledger), ledger, r)
      ensures open == if err.None? then old(open) else old(open) - {r}
      ensures held == if err.None? && p.bulkhead then old(held) + {Try(r, attempts)} else old(held)
    {
      hide Conserved, OnlyAdds, Answered, Out;
      err, attempts, waits := Attempts(p, limit, worlds, r);
      if err.Some? {
        ghost var l := ledger;
        LeaveConserved(l, r, attempts, held, open, r);
        Leave(r);
        open := open - {r};
        OnlyAddsThen(old(ledger), l, ledger, r);
      }
    }
  }

  /** A failed attempt that is tried again, if attempts are left: the error is one of those, Retry-After is not too
      long, the context's deadline leaves time and the budget grants it. */
  predicate WorthRetrying(p: Policy, w: World, n: nat) {
    && !Succeeds(p, w, n) && Retryable(ErrorOf(p, w, n)) && ErrorOf(p, w, n).retryAfter <= p.maxDelay
    && !w.deadlineNear && w.affordable
  }

  /** Each wait is the jittered backoff or the Retry-After of the attempt before it, and never above the maximum. */
  ghost predicate Delays(p: Policy, worlds: nat -> World, waits: seq<nat>) {
    forall i :: 0 <= i < |waits| ==>
      && ErrorOf(p, worlds(i + 1), i + 1).retryAfter <= waits[i] <= p.maxDelay
      && FullJitter(i + 1, p.baseDelay, p.maxDelay, worlds(i + 1).pick) <= waits[i]
      && waits[i] == Max(FullJitter(i + 1, p.baseDelay, p.maxDelay, worlds(i + 1).pick), ErrorOf(p, worlds(i + 1), i + 1).retryAfter)
  }

  /** How a request that made `attempts` of at most `limit` attempts ends: the last one succeeded, or failed and is not
      tried again, or the caller's context ended before the next. */
  ghost predicate Ends(p: Policy, limit: nat, worlds: nat -> World, attempts: nat, err: Option<Error>) {
    if err.None? then attempts >= 1 && Succeeds(p, worlds(attempts), attempts)
    else
      || (attempts >= 1 && !Succeeds(p, worlds(attempts), attempts) && err.value == ErrorOf(p, worlds(attempts), attempts)
          && (attempts == limit || !WorthRetrying(p, worlds(attempts), attempts)))
      || (attempts < limit && err.value == Error(Canceled, 0)
          && (worlds(attempts + 1).canceled || (attempts >= 1 && !worlds(attempts).slept)))
  }

  /** A whole request with at most `limit` attempts: each one before the last was worth retrying, the waits are as they
      should be, and it ended as it may. */
  ghost predicate Answered(p: Policy, limit: nat, worlds: nat -> World, err: Option<Error>, attempts: nat, waits: seq<nat>) {
    && attempts <= limit && |waits| <= attempts && Delays(p, worlds, waits)
    && (forall k :: 1 <= k < attempts ==> WorthRetrying(p, worlds(k), k))
    && Ends(p, limit, worlds, attempts, err)
  }

  /** Whether an admitted attempt gets past the limiter and the bulkhead. */
  predicate Passes(p: Policy, w: World) { !(p.limiter && w.limited) && !(p.bulkhead && !w.acquired) }

  /** Whether the attempt gets a response the caller may read. */
  predicate Succeeds(p: Policy, w: World, n: nat) {
    w.allowed && Passes(p, w) && IsReadable(w, n)
  }

  /** Whether the transport gives such a response. */
  predicate IsReadable(w: World, n: nat) { !(n > 1 && w.bodyFails) && w.reply.Answer? && w.reply.code < 400 }

  function ErrorOf(p: Policy, w: World, n: nat): Error {
    if !w.allowed then Error(CircuitOpen, 0)
    else if p.limiter && w.limited then Error(if w.canceledWaiting then Canceled else RateLimited, 0)
    else if p.bulkhead && !w.acquired then Error(if w.canceledWaiting then Canceled else BulkheadFull, 0)
    else ExchangeError(w, n)
  }

  function ExchangeError(w: World, n: nat): Error {
    if n > 1 && w.bodyFails then Error(Invalid, 0)
    else if w.reply.Broken? then Error(w.reply.kind, 0)
    else Error(Status(w.reply.code), w.reply.retryAfter)
  }

  /** What a transport error tells the breaker: a refused redirect is an answer, a cancelled call says nothing. */
  function OfError(kind: Kind): Outcome {
    if kind.Redirect? then Success else if kind.Canceled? then Ignored else Failure
  }

  /** What an admitted attempt tells the breaker: a local rejection says nothing about the dependency. */
  function OutcomeOf(p: Policy, w: World, n: nat): Outcome {
    if !Passes(p, w) then Ignored else ExchangeOutcome(w, n)
  }

  function ExchangeOutcome(w: World, n: nat): Outcome {
    if n > 1 && w.bodyFails then Ignored
    else match w.reply
      case Broken(kind) => OfError(kind)
      case Answer(code, _) => if code >= 500 then Failure else Success
  }

  /** What the breaker hears: nothing about the dependency from a local obstacle or a cancelled call, a success from any
      answer below 500 and from a refused redirect, a failure from everything else. */
  lemma OutcomeByReply(p: Policy, w: World, n: nat)
    ensures OutcomeOf(p, w, n) ==
              if (p.limiter && w.limited) || (p.bulkhead && !w.acquired) || (n > 1 && w.bodyFails) then Ignored
              else if w.reply.Answer? then (if w.reply.code >= 500 then Failure else Success)
              else if w.reply.kind == Redirect then Success
              else if w.reply.kind == Canceled then Ignored
              else Failure
  {
  }

  /** The caller gets the response of an admitted attempt without obstacles that answers below 400, and otherwise the
      error of the first thing in its way. */
  lemma AnswerByObstacle(p: Policy, w: World, n: nat)
    ensures Succeeds(p, w, n) <==>
              && w.allowed && !(p.limiter && w.limited) && (p.bulkhead ==> w.acquired) && (n > 1 ==> !w.bodyFails)
              && w.reply.Answer? && w.reply.code < 400
    ensures !Succeeds(p, w, n) ==>
              ErrorOf(p, w, n) == (
                if !w.allowed then Error(CircuitOpen, 0)
                else if p.limiter && w.limited then Error(if w.canceledWaiting then Canceled else RateLimited, 0)
                else if p.bulkhead && !w.acquired then Error(if w.canceledWaiting then Canceled else BulkheadFull, 0)
                else if n > 1 && w.bodyFails then Error(Invalid, 0)
                else if w.reply.Answer? then Error(Status(w.reply.code), w.reply.retryAfter) else Error(w.reply.kind, 0))
  {
  }

  /** An attempt is worth another one exactly when it ended in a timeout, a broken connection, or one of the statuses 408,
      425, 429 and 5xx but 501 and 505, no longer wait was asked for than the maximum, the deadline leaves time, and the
      budget has a retry. */
  lemma RetriedExactly(p: Policy, w: World, n: nat)
    ensures WorthRetrying(p, w, n) <==>
              && !Succeeds(p, w, n) && !w.deadlineNear && w.affordable
              && var e := ErrorOf(p, w, n);
                 && e.retryAfter <= p.maxDelay
                 && (match e.kind
                     case Timeout => true
                     case Connection => true
                     case Status(code) => code in {408, 425, 429} || (500 <= code <= 599 && code !in {501, 505})
                     case _ => false)
  {
    hide Succeeds, ErrorOf;
  }

  /** The body of a successful response: the first Close gives back the slot and the in-flight count. */
  class Body {
    const client: Client
    const p: Policy
    const k: Try
    var closed: bool

    /** What an open body still holds; no request and no Close of another body changes it. */
    ghost predicate Valid()
      reads this, client
    {
      !closed ==> k.req in client.open && (k in client.held <==> p.bulkhead)
    }

    constructor (client: Client, p: Policy, k: Try)
      ensures this.client == client && this.p == p && this.k == k && !closed
    {
      this.client, this.p, this.k := client, p, k;
      closed := false;
    }

    method Close()
      requires Valid() && client.Valid()
      modifies this, client`ledger, client`held, client`open
      ensures Valid() && client.Valid() && closed
      ensures old(closed) ==> client.ledger == old(client.ledger) && client.open == old(client.open) && client.held == old(client.held)
      ensures !old(closed) ==> OnlyAdds(old(client.ledger), client.ledger, k.req) && client.open == old(client.open) - {k.req} && client.held == old(client.held) - {k}
    {
      hide Conserved, OnlyAdds;
      if !closed {
        closed := true;
        ghost var l := client.ledger;
        ReleaseConserved(l, p, client.requests, 0, client.held, client.open, k);
        client.Release(p, k);
        ghost var l1 := client.ledger;
        LeaveConserved(l1, client.requests, 0, client.held - {k}, client.open, k.req);
        client.Leave(k.req);
        OnlyAddsThen(l, l1, client.ledger, k.req);
        client.held := client.held - {k};
        client.open := client.open - {k.req};
      }
    }
  }

  /** A request whose response's body is closed, once or any number of times, has given back everything it took,
      exactly once, whatever requests came before and whichever of their bodies are still open. */
  method RequestThenClose(c: Client, p: Policy, retry: bool, worlds: nat -> World, closes: nat)
    requires c.Valid() && closes >= 1
    modifies c
    ensures c.Valid() && c.open == old(c.open) && c.held == old(c.held) && c.requests == old(c.requests) + 1
    ensures OnlyAdds(old(c.ledger), c.ledger, old(c.requests))
  {
    hide Conserved, OnlyAdds, Answered;
    ghost var r := c.requests;
    EnterConserved(c.ledger, r, c.held, c.open);
    forall n: nat ensures Try(r, n) !in c.held { NothingHeld(c.ledger, r, 0, c.held, c.open, Try(r, n)); }
    var body, err, attempts, waits := c.Send(true, true, p, retry, worlds);
    if body.Some? {
      ghost var l := c.ledger;
      body.value.Close();
      ghost var settled := c.ledger;
      OnlyAddsThen(old(c.ledger), l, settled, r);
      for i := 1 to closes
        invariant body.value.closed && body.value.client == c && c.ledger == settled && c.Valid() && c.requests == old(c.requests) + 1
        invariant c.open == old(c.open) && c.held == old(c.held)
      {
        body.value.Close();
      }
    }
  }
}
