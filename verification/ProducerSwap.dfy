/**
The replaceable producer of libs/kafka-rdkafka/rdkafka.go: calls hold a read lock and use
the client they find under it; a fatal error replaces the client, Close destroys it, both
under the write lock.

Every lock operation and every entry into a client is one step. Any number of sends, pings,
fatal reports, replacements and Close calls run in any order; creating a client may fail.
The wait group counts the pumps of every client and the replacements under way.
*/
module ProducerSwap {
  import Sets

  type Tid = nat
  type Client = nat

  datatype Option<+T> = None | Some(value: T)

  /** Who takes the write lock: an event pump in startReplace, a replacement, or Close. */
  datatype Job = Start(c: Client) | Replace(c: Client) | Shut

  datatype Pc =
    | Outside
    | WantRead | Reading | Inside(c: Client)      // Send (its produce) or Ping
    | Pump(c: Client)                             // the event pump or the log pump of a client
    | WantsLock(job: Job) | Locked(job: Job)
    | Took(job: Job, c: Client)                   // before destroying c; Close flushes it here
    | Destroying(job: Job, c: Client)
    | Ending                                      // replace, before its wg.Done
    | Waiting | Returned                          // the Close call that closed the producer

  datatype Machine = Machine(
    readers: set<Tid>, writer: Option<Tid>,
    cl: Client, closed: bool, wg: int,
    created: nat,                                 // clients 0 .. created - 1 exist
    taken: map<Client, Tid>,                      // clients a thread has taken to destroy, until they are
    destroyed: multiset<Client>,
    threads: map<Tid, Pc>)

  datatype Action =
    | Call(tid: Tid) | Fatal(tid: Tid) | CallClose(tid: Tid)
    | Go(tid: Tid, ok: bool, t1: Tid, t2: Tid)    // ok: a client creation succeeds; t1, t2: goroutines started

  function At(m: Machine, tid: Tid): Pc { if tid in m.threads then m.threads[tid] else Outside }

  function Put(m: Machine, tid: Tid, pc: Pc): Machine { m.(threads := m.threads[tid := pc]) }

  predicate Free(m: Machine) { m.readers == {} && m.writer.None? }

  function Unlocked(m: Machine): Machine { m.(writer := None) }

  predicate Fresh(m: Machine, tid: Tid, t1: Tid, t2: Tid) {
    t1 !in m.threads && t2 !in m.threads && t1 != t2 && t1 != tid && t2 != tid
  }

  /** A goroutine counted in the wait group starts. */
  function Started(m: Machine, t: Tid, pc: Pc): Machine { Put(m.(wg := m.wg + 1), t, pc) }

  /** What the holder of the write lock does before it unlocks. */
  function Critical(m: Machine, tid: Tid, job: Job, ok: bool, t1: Tid, t2: Tid): Machine {
    match job
    case Start(c) =>
      if m.closed then Put(Unlocked(m), tid, Pump(c))
      else if !Fresh(m, tid, t1, t2) then m
      else Started(Put(Unlocked(m), tid, Pump(c)), t1, WantsLock(Replace(c)))
    case Replace(failed) =>
      if m.closed || m.cl != failed || !ok then Put(Unlocked(m), tid, Ending)
      else if !Fresh(m, tid, t1, t2) then m
      else Started(Started(Take(m.(created := m.created + 1, cl := m.created), tid, job, failed), t1, Pump(m.created)), t2, Pump(m.created))
    case Shut =>
      if m.closed then Put(Unlocked(m), tid, Outside) else Take(m.(closed := true), tid, job, m.cl)
  }

  function Take(m: Machine, tid: Tid, job: Job, c: Client): Machine {
    Put(Unlocked(m).(taken := m.taken[c := tid]), tid, Took(job, c))
  }

  /** One step; an action that is not enabled changes nothing. */
  function Next(m: Machine, act: Action): Machine {
    match act
    case Call(tid) => if At(m, tid).Outside? then Put(m, tid, WantRead) else m
    case Fatal(tid) => if At(m, tid).Pump? then Put(m, tid, WantsLock(Start(At(m, tid).c))) else m
    case CallClose(tid) => if At(m, tid).Outside? then Put(m, tid, WantsLock(Shut)) else m
    case Go(tid, ok, t1, t2) =>
      match At(m, tid)
      case Outside => m
      case WantRead => if m.writer.None? then Put(m.(readers := m.readers + {tid}), tid, Reading) else m
      case Reading => if m.closed then Put(m.(readers := m.readers - {tid}), tid, Outside) else Put(m, tid, Inside(m.cl))
      case Inside(c) => Put(m.(readers := m.readers - {tid}), tid, Outside)
      case Pump(c) => if c in m.destroyed then Put(m.(wg := m.wg - 1), tid, Outside) else m
      case WantsLock(job) => if Free(m) then Put(m.(writer := Some(tid)), tid, Locked(job)) else m
      case Locked(job) => Critical(m, tid, job, ok, t1, t2)
      case Took(job, c) => Put(m, tid, Destroying(job, c))
      case Destroying(job, c) =>
        Put(m.(taken := m.taken - {c}, destroyed := m.destroyed + multiset{c}), tid, if job.Shut? then Waiting else Ending)
      case Ending => Put(m.(wg := m.wg - 1), tid, Outside)
      case Waiting => if m.wg == 0 then Put(m, tid, Returned) else m
      case Returned => m
  }

  /** A new producer: client 0 and its two pumps. */
  const START := Machine({}, None, 0, false, 2, 1, map[], multiset{}, map[0 := Pump(0), 1 := Pump(0)])

  ghost function Run(acts: seq<Action>): Machine {
    if acts == [] then START else Next(Run(acts[..|acts| - 1]), acts[|acts| - 1])
  }

  // ------------------------------------------------------------ invariant

  predicate HoldsRead(pc: Pc) { pc.Reading? || pc.Inside? }

  predicate InGroup(pc: Pc) {
    match pc
    case Pump(_) => true
    case WantsLock(job) => !job.Shut?
    case Locked(job) => !job.Shut?
    case Took(job, _) => !job.Shut?
    case Destroying(job, _) => !job.Shut?
    case Ending => true
    case _ => false
  }

  function Group(m: Machine): set<Tid> { set tid | tid in m.threads && InGroup(m.threads[tid]) }

  predicate Owns(pc: Pc) { pc.Took? || pc.Destroying? }

  ghost predicate LocksFit(m: Machine) {
    && (forall tid: Tid :: tid in m.readers <==> HoldsRead(At(m, tid)))
    && (forall tid: Tid :: At(m, tid).Locked? <==> m.writer == Some(tid))
    && (m.writer.Some? ==> m.readers == {})
  }

  ghost predicate PcFits(m: Machine, tid: Tid, pc: Pc) {
    && (pc.Inside? ==> pc.c == m.cl && !m.closed)
    && (Owns(pc) ==>
          && pc.c in m.taken && m.taken[pc.c] == tid
          && (if pc.job.Shut? then pc.c == m.cl && m.closed else pc.c != m.cl))
    && (pc.Waiting? || pc.Returned? ==> m.cl !in m.taken && m.closed)
    && (pc.Returned? ==> m.wg == 0)
  }

  /** A client is the current one of an open producer, or taken by one thread, or destroyed, once. */
  ghost predicate ClientsFit(m: Machine) {
    && m.cl < m.created
    && (forall c: Client :: c in m.taken ==>
          && c < m.created && (c != m.cl || m.closed)
          && Owns(At(m, m.taken[c])) && At(m, m.taken[c]).c == c)
    && (forall c: Client :: m.destroyed[c] == if c >= m.created || c in m.taken || (c == m.cl && !m.closed) then 0 else 1)
  }

  ghost predicate Inv(m: Machine) {
    && LocksFit(m)
    && (forall tid: Tid :: PcFits(m, tid, At(m, tid)))
    && ClientsFit(m)
    && m.wg == |Group(m)|
  }

  // ------------------------------------------------------------ preservation

  function Delta(from: Pc, to: Pc): int { (if InGroup(to) then 1 else 0) - (if InGroup(from) then 1 else 0) }

  lemma GroupAfter(m: Machine, m': Machine, tid: Tid, pc: Pc)
    requires m'.threads == m.threads[tid := pc]
    ensures |Group(m')| == |Group(m)| + Delta(At(m, tid), pc)
  {
    assert Group(m) - {tid} == Group(m') - {tid};
    Sets.OneMember(Group(m), Group(m'), tid);
  }

  lemma LocksAfter(m: Machine, m': Machine, tid: Tid)
    requires LocksFit(m) && m'.threads == m.threads[tid := At(m', tid)]
    requires m'.readers == if HoldsRead(At(m', tid)) then m.readers + {tid} else m.readers - {tid}
    requires m'.writer == if At(m', tid).Locked? then Some(tid) else if At(m, tid).Locked? then None else m.writer
    requires At(m', tid).Locked? ==> Free(m)
    requires HoldsRead(At(m', tid)) ==> HoldsRead(At(m, tid)) || m.writer.None?
    ensures LocksFit(m')
  {
  }

  lemma ReadersSame(m: Machine, tid: Tid)
    requires LocksFit(m)
    ensures !HoldsRead(At(m, tid)) ==> m.readers - {tid} == m.readers
    ensures HoldsRead(At(m, tid)) ==> m.readers + {tid} == m.readers
  {
  }

  /** One thread moves, taking or giving up locks and its place in the wait group; the clients are left alone. */
  lemma Moved(m: Machine, m': Machine, tid: Tid, pc: Pc)
    requires Inv(m) && LocksFit(m')
    requires m' == m.(readers := m'.readers, writer := m'.writer, wg := m.wg + Delta(At(m, tid), pc), threads := m.threads[tid := pc])
    requires Owns(pc) == Owns(At(m, tid)) && (Owns(pc) ==> pc.c == At(m, tid).c)
    requires PcFits(m', tid, pc) && (InGroup(pc) ==> InGroup(At(m, tid)))
    ensures Inv(m')
  {
    GroupAfter(m, m', tid, pc);
    forall u: Tid ensures PcFits(m', u, At(m', u)) { assert PcFits(m, u, At(m, u)); }
  }

  /** A goroutine starts, counted in the wait group by a thread that is itself counted. */
  lemma StartKeeps(m: Machine, starter: Tid, t: Tid, pc: Pc)
    requires Inv(m) && InGroup(At(m, starter)) && t !in m.threads && (pc.WantsLock? || pc.Pump?) && InGroup(pc)
    ensures Inv(Started(m, t, pc))
  {
    var m' := Started(m, t, pc);
    GroupAfter(m, m', t, pc);
    assert starter in Group(m);
    ReadersSame(m, t);
    LocksAfter(m, m', t);
    forall u: Tid ensures PcFits(m', u, At(m', u)) { assert PcFits(m, u, At(m, u)); }
  }

  /** replace installs a new client and takes the failed one. */
  lemma InstallKeeps(m: Machine, tid: Tid)
    requires Inv(m) && At(m, tid) == Locked(Replace(m.cl)) && !m.closed
    ensures Inv(Take(m.(created := m.created + 1, cl := m.created), tid, Replace(m.cl), m.cl))
  {
    var m' := Take(m.(created := m.created + 1, cl := m.created), tid, Replace(m.cl), m.cl);
    GroupAfter(m, m', tid, Took(Replace(m.cl), m.cl));
    ReadersSame(m, tid);
    LocksAfter(m, m', tid);
    forall u: Tid ensures PcFits(m', u, At(m', u)) {
      assert PcFits(m, u, At(m, u));
      assert u !in m.readers;
    }
  }

  /** Close marks the producer closed and takes its client. */
  lemma ShutKeeps(m: Machine, tid: Tid)
    requires Inv(m) && At(m, tid) == Locked(Shut) && !m.closed
    ensures Inv(Take(m.(closed := true), tid, Shut, m.cl))
  {
    var m' := Take(m.(closed := true), tid, Shut, m.cl);
    GroupAfter(m, m', tid, Took(Shut, m.cl));
    ReadersSame(m, tid);
    LocksAfter(m, m', tid);
    forall u: Tid ensures PcFits(m', u, At(m', u)) {
      assert PcFits(m, u, At(m, u));
      assert u !in m.readers;
    }
  }

  /** The machine after thread `tid` has destroyed `c`. */
  function Destroyed(m: Machine, tid: Tid, job: Job, c: Client): Machine {
    Put(m.(taken := m.taken - {c}, destroyed := m.destroyed + multiset{c}), tid, if job.Shut? then Waiting else Ending)
  }

  lemma ClientsAfterDestroy(m: Machine, tid: Tid, job: Job, c: Client)
    requires Inv(m) && At(m, tid) == Destroying(job, c)
    ensures ClientsFit(Destroyed(m, tid, job, c))
  {
    hide LocksFit, Group;
    assert PcFits(m, tid, At(m, tid));
  }

  lemma PcsAfterDestroy(m: Machine, tid: Tid, job: Job, c: Client, u: Tid)
    requires Inv(m) && At(m, tid) == Destroying(job, c)
    ensures PcFits(Destroyed(m, tid, job, c), u, At(Destroyed(m, tid, job, c), u))
  {
    hide LocksFit, Group;
    assert PcFits(m, tid, At(m, tid)) && PcFits(m, u, At(m, u));
  }

  lemma DestroyKeeps(m: Machine, act: Action)
    requires Inv(m) && act.Go? && At(m, act.tid).Destroying?
    ensures Inv(Next(m, act))
  {
    hide Critical, Free, Fresh, PcFits, ClientsFit, Group;
    var tid, job, c := act.tid, At(m, act.tid).job, At(m, act.tid).c;
    var m' := Destroyed(m, tid, job, c);
    assert Next(m, act) == m';
    GroupAfter(m, m', tid, At(m', tid));
    ReadersSame(m, tid);
    LocksAfter(m, m', tid);
    ClientsAfterDestroy(m, tid, job, c);
    forall u: Tid ensures PcFits(m', u, At(m', u)) { PcsAfterDestroy(m, tid, job, c, u); }
  }

  /** The holder of the write lock gives it up and moves to a place that takes nothing. */
  lemma UnlockKeeps(m: Machine, tid: Tid, pc: Pc)
    requires Inv(m) && At(m, tid).Locked? && InGroup(pc) == InGroup(At(m, tid)) && (pc.Pump? || pc.Ending? || pc.Outside?)
    ensures Inv(Put(Unlocked(m), tid, pc))
  {
    var m' := Put(Unlocked(m), tid, pc);
    ReadersSame(m, tid);
    LocksAfter(m, m', tid);
    Moved(m, m', tid, pc);
  }

  lemma CriticalKeeps(m: Machine, tid: Tid, job: Job, ok: bool, t1: Tid, t2: Tid)
    requires Inv(m) && At(m, tid) == Locked(job)
    ensures Inv(Critical(m, tid, job, ok, t1, t2))
  {
    hide Inv;
    match job
    case Start(c) =>
      UnlockKeeps(m, tid, Pump(c));
      if !m.closed && Fresh(m, tid, t1, t2) { StartKeeps(Put(Unlocked(m), tid, Pump(c)), tid, t1, WantsLock(Replace(c))); }
    case Replace(failed) =>
      if m.closed || m.cl != failed || !ok {
        UnlockKeeps(m, tid, Ending);
      } else if Fresh(m, tid, t1, t2) {
        InstallKeeps(m, tid);
        var m1 := Take(m.(created := m.created + 1, cl := m.created), tid, job, failed);
        StartKeeps(m1, tid, t1, Pump(m.created));
        StartKeeps(Started(m1, t1, Pump(m.created)), tid, t2, Pump(m.created));
      }
    case Shut => if m.closed { UnlockKeeps(m, tid, Outside); } else { ShutKeeps(m, tid); }
  }

  /** A read lock is taken or given up, or a client entered under it. */
  lemma ReadKeeps(m: Machine, act: Action)
    requires Inv(m) && act.Go? && (At(m, act.tid).WantRead? || HoldsRead(At(m, act.tid)))
    ensures Inv(Next(m, act))
  {
    var m', tid := Next(m, act), act.tid;
    ReadersSame(m, tid);
    if m' != m {
      LocksAfter(m, m', tid);
      Moved(m, m', tid, At(m', tid));
    }
  }

  /** A thread moves without a read lock and without what the write lock guards. */
  lemma PlainKeeps(m: Machine, m': Machine, tid: Tid, pc: Pc)
    requires Inv(m) && !HoldsRead(At(m, tid)) && !HoldsRead(pc) && !At(m, tid).Locked? && (pc.Locked? ==> Free(m))
    requires m' == m.(writer := if pc.Locked? then Some(tid) else m.writer, wg := m.wg + Delta(At(m, tid), pc), threads := m.threads[tid := pc])
    requires Owns(pc) == Owns(At(m, tid)) && (Owns(pc) ==> pc.c == At(m, tid).c && pc.job == At(m, tid).job)
    requires (pc.Waiting? ==> At(m, tid).Waiting?) && (pc.Returned? ==> At(m, tid).Waiting? && m.wg == 0) && (InGroup(pc) ==> InGroup(At(m, tid)))
    ensures Inv(m')
  {
    ReadersSame(m, tid);
    LocksAfter(m, m', tid);
    assert PcFits(m, tid, At(m, tid));
    Moved(m, m', tid, pc);
  }

  lemma StepKeeps(m: Machine, act: Action)
    requires Inv(m)
    ensures Inv(Next(m, act))
  {
    hide Inv;
    var m', tid := Next(m, act), act.tid;
    var from := At(m, tid);
    if act.Go? && from.Locked? {
      CriticalKeeps(m, tid, from.job, act.ok, act.t1, act.t2);
    } else if act.Go? && from.Destroying? {
      DestroyKeeps(m, act);
    } else if act.Go? && (from.WantRead? || HoldsRead(from)) {
      ReadKeeps(m, act);
    } else if m' != m {
      PlainKeeps(m, m', tid, At(m', tid));
    }
  }

  lemma {:induction false} Reachable(acts: seq<Action>)
    ensures Inv(Run(acts))
  {
    hide Next;
    if acts == [] {
      assert Group(START) == {0, 1};
    } else {
      Reachable(acts[..|acts| - 1]);
      StepKeeps(Run(acts[..|acts| - 1]), acts[|acts| - 1]);
    }
  }

  // ------------------------------------------------------------ over every run

  /** No send, ping or flush is inside a client that some thread is destroying or has destroyed. */
  lemma NoCallInsideDestroyed(acts: seq<Action>, tid: Tid, c: Client)
    requires At(Run(acts), tid) == Inside(c) || At(Run(acts), tid) == Took(Shut, c)
    ensures c !in Run(acts).destroyed && forall u, job :: At(Run(acts), u) != Destroying(job, c)
  {
    var m := Run(acts);
    Reachable(acts);
    assert PcFits(m, tid, At(m, tid));
    assert m.destroyed[c] == 0;
    forall u, job ensures At(m, u) != Destroying(job, c) { assert PcFits(m, u, At(m, u)); }
  }

  /** No client is ever destroyed twice. */
  lemma DestroyedAtMostOnce(acts: seq<Action>, c: Client)
    ensures Run(acts).destroyed[c] <= 1
  {
    Reachable(acts);
  }

  lemma ClosedStep(m: Machine, act: Action)
    requires m.closed
    ensures Next(m, act).closed && Next(m, act).created == m.created
  {
  }

  /** None is created after closing, and closing is for good. */
  lemma {:induction false} NoneCreatedAfterClosing(acts: seq<Action>, more: seq<Action>)
    requires Run(acts).closed
    ensures Run(acts + more).closed && Run(acts + more).created == Run(acts).created
  {
    hide Next;
    if more == [] {
      assert acts + more == acts;
    } else {
      var init := more[..|more| - 1];
      NoneCreatedAfterClosing(acts, init);
      assert (acts + more)[..|acts + more| - 1] == acts + init;
      ClosedStep(Run(acts + init), more[|more| - 1]);
    }
  }

  lemma {:induction false} ReturnedStays(acts: seq<Action>, tid: Tid, more: seq<Action>)
    requires At(Run(acts), tid).Returned?
    ensures At(Run(acts + more), tid).Returned?
  {
    hide Next;
    if more == [] {
      assert acts + more == acts;
    } else {
      var init := more[..|more| - 1];
      ReturnedStays(acts, tid, init);
      assert (acts + more)[..|acts + more| - 1] == acts + init;
      ReturnedStep(Run(acts + init), tid, more[|more| - 1]);
    }
  }

  /** The holder of the write lock moves itself and threads that are new, no other. */
  lemma CriticalLeavesOthers(m: Machine, u: Tid, job: Job, ok: bool, t1: Tid, t2: Tid, tid: Tid)
    requires tid in m.threads && tid != u
    ensures At(Critical(m, u, job, ok, t1, t2), tid) == At(m, tid)
  {
  }

  lemma ReturnedStep(m: Machine, tid: Tid, act: Action)
    requires At(m, tid).Returned?
    ensures At(Next(m, act), tid).Returned?
  {
    hide Critical, Free;
    if act.Go? && At(m, act.tid).Locked? {
      CriticalLeavesOthers(m, act.tid, At(m, act.tid).job, act.ok, act.t1, act.t2, tid);
    }
  }

  /** A client taken by a replacement keeps the wait group up. */
  lemma TakenKeepsGroup(m: Machine)
    requires Inv(m)
    ensures forall c: Client :: c in m.taken && c != m.cl ==> m.taken[c] in Group(m)
  {
    forall c: Client | c in m.taken && c != m.cl ensures m.taken[c] in Group(m) {
      assert PcFits(m, m.taken[c], At(m, m.taken[c]));
    }
  }

  /** By the time the closing call has returned, and ever after, each client created has been destroyed exactly once. */
  lemma ClosedMeansAllDestroyed(acts: seq<Action>, tid: Tid, more: seq<Action>)
    requires At(Run(acts), tid).Returned?
    ensures forall c: Client :: c < Run(acts + more).created ==> Run(acts + more).destroyed[c] == 1
  {
    ReturnedStays(acts, tid, more);
    var m := Run(acts + more);
    Reachable(acts + more);
    TakenKeepsGroup(m);
    assert PcFits(m, tid, At(m, tid));
    assert Group(m) == {};
  }

  // ------------------------------------------------------------ what the locks do not keep from happening

  /** A send or ping on an open producer, undisturbed, is inside the current client; on a closed one it is turned away. */
  lemma CallReachesClient(m: Machine, tid: Tid, ok: bool, t1: Tid, t2: Tid)
    requires At(m, tid).Outside? && m.writer.None?
    ensures var go := Go(tid, ok, t1, t2);
            At(Next(Next(Next(m, Call(tid)), go), go), tid) == if m.closed then Outside else Inside(m.cl)
  {
    var m1 := Next(m, Call(tid));
    assert At(m1, tid) == WantRead && m1.writer.None?;
    var m2 := Next(m1, Go(tid, ok, t1, t2));
    assert At(m2, tid) == Reading && m2.closed == m.closed && m2.cl == m.cl;
  }

  /** A fatal report of the current client's pump, undisturbed on an open producer, ends with a new current client and the
      failed one taken to be destroyed, if the creation succeeds; if it fails, or another client is current by then, the
      current client stays. */
  lemma FatalReplaces(m: Machine, pump: Tid, failed: Client, t: Tid, u: Tid, p1: Tid, p2: Tid, ok: bool)
    requires At(m, pump) == Pump(failed) && !m.closed && m.readers == {} && m.writer.None?
    requires t !in m.threads && u !in m.threads && p1 !in m.threads && p2 !in m.threads && t != u && t != p1 && t != p2 && p1 != p2
    ensures var m' := Replacing(m, pump, t, u, p1, p2, ok);
            if ok && m.cl == failed then
              && m'.created == m.created + 1 && m'.cl == m.created && failed in m'.taken && At(m', t) == Took(Replace(failed), failed)
            else m'.created == m.created && m'.cl == m.cl && At(m', t) == Ending
  {
    var go := Go(pump, true, t, u);
    var m1 := Next(m, Fatal(pump));
    assert m1 == Put(m, pump, WantsLock(Start(failed)));
    var m2 := Next(m1, go);
    assert m2 == Put(m1.(writer := Some(pump)), pump, Locked(Start(failed)));
    var m3 := Next(m2, go);
    assert m3 == Started(Put(Unlocked(m2), pump, Pump(failed)), t, WantsLock(Replace(failed)));
    var m4 := Next(m3, Go(t, ok, p1, p2));
    assert m4 == Put(m3.(writer := Some(t)), t, Locked(Replace(failed)));
  }

  /** The pump reports the failure and starts the replacement, thread `t`, which takes the lock and does its work. */
  ghost function Replacing(m: Machine, pump: Tid, t: Tid, u: Tid, p1: Tid, p2: Tid, ok: bool): Machine {
    var go := Go(pump, true, t, u);
    Next(Next(Next(Next(Next(m, Fatal(pump)), go), go), Go(t, ok, p1, p2)), Go(t, ok, p1, p2))
  }

  /** Close, undisturbed on an open producer, closes it, destroys the current client and waits. */
  lemma CloseDestroys(m: Machine, tid: Tid, ok: bool, t1: Tid, t2: Tid)
    requires At(m, tid).Outside? && !m.closed && m.readers == {} && m.writer.None?
    ensures var go := Go(tid, ok, t1, t2);
            var m' := Next(Next(Next(Next(Next(m, CallClose(tid)), go), go), go), go);
            m'.closed && m'.destroyed == m.destroyed + multiset{m.cl} && m'.wg == m.wg && At(m', tid) == Waiting
  {
    var go := Go(tid, ok, t1, t2);
    var m1 := Next(m, CallClose(tid));
    assert m1 == Put(m, tid, WantsLock(Shut));
    var m2 := Next(m1, go);
    assert m2 == Put(m1.(writer := Some(tid)), tid, Locked(Shut));
    var m3 := Next(m2, go);
    assert m3 == Take(m2.(closed := true), tid, Shut, m.cl);
    var m4 := Next(m3, go);
    assert m4 == Put(m3, tid, Destroying(Shut, m.cl));
  }

  /** And it returns once the pumps have ended, which those of a destroyed client do, and the replacements. */
  lemma CloseReturns(m: Machine, tid: Tid, act: Action)
    requires act.Go? && act.tid == tid
    ensures At(m, tid).Waiting? ==> At(Next(m, act), tid) == if m.wg == 0 then Returned else Waiting
    ensures At(m, tid).Pump? && At(m, tid).c in m.destroyed ==> At(Next(m, act), tid) == Outside && Next(m, act).wg == m.wg - 1
    ensures At(m, tid).Ending? ==> At(Next(m, act), tid) == Outside && Next(m, act).wg == m.wg - 1
  {
    hide Critical;
  }
}
