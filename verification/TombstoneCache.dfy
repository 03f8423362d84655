/**
The delete-safe cache of libs/valkey: fills are SET NX, writers leave a tombstone after
their commit.

The class is the wrapper's view of the remote keys. The machine interleaves, for one key,
any number of readers (load, then fill), writers (commit, then tombstone, which may fail
or come late) and the clock. A row is created once, updated, and deleted at most once.
`SafeExactlyWhenFillsBeatTombstones` gives the exact condition of the safety claim.
*/
module TombstoneCache {
  datatype Option<+T> = None | Some(value: T)

  /** What a key holds: a cached value, or the mark of a recent invalidation, which no value encodes to. */
  datatype Content<+V> = Value(v: V) | Mark

  datatype Item<+V> = Item(content: Content<V>, expires: Option<nat>)

  /** What the server answers for a key at `now`. */
  function Present<V>(cell: Option<Item<V>>, now: nat): Option<Item<V>> {
    if cell.Some? && (cell.value.expires.None? || now < cell.value.expires.value) then cell else None
  }

  /** A lookup: the mark reads as a miss. */
  function Lookup<V>(cell: Option<Item<V>>, now: nat): Option<V> {
    match Present(cell, now)
    case Some(Item(Value(v), _)) => Some(v)
    case _ => None
  }

  function Lifetime(ttl: int, now: nat): Option<nat> {
    if ttl > 0 then Some(now + ttl) else None
  }

  /** The cell after a SET NX. */
  function Filled<V>(cell: Option<Item<V>>, v: V, ttl: int, now: nat): Option<Item<V>> {
    if Present(cell, now).Some? then cell else Some(Item(Value(v), Lifetime(ttl, now)))
  }

  /** ttl moved by `pick` of the 2 * (ttl / 10) + 1 positions of the spread. */
  function Jitter(ttl: int, pick: nat): (r: int)
    requires ttl > 0 ==> pick <= 2 * (ttl / 10)
    ensures ttl > 0 ==> r > 0 && 9 * ttl <= 10 * r <= 11 * ttl
    ensures ttl > 0 ==> r == ttl - ttl / 10 + (if ttl < 10 then 0 else pick)
    ensures ttl <= 0 ==> r == ttl
  {
    if ttl <= 0 || ttl / 10 == 0 then ttl else ttl + (pick - ttl / 10)
  }

  class Cache<V> {
    var store: map<string, Item<V>>

    constructor ()
      ensures store == map[]
    {
      store := map[];
    }

    ghost function Cell(key: string): Option<Item<V>>
      reads this
    {
      if key in store then Some(store[key]) else None
    }

    /** The value at `key`, unless it is missing, expired or a tombstone. */
    method Get(key: string, now: nat) returns (r: Option<V>)
      ensures r == Lookup(Cell(key), now)
      ensures r.Some? <==> key in store && store[key].content.Value? && (store[key].expires.Some? ==> now < store[key].expires.value)
      ensures r.Some? ==> r.value == store[key].content.v
    {
      if key !in store { return None; }
      var item := store[key];
      if item.expires.Some? && item.expires.value <= now { return None; }
      match item.content {
        case Mark => return None;
        case Value(v) => return Some(v);
      }
    }

    method Set(key: string, content: Content<V>, ttl: int, now: nat)
      modifies this
      ensures store == old(store)[key := Item(content, if ttl > 0 then Some(now + ttl) else None)]
    {
      if ttl > 0 {
        store := store[key := Item(content, Some(now + ttl))];
      } else {
        store := store[key := Item(content, None)];
      }
    }

    /** Writes only where there is neither a value nor a tombstone; refuses a ttl that is not positive. */
    method SetNX(key: string, v: V, ttl: int, now: nat) returns (ok: bool, err: bool)
      modifies this
      ensures err == (ttl <= 0)
      ensures ok <==> !err && (key in old(store) ==> old(store)[key].expires.Some? && old(store)[key].expires.value <= now)
      ensures store == if ok then old(store)[key := Item(Value(v), Some(now + ttl))] else old(store)
      ensures Cell(key) == if err then old(Cell(key)) else Filled(old(Cell(key)), v, ttl, now)
    {
      if ttl <= 0 { return false, true; }
      err := false;
      if key in store && (store[key].expires.None? || now < store[key].expires.value) {
        ok := false;
      } else {
        store := store[key := Item(Value(v), Some(now + ttl))];
        ok := true;
      }
    }

    /** Replaces whatever the key holds by the mark, for ttl. */
    method Tombstone(key: string, ttl: int, now: nat) returns (err: bool)
      modifies this
      ensures err == (ttl <= 0)
      ensures store == if err then old(store) else old(store)[key := Item(Mark, Some(now + ttl))]
    {
      if ttl <= 0 { return true; }
      Set(key, Mark, ttl, now);
      err := false;
    }
  }

  // ------------------------------------------------------------ the protocol

  type Tid = nat

  /** The timings: entries live ttl (jittered), tombstones tombTtl, and a fill lands at most `gap` after its read. */
  datatype Config = Config(ttl: int, tombTtl: int, gap: nat) {
    ghost predicate Valid() { ttl > 0 && tombTtl > 0 }
  }

  /** The row: its version (0 before it is created) and whether it exists. */
  datatype Row = Row(version: nat, live: bool)

  /** A value read at `at`. */
  datatype Loaded = Loaded(version: nat, at: nat)

  /** A committed change whose tombstone is still to be sent. */
  datatype Written = Written(version: nat, deleted: bool)

  datatype Machine = Machine(
    clock: nat, row: Row, cell: Option<Item<Loaded>>,
    readers: map<Tid, Loaded>, writers: map<Tid, Written>,
    floor: nat, gone: bool)                                // the newest version, and the delete, whose tombstone was applied

  datatype Action =
    | Tick(d: nat)
    | Create(w: Tid) | Update(w: Tid) | Delete(w: Tid)
    | Load(r: Tid) | Fill(r: Tid, pick: nat) | Drop(r: Tid)
    | Bury(w: Tid) | Fail(w: Tid)                          // the tombstone is applied, or never is

  function Commit(m: Machine, w: Tid, row: Row): Machine {
    m.(row := row, writers := m.writers[w := Written(row.version, !row.live)])
  }

  /** One step; an action that is not enabled changes nothing. */
  function Next(cfg: Config, m: Machine, act: Action): Machine
    requires cfg.Valid()
  {
    match act
    case Tick(d) => m.(clock := m.clock + d)
    case Create(w) => if w !in m.writers && m.row.version == 0 then Commit(m, w, Row(1, true)) else m
    case Update(w) => if w !in m.writers && m.row.live then Commit(m, w, Row(m.row.version + 1, true)) else m
    case Delete(w) => if w !in m.writers && m.row.live then Commit(m, w, Row(m.row.version, false)) else m
    case Load(r) => if r !in m.readers && m.row.live then m.(readers := m.readers[r := Loaded(m.row.version, m.clock)]) else m
    case Fill(r, pick) =>
      if r in m.readers && m.clock - m.readers[r].at <= cfg.gap && pick <= 2 * (cfg.ttl / 10)
      then m.(cell := Filled(m.cell, m.readers[r], Jitter(cfg.ttl, pick), m.clock), readers := m.readers - {r}) else m
    case Drop(r) => m.(readers := m.readers - {r})
    case Bury(w) =>
      if w in m.writers
      then m.(cell := Some(Item(Mark, Some(m.clock + cfg.tombTtl))), writers := m.writers - {w},
              floor := if m.writers[w].version > m.floor then m.writers[w].version else m.floor,
              gone := m.gone || m.writers[w].deleted) else m
    case Fail(w) => m.(writers := m.writers - {w})
  }

  const START := Machine(0, Row(0, false), None, map[], map[], 0, false)

  ghost function Run(cfg: Config, acts: seq<Action>): Machine
    requires cfg.Valid()
  {
    if acts == [] then START else Next(cfg, Run(cfg, acts[..|acts| - 1]), acts[|acts| - 1])
  }

  lemma Last(cfg: Config, acts: seq<Action>, act: Action)
    requires cfg.Valid()
    ensures Run(cfg, acts + [act]) == Next(cfg, Run(cfg, acts), act)
  {
    assert (acts + [act])[..|acts|] == acts;
  }

  function Hit(m: Machine): Option<Loaded> { Lookup(m.cell, m.clock) }

  // ------------------------------------------------------------ safety

  /** A value the applied tombstones forbid. */
  predicate Stale(m: Machine, v: Loaded) { v.version < m.floor || m.gone }

  predicate Deleted(row: Row) { !row.live && row.version > 0 }

  ghost predicate Inv(cfg: Config, m: Machine) {
    && m.floor <= m.row.version && (m.row.live ==> m.row.version > 0) && (m.gone ==> Deleted(m.row))
    && (forall w :: w in m.writers ==> m.writers[w].version <= m.row.version && (m.writers[w].deleted ==> Deleted(m.row)))
    && (forall r :: r in m.readers ==> m.readers[r].at <= m.clock)
    && (Hit(m).Some? ==> !Stale(m, Hit(m).value))
    // a stale read still on its way meets the tombstone, or comes too late to be written
    && (forall r :: r in m.readers && Stale(m, m.readers[r]) ==>
          || m.clock >= m.readers[r].at + cfg.tombTtl
          || (m.cell.Some? && m.cell.value.content.Mark? && m.cell.value.expires.Some?
              && m.cell.value.expires.value >= m.readers[r].at + cfg.tombTtl))
  }

  lemma StepKeeps(cfg: Config, m: Machine, act: Action)
    requires cfg.Valid() && cfg.gap < cfg.tombTtl && Inv(cfg, m)
    ensures Inv(cfg, Next(cfg, m, act))
    ensures m.floor <= Next(cfg, m, act).floor && (m.gone ==> Next(cfg, m, act).gone)
  {
  }

  lemma {:induction false} Reachable(cfg: Config, acts: seq<Action>)
    requires cfg.Valid() && cfg.gap < cfg.tombTtl
    ensures Inv(cfg, Run(cfg, acts))
  {
    if acts != [] {
      Reachable(cfg, acts[..|acts| - 1]);
      StepKeeps(cfg, Run(cfg, acts[..|acts| - 1]), acts[|acts| - 1]);
    }
  }

  /** After the tombstone of writer `w` is applied at the end of `acts`, the hits of the rest of the run respect it. */
  ghost predicate Respected(cfg: Config, acts: seq<Action>, w: Tid, more: seq<Action>)
    requires cfg.Valid()
  {
    w in Run(cfg, acts).writers ==>
      var written, hit := Run(cfg, acts).writers[w], Hit(Run(cfg, acts + [Bury(w)] + more));
      hit.Some? ==> hit.value.version >= written.version && !written.deleted
  }

  ghost predicate Safe(cfg: Config)
    requires cfg.Valid()
  {
    forall acts, w, more :: Respected(cfg, acts, w, more)
  }

  lemma {:induction false} FloorHolds(cfg: Config, acts: seq<Action>, w: Tid, more: seq<Action>)
    requires cfg.Valid() && cfg.gap < cfg.tombTtl && w in Run(cfg, acts).writers
    ensures var written, m := Run(cfg, acts).writers[w], Run(cfg, acts + [Bury(w)] + more);
            written.version <= m.floor && (written.deleted ==> m.gone)
  {
    var all := acts + [Bury(w)] + more;
    assert all[..|all| - 1] == if more == [] then acts else acts + [Bury(w)] + more[..|more| - 1];
    if more != [] {
      FloorHolds(cfg, acts, w, more[..|more| - 1]);
      Reachable(cfg, all[..|all| - 1]);
      StepKeeps(cfg, Run(cfg, all[..|all| - 1]), all[|all| - 1]);
    }
  }

  /** Fills that land before a tombstone set at their read would expire never bring back an older version or a deleted row. */
  lemma HitsRespectTombstones(cfg: Config, acts: seq<Action>, w: Tid, more: seq<Action>)
    requires cfg.Valid() && cfg.gap < cfg.tombTtl
    ensures Respected(cfg, acts, w, more)
  {
    if w in Run(cfg, acts).writers {
      FloorHolds(cfg, acts, w, more);
      Reachable(cfg, acts + [Bury(w)] + more);
    }
  }

  /** A reader that sits on its read for tombTtl brings the old version back. */
  lemma SlowFillResurrects(cfg: Config)
    requires cfg.Valid() && cfg.gap >= cfg.tombTtl
    ensures !Respected(cfg, [Create(0), Load(0), Update(1)], 1, [Tick(cfg.tombTtl), Fill(0, 0)])
  {
    var a3, tick, fill := [Create(0), Load(0), Update(1)], Tick(cfg.tombTtl), Fill(0, 0);
    assert a3 == [] + [Create(0)] + [Load(0)] + [Update(1)];
    Last(cfg, [], Create(0));
    Last(cfg, [] + [Create(0)], Load(0));
    Last(cfg, [] + [Create(0)] + [Load(0)], Update(1));
    var m3 := Run(cfg, a3);
    assert m3.writers[1] == Written(2, false) && m3.readers[0] == Loaded(1, 0) && m3.clock == 0;
    assert a3 + [Bury(1)] + [tick, fill] == a3 + [Bury(1)] + [tick] + [fill];
    Last(cfg, a3, Bury(1));
    Last(cfg, a3 + [Bury(1)], tick);
    Last(cfg, a3 + [Bury(1)] + [tick], fill);
    assert Hit(Run(cfg, a3 + [Bury(1)] + [tick, fill])) == Some(Loaded(1, 0));
  }

  /** The claim holds of every run exactly when every fill lands less than the tombstone's ttl after its read. */
  lemma SafeExactlyWhenFillsBeatTombstones(cfg: Config)
    requires cfg.Valid()
    ensures Safe(cfg) <==> cfg.gap < cfg.tombTtl
  {
    if cfg.gap < cfg.tombTtl {
      forall acts, w, more ensures Respected(cfg, acts, w, more) { HitsRespectTombstones(cfg, acts, w, more); }
    } else {
      SlowFillResurrects(cfg);
    }
  }

  // ------------------------------------------------------------ staleness without tombstones

  /** `v` was the row's committed version when it was read, at the end of some prefix of the run. */
  ghost predicate WasCurrent(cfg: Config, acts: seq<Action>, v: Loaded)
    requires cfg.Valid()
  {
    exists i :: 0 <= i <= |acts| && Run(cfg, acts[..i]).row == Row(v.version, true) && Run(cfg, acts[..i]).clock == v.at
  }

  ghost predicate ReadsWereCurrent(cfg: Config, acts: seq<Action>)
    requires cfg.Valid()
  {
    var m := Run(cfg, acts);
    && (forall r :: r in m.readers ==> WasCurrent(cfg, acts, m.readers[r]))
    && (m.cell.Some? && m.cell.value.content.Value? ==>
          && WasCurrent(cfg, acts, m.cell.value.content.v)
          && m.cell.value.expires.Some?
          && 10 * m.cell.value.expires.value <= 10 * (m.cell.value.content.v.at + cfg.gap) + 11 * cfg.ttl)
  }

  lemma StillWasCurrent(cfg: Config, acts: seq<Action>, act: Action, v: Loaded)
    requires cfg.Valid() && WasCurrent(cfg, acts, v)
    ensures WasCurrent(cfg, acts + [act], v)
  {
    var i :| 0 <= i <= |acts| && Run(cfg, acts[..i]).row == Row(v.version, true) && Run(cfg, acts[..i]).clock == v.at;
    assert (acts + [act])[..i] == acts[..i];
  }

  lemma ReadersStayCurrent(cfg: Config, acts: seq<Action>, act: Action)
    requires cfg.Valid() && ReadsWereCurrent(cfg, acts)
    ensures forall r :: r in Run(cfg, acts + [act]).readers ==> WasCurrent(cfg, acts + [act], Run(cfg, acts + [act]).readers[r])
  {
    Last(cfg, acts, act);
    var m, m' := Run(cfg, acts), Run(cfg, acts + [act]);
    forall r | r in m'.readers ensures WasCurrent(cfg, acts + [act], m'.readers[r]) {
      if r in m.readers && m.readers[r] == m'.readers[r] {
        StillWasCurrent(cfg, acts, act, m.readers[r]);
      } else {
        assert (acts + [act])[..|acts|] == acts;
      }
    }
  }

  lemma CellStaysCurrent(cfg: Config, acts: seq<Action>, act: Action)
    requires cfg.Valid() && ReadsWereCurrent(cfg, acts)
    ensures var cell := Run(cfg, acts + [act]).cell;
            cell.Some? && cell.value.content.Value? ==>
              && WasCurrent(cfg, acts + [act], cell.value.content.v)
              && cell.value.expires.Some?
              && 10 * cell.value.expires.value <= 10 * (cell.value.content.v.at + cfg.gap) + 11 * cfg.ttl
  {
    Last(cfg, acts, act);
    var m, m' := Run(cfg, acts), Run(cfg, acts + [act]);
    if m'.cell.Some? && m'.cell.value.content.Value? {
      StillWasCurrent(cfg, acts, act, m'.cell.value.content.v);
    }
  }

  lemma {:induction false} ReadsCurrent(cfg: Config, acts: seq<Action>)
    requires cfg.Valid()
    ensures ReadsWereCurrent(cfg, acts)
  {
    if acts != [] {
      var init, act := acts[..|acts| - 1], acts[|acts| - 1];
      ReadsCurrent(cfg, init);
      assert init + [act] == acts;
      ReadersStayCurrent(cfg, init, act);
      CellStaysCurrent(cfg, init, act);
    }
  }

  /** Whatever the tombstones do, a hit was the committed row less than 1.1 * ttl plus the read-to-fill gap ago. */
  lemma HitsAreBoundedlyStale(cfg: Config, acts: seq<Action>)
    requires cfg.Valid() && Hit(Run(cfg, acts)).Some?
    ensures var m, v := Run(cfg, acts), Hit(Run(cfg, acts)).value;
            WasCurrent(cfg, acts, v) && 10 * (m.clock - v.at) < 11 * cfg.ttl + 10 * cfg.gap
  {
    ReadsCurrent(cfg, acts);
  }

  // ------------------------------------------------------------ fills are served

  /** A reader that finds the row there has read it, as it is. */
  lemma ReaderLoads(cfg: Config, m: Machine, r: Tid)
    requires cfg.Valid() && m.row.live && r !in m.readers
    ensures var m' := Next(cfg, m, Load(r)); r in m'.readers && m'.readers[r] == Loaded(m.row.version, m.clock)
  {
  }

  /** Reader `r` may fill: it is in time, and there is neither a value nor a tombstone. */
  predicate CanFill(cfg: Config, m: Machine, r: Tid, pick: nat) {
    && r in m.readers && m.clock <= m.readers[r].at + cfg.gap && pick <= 2 * (cfg.ttl / 10)
    && (m.cell.None? || (m.cell.value.expires.Some? && m.cell.value.expires.value <= m.clock))
  }

  /** The key holds `v`, for at least nine tenths of ttl from `since`. */
  predicate Serves(cfg: Config, m: Machine, v: Loaded, since: nat) {
    && m.cell.Some? && m.cell.value.content == Value(v)
    && m.cell.value.expires.Some? && 10 * (m.cell.value.expires.value - since) >= 9 * cfg.ttl
  }

  lemma ServesStep(cfg: Config, m: Machine, act: Action, v: Loaded, since: nat)
    requires cfg.Valid() && Serves(cfg, m, v, since) && 10 * (m.clock - since) < 9 * cfg.ttl && !act.Bury?
    ensures Serves(cfg, Next(cfg, m, act), v, since) && m.clock <= Next(cfg, m, act).clock
  {
  }

  lemma {:induction false} ServedUntil(cfg: Config, acts: seq<Action>, r: Tid, pick: nat, more: seq<Action>)
    requires cfg.Valid() && CanFill(cfg, Run(cfg, acts), r, pick) && forall i :: 0 <= i < |more| ==> !more[i].Bury?
    requires 10 * (Run(cfg, acts + [Fill(r, pick)] + more).clock - Run(cfg, acts).clock) < 9 * cfg.ttl
    ensures Serves(cfg, Run(cfg, acts + [Fill(r, pick)] + more), Run(cfg, acts).readers[r], Run(cfg, acts).clock)
  {
    var filled := acts + [Fill(r, pick)];
    Last(cfg, acts, Fill(r, pick));
    if more == [] {
      assert filled + more == filled;
    } else {
      var init, act := more[..|more| - 1], more[|more| - 1];
      assert filled + more == filled + init + [act];
      Last(cfg, filled + init, act);
      ClockForward(cfg, Run(cfg, filled + init), act);
      ServedUntil(cfg, acts, r, pick, init);
      ServesStep(cfg, Run(cfg, filled + init), act, Run(cfg, acts).readers[r], Run(cfg, acts).clock);
    }
  }

  lemma ClockForward(cfg: Config, m: Machine, act: Action)
    requires cfg.Valid()
    ensures m.clock <= Next(cfg, m, act).clock
  {
  }

  /** A value filled into a free key is what every lookup gets for at least nine tenths of ttl, unless a tombstone comes. */
  lemma FillIsServed(cfg: Config, acts: seq<Action>, r: Tid, pick: nat, more: seq<Action>)
    requires cfg.Valid() && CanFill(cfg, Run(cfg, acts), r, pick) && forall i :: 0 <= i < |more| ==> !more[i].Bury?
    requires 10 * (Run(cfg, acts + [Fill(r, pick)] + more).clock - Run(cfg, acts).clock) < 9 * cfg.ttl
    ensures Hit(Run(cfg, acts + [Fill(r, pick)] + more)) == Some(Run(cfg, acts).readers[r])
  {
    hide Next, Run;
    ServedUntil(cfg, acts, r, pick, more);
  }
}
