// Tiles, processes and session ids over every interleaving of user actions, late process exits and
// leftover discovery polls.
module SessionGuard {
  import opened Options
  import opened SessionCore
  import Reorder

  // The core with what an observer of the whole run knows besides: the process each session id was
  // minted for or found in, the tile each process was spawned for, and every id ever used.
  datatype World = World(
    core: Core,
    owner: map<string, nat>,
    homes: map<nat, string>,
    used: set<string>,
    seen: set<string>)

  datatype Event =
    | Create(id: string, cwd: string, minted: string, ts: set<Transcript>)
    | Remove(id: string)
    | CloseAll
    | RestoreFrom(defs: seq<Def>, mints: seq<string>, ts: set<Transcript>)
    | Restart(id: string, minted: string, ts: set<Transcript>)
    | Reorder(ids: seq<string>)
    | ProcExit(id: string, proc: nat, code: int)
    | Wake(poll: Poll, back: Option<string>, entries: seq<Entry>)
    | TimeOut(poll: Poll)
    | Refresh(order: seq<string>, backs: map<string, string>, ts: set<Transcript>)
    | AdoptScope(next: string)

  predicate IsMint(w: World, id: string) { id != "" && id !in w.seen }

  // randomUUID gives new ids; and an id discovered for a tile belongs to that tile's own process: it
  // is the process's already, or nobody has ever seen it.
  predicate Belongs(w: World, tile: string, id: string) {
    tile in w.core.procs && id != "" && (id !in w.seen || (id in w.owner && w.owner[id] == w.core.procs[tile]))
  }

  function Spawned(w: World, id: string, minted: string, c: Core): World {
    if c.spawned == w.core.spawned then w.(core := c)
    else World(c, w.owner[minted := w.core.spawned], w.homes[w.core.spawned := id], w.used, w.seen + {minted})
  }

  function Spawn(w: World, id: string, mode: Mode, minted: string, ts: set<Transcript>): World {
    if HasTile(w.core.defs, id) then Spawned(w, id, minted, SpawnSession(w.core, id, mode, minted, ts)) else w
  }

  function SpawnAll(w: World, ids: seq<string>, mints: seq<string>, ts: set<Transcript>): World
    requires |ids| == |mints|
    decreases ids
  {
    if ids == [] then w else SpawnAll(Spawn(w, ids[0], Resume, mints[0], ts), ids[1..], mints[1..], ts)
  }

  function AdoptIn(w: World, c: Core, tile: string, id: string): World {
    var owner := if tile in w.core.procs then w.owner[id := w.core.procs[tile]] else w.owner;
    World(c, owner, w.homes, w.used, w.seen + {id})
  }

  function RefreshStep(w: World, id: string, backs: map<string, string>, ts: set<Transcript>): World {
    if id in backs && Rotated(w.core, id, backs[id], ts)
    then AdoptIn(w, RefreshOne(w.core, id, backs, ts), id, backs[id]) else w
  }

  function RefreshIn(w: World, ids: seq<string>, backs: map<string, string>, ts: set<Transcript>): World
    decreases ids
  {
    if ids == [] then w else RefreshIn(RefreshStep(w, ids[0], backs, ts), ids[1..], backs, ts)
  }

  function WithNew(w: World, id: string, cwd: string): World {
    w.(core := w.core.(defs := w.core.defs + [Def(id, cwd, "")], runtime := w.core.runtime[id := Starting]),
       used := w.used + {id})
  }

  function WithSet(w: World, defs: seq<Def>): World {
    World(Replace(w.core, defs), w.owner, w.homes, w.used + IdSet(defs), w.seen + set d | d in defs :: d.sessionId)
  }

  function Step(w: World, e: Event): World {
    match e
    case Create(id, cwd, minted, ts) => Spawn(WithNew(w, id, cwd), id, Fresh, minted, ts)
    case Remove(id) => w.(core := SessionCore.Remove(w.core, id))
    case CloseAll => w.(core := SessionCore.CloseAll(w.core))
    case RestoreFrom(defs, mints, ts) =>
      if |mints| == |defs| then SpawnAll(WithSet(w, defs), Ids(defs), mints, ts) else w
    case Restart(id, minted, ts) => Spawn(w, id, Resume, minted, ts)
    case Reorder(ids) => w.(core := w.core.(defs := Reorder.Reconciled(w.core.defs, IdOf, ids)))
    case ProcExit(id, proc, code) => w.(core := SessionCore.ProcExit(w.core, id, proc, code))
    case Wake(p, back, entries) =>
      var c := SessionCore.Wake(w.core, p, back, entries);
      if Finds(w.core, p, back, entries)
      then AdoptIn(w, c, p.id, Found(w.core, p, back, entries).value) else w.(core := c)
    case TimeOut(p) => WithoutPoll(w, p)
    case Refresh(order, backs, ts) => RefreshIn(w, order, backs, ts)
    case AdoptScope(next) => w.(core := SessionCore.AdoptScope(w.core, next))
  }

  // The same step without the observer: what the session service's own fields do.
  function CoreStep(c: Core, e: Event): Core {
    match e
    case Create(id, cwd, minted, ts) => SessionCore.Create(c, id, cwd, minted, ts)
    case Remove(id) => SessionCore.Remove(c, id)
    case CloseAll => SessionCore.CloseAll(c)
    case RestoreFrom(defs, mints, ts) => if |mints| == |defs| then SessionCore.RestoreFrom(c, defs, mints, ts) else c
    case Restart(id, minted, ts) => SessionCore.Restart(c, id, minted, ts)
    case Reorder(ids) => c.(defs := Reorder.Reconciled(c.defs, IdOf, ids))
    case ProcExit(id, proc, code) => SessionCore.ProcExit(c, id, proc, code)
    case Wake(p, back, entries) => SessionCore.Wake(c, p, back, entries)
    case TimeOut(p) => c.(polls := c.polls - {p})
    case Refresh(order, backs, ts) => RefreshAll(c, order, backs, ts)
    case AdoptScope(next) => SessionCore.AdoptScope(c, next)
  }

  // Observing changes nothing.
  lemma ObserverIsPassive(w: World, e: Event)
    ensures Step(w, e).core == CoreStep(w.core, e)
  {
    match e {
      case Create(id, cwd, minted, ts) =>
        var v := WithNew(w, id, cwd);
        assert v.core.defs[|w.core.defs|] in v.core.defs;
      case RestoreFrom(defs, mints, ts) =>
        if |mints| == |defs| { SpawnAllIsSpawnEach(WithSet(w, defs), Ids(defs), mints, ts); }
      case Refresh(order, backs, ts) => RefreshInIsRefreshAll(w, order, backs, ts);
      case _ =>
    }
  }

  ghost predicate Mints(w: World, mints: seq<string>) {
    Reorder.Distinct(mints) && forall m :: m in mints ==> IsMint(w, m)
  }

  ghost predicate BacksBelong(w: World, ids: seq<string>, backs: map<string, string>, ts: set<Transcript>)
    decreases ids
  {
    ids == [] ||
    (&& (ids[0] in backs && Rotated(w.core, ids[0], backs[ids[0]], ts) ==> Belongs(w, ids[0], backs[ids[0]]))
     && BacksBelong(RefreshStep(w, ids[0], backs, ts), ids[1..], backs, ts))
  }

  ghost predicate Enabled(w: World, e: Event) {
    match e
    case Create(id, _, minted, _) => id !in w.used && IsMint(w, minted)
    case RestoreFrom(defs, mints, _) =>
      && |mints| == |defs| && Reorder.Distinct(Ids(defs)) && (forall id :: id in IdSet(defs) ==> id !in w.used)
      && Mints(WithSet(w, defs), mints)
    case Restart(_, minted, _) => IsMint(w, minted)
    case Wake(p, back, entries) =>
      Finds(w.core, p, back, entries) ==> Belongs(w, p.id, Found(w.core, p, back, entries).value)
    case Refresh(order, backs, ts) => BacksBelong(w, order, backs, ts)
    case _ => true
  }

  // ----- the invariant -----

  // Tiles, runtime entries and processes agree.
  ghost predicate Agreement(c: Core) {
    && Reorder.Distinct(Ids(c.defs))
    && c.runtime.Keys == IdSet(c.defs)
    && c.procs.Keys <= IdSet(c.defs)
    && (forall id :: id in c.runtime ==> (c.runtime[id] == Running <==> id in c.procs))
    && (forall id :: id in c.procs ==> c.procs[id] in c.envs && c.envs[c.procs[id]] == c.scope)
  }

  // A live tile's session id is registered and owned by its process; a dead one's by no live process.
  ghost predicate TileOk(w: World, d: Def) {
    if d.id in w.core.procs then
      d.sessionId != "" && d.sessionId in w.core.open && d.sessionId in w.owner &&
        w.owner[d.sessionId] == w.core.procs[d.id]
    else d.sessionId in w.owner ==> w.owner[d.sessionId] !in w.core.procs.Values
  }

  // Every process was spawned for one tile, and the numbers go up.
  ghost predicate Homed(w: World) {
    && (forall id :: id in w.core.procs ==> w.core.procs[id] in w.homes && w.homes[w.core.procs[id]] == id)
    && (forall p :: p in w.homes ==> p < w.core.spawned && w.homes[p] in w.used)
  }

  // A session id is one process's; a sleeping poll's placeholder was minted for the poll's tile.
  ghost predicate Owned(w: World) {
    && (forall s :: s in w.owner ==> s != "" && s in w.seen && w.owner[s] in w.homes)
    && (forall p :: p in w.core.polls ==> p.placeholder in w.owner && w.homes[w.owner[p.placeholder]] == p.id)
  }

  ghost predicate Remembered(w: World) {
    && IdSet(w.core.defs) <= w.used
    && (forall d :: d in w.core.defs && d.sessionId != "" ==> d.sessionId in w.seen)
  }

  ghost predicate Bookkeeping(w: World) {
    Homed(w) && Owned(w) && Remembered(w)
  }

  ghost predicate TilesOk(w: World) {
    forall d :: d in w.core.defs ==> TileOk(w, d)
  }

  ghost predicate Inv(w: World) {
    Agreement(w.core) && Bookkeeping(w) && TilesOk(w)
  }

  lemma TileUnique(defs: seq<Def>, a: Def, b: Def)
    requires Reorder.Distinct(Ids(defs)) && a in defs && b in defs && a.id == b.id
    ensures a == b
  {
    Reorder.SameIdSameItem(defs, IdOf, a, b);
  }

  lemma TilesAreIds(defs: seq<Def>, id: string)
    ensures HasTile(defs, id) <==> id in IdSet(defs)
  {
    Reorder.IdMembers(defs, IdOf);
  }

  // Every member of the updated list is a member of the old one, with the new id if it is the tile.
  lemma UpdatedMember(defs: seq<Def>, id: string, sid: string, d: Def)
    requires d in WithSession(defs, id, sid)
    ensures exists b :: b in defs && b.id == d.id && d == if b.id == id then b.(sessionId := sid) else b
  {
    var i :| 0 <= i < |defs| && WithSession(defs, id, sid)[i] == d;
    assert defs[i] in defs;
  }

  // ----- the double-resume guard -----

  // Each live tile's session id is registered and no other tile, live or dead, has it.
  lemma DoubleResumeGuard(w: World, d: Def, e: Def)
    requires Inv(w) && d in w.core.defs && e in w.core.defs && d.id in w.core.procs && e.id != d.id
    ensures d.sessionId in w.core.open && e.sessionId != d.sessionId
  {
    assert TileOk(w, d) && TileOk(w, e);
  }

  // Restarting a live tile changes nothing: its terminal survives.
  lemma RestartSparesLive(w: World, id: string, minted: string, ts: set<Transcript>)
    requires Inv(w) && id in w.core.procs
    ensures Step(w, Restart(id, minted, ts)) == w
  {
    TilesAreIds(w.core.defs, id);
    assert TileOk(w, TileOf(w.core.defs, id));
  }

  lemma LiveIffProcesses(w: World)
    requires Inv(w)
    ensures HasLiveSessions(w.core) <==> w.core.procs != map[]
  {
    if id :| id in w.core.procs {
      TilesAreIds(w.core.defs, id);
      var d :| d in w.core.defs && d.id == id;
      assert HasLiveSessions(w.core);
    }
  }

  // All live terminals run in the active scope, so adopting another one happens only when none is up.
  lemma ScopeChangesOnlyWhenIdle(w: World, next: string)
    requires Inv(w)
    ensures Step(w, AdoptScope(next)).core.scope != w.core.scope ==> w.core.procs == map[]
    ensures forall id :: id in w.core.procs ==> w.core.envs[w.core.procs[id]] == w.core.scope
  {
    LiveIffProcesses(w);
  }

  // ----- preservation -----

  function SpawnedCore(c: Core, id: string, minted: string, before: set<string>): Core {
    Core(WithSession(c.defs, id, minted), c.runtime[id := Running], c.procs[id := c.spawned], c.spawned + 1,
         c.envs[c.spawned := c.scope], c.open + {minted}, c.polls + {Poll(id, minted, before)}, c.scope)
  }

  lemma TileAfter(defs: seq<Def>, id: string, sid: string)
    requires HasTile(defs, id)
    ensures HasTile(WithSession(defs, id, sid), id) && TileOf(WithSession(defs, id, sid), id).sessionId == sid
  {
    SessionUpdateKeepsTiles(defs, id, sid);
    UpdatedMember(defs, id, sid, TileOf(WithSession(defs, id, sid), id));
  }

  lemma StartShape(c: Core, id: string, mode: Mode, minted: string)
    requires HasTile(c.defs, id) && id in c.runtime && (mode == Fresh ==> TileOf(c.defs, id).sessionId == "")
    ensures StartPty(c, id, mode, minted) ==
              Core(WithSession(c.defs, id, minted), c.runtime[id := Running], c.procs[id := c.spawned], c.spawned + 1,
                   c.envs[c.spawned := c.scope], c.open + {minted}, c.polls, c.scope)
  {
  }

  lemma SpawnShape(c: Core, id: string, mode: Mode, minted: string, ts: set<Transcript>)
    requires HasTile(c.defs, id) && id in c.runtime
    requires mode == Fresh ==> TileOf(c.defs, id).sessionId == ""
    requires mode == Resume ==> TileOf(c.defs, id).sessionId == "" || TileOf(c.defs, id).sessionId !in c.open
    ensures SpawnSession(c, id, mode, minted, ts) == SpawnedCore(c, id, minted, IdsUnder(ts, TileOf(c.defs, id).cwd))
  {
    TileAfter(c.defs, id, minted);
    if mode == Resume && !TranscriptExists(ts, TileOf(c.defs, id).cwd, TileOf(c.defs, id).sessionId) {
      var blank := WithSession(c.defs, id, "");
      TileAfter(c.defs, id, "");
      StartShape(c.(defs := blank), id, Fresh, minted);
      assert WithSession(blank, id, minted) == WithSession(c.defs, id, minted);
    } else {
      StartShape(c, id, mode, minted);
    }
  }

  // Either the guard holds the tile back, or it is not live and one process starts for it.
  lemma SpawnOutcome(w: World, id: string, mode: Mode, minted: string, ts: set<Transcript>)
    requires Inv(w) && HasTile(w.core.defs, id) && IsMint(w, minted)
    requires mode == Fresh ==> id !in w.core.procs && TileOf(w.core.defs, id).sessionId == ""
    ensures var s := SpawnSession(w.core, id, mode, minted, ts);
            || s == w.core
            || (id !in w.core.procs && s == SpawnedCore(w.core, id, minted, IdsUnder(ts, TileOf(w.core.defs, id).cwd)))
  {
    var d := TileOf(w.core.defs, id);
    assert TileOk(w, d);
    TilesAreIds(w.core.defs, id);
    if !(mode == Resume && d.sessionId != "" && d.sessionId in w.core.open) {
      SpawnShape(w.core, id, mode, minted, ts);
    }
  }

  lemma SpawnKeepsInv(w: World, id: string, mode: Mode, minted: string, ts: set<Transcript>)
    requires Inv(w) && HasTile(w.core.defs, id) && IsMint(w, minted)
    requires mode == Fresh ==> id !in w.core.procs && TileOf(w.core.defs, id).sessionId == ""
    ensures Inv(Spawn(w, id, mode, minted, ts))
    ensures Ids(Spawn(w, id, mode, minted, ts).core.defs) == Ids(w.core.defs)
    ensures Spawn(w, id, mode, minted, ts).seen <= w.seen + {minted}
  {
    SpawnOutcome(w, id, mode, minted, ts);
    if SpawnSession(w.core, id, mode, minted, ts) != w.core {
      SessionUpdateKeepsTiles(w.core.defs, id, minted);
      SpawnedKeepsInv(w, id, minted, IdsUnder(ts, TileOf(w.core.defs, id).cwd));
    }
  }

  lemma SpawnedKeepsInv(w: World, id: string, minted: string, before: set<string>)
    requires Inv(w) && HasTile(w.core.defs, id) && IsMint(w, minted) && id !in w.core.procs
    ensures Inv(Spawned(w, id, minted, SpawnedCore(w.core, id, minted, before)))
  {
    SpawnedAgrees(w, id, minted, before);
    SpawnedBooks(w, id, minted, before);
    SpawnedTiles(w, id, minted, before);
  }

  lemma SpawnedAgrees(w: World, id: string, minted: string, before: set<string>)
    requires Inv(w) && HasTile(w.core.defs, id)
    ensures Agreement(SpawnedCore(w.core, id, minted, before))
  {
    SessionUpdateKeepsTiles(w.core.defs, id, minted);
    TilesAreIds(w.core.defs, id);
    var c, e := w.core, SpawnedCore(w.core, id, minted, before);
    forall x | x in e.procs ensures e.procs[x] in e.envs && e.envs[e.procs[x]] == e.scope { }
  }

  lemma SpawnedBooks(w: World, id: string, minted: string, before: set<string>)
    requires Inv(w) && HasTile(w.core.defs, id) && IsMint(w, minted)
    ensures Bookkeeping(Spawned(w, id, minted, SpawnedCore(w.core, id, minted, before)))
  {
    SpawnedHomes(w, id, minted, before);
    SpawnedOwners(w, id, minted, before);
    SpawnedRemembered(w, id, minted, before);
  }

  lemma SpawnedHomes(w: World, id: string, minted: string, before: set<string>)
    requires Homed(w) && Remembered(w) && HasTile(w.core.defs, id)
    ensures Homed(Spawned(w, id, minted, SpawnedCore(w.core, id, minted, before)))
  {
    TilesAreIds(w.core.defs, id);
  }

  lemma SpawnedOwners(w: World, id: string, minted: string, before: set<string>)
    requires Homed(w) && Owned(w) && IsMint(w, minted)
    ensures Owned(Spawned(w, id, minted, SpawnedCore(w.core, id, minted, before)))
  {
    var c, u := w.core, Spawned(w, id, minted, SpawnedCore(w.core, id, minted, before));
    assert c.spawned !in w.homes;
    forall p | p in u.core.polls ensures p.placeholder in u.owner && u.homes[u.owner[p.placeholder]] == p.id {
      assert p in c.polls || p == Poll(id, minted, before);
    }
  }

  lemma SpawnedRemembered(w: World, id: string, minted: string, before: set<string>)
    requires Remembered(w)
    ensures Remembered(Spawned(w, id, minted, SpawnedCore(w.core, id, minted, before)))
  {
    var c, u := w.core, Spawned(w, id, minted, SpawnedCore(w.core, id, minted, before));
    SessionUpdateKeepsTiles(c.defs, id, minted);
    forall d | d in u.core.defs && d.sessionId != "" ensures d.sessionId in u.seen {
      UpdatedMember(c.defs, id, minted, d);
    }
  }

  lemma SpawnedTiles(w: World, id: string, minted: string, before: set<string>)
    requires Inv(w) && HasTile(w.core.defs, id) && IsMint(w, minted) && id !in w.core.procs
    ensures TilesOk(Spawned(w, id, minted, SpawnedCore(w.core, id, minted, before)))
  {
    var c, u := w.core, Spawned(w, id, minted, SpawnedCore(w.core, id, minted, before));
    forall d | d in u.core.defs ensures TileOk(u, d) {
      UpdatedMember(c.defs, id, minted, d);
      var b :| b in c.defs && b.id == d.id && d == if b.id == id then b.(sessionId := minted) else b;
      if b.id != id {
        SpawnedOtherTile(w, id, minted, before, b);
      }
    }
  }

  lemma SpawnedOtherTile(w: World, id: string, minted: string, before: set<string>, b: Def)
    requires Inv(w) && IsMint(w, minted) && b in w.core.defs && b.id != id
    ensures TileOk(Spawned(w, id, minted, SpawnedCore(w.core, id, minted, before)), b)
  {
    var c := w.core;
    assert TileOk(w, b);
    assert b.sessionId != minted;
    assert c.procs[id := c.spawned].Values <= c.procs.Values + {c.spawned};
    assert b.sessionId in w.owner ==> w.owner[b.sessionId] < c.spawned;
  }

  lemma {:induction false} SpawnAllKeepsInv(w: World, ids: seq<string>, mints: seq<string>, ts: set<Transcript>)
    requires Inv(w) && |ids| == |mints| && Mints(w, mints)
    requires forall id :: id in ids ==> id in IdSet(w.core.defs)
    ensures Inv(SpawnAll(w, ids, mints, ts))
    decreases ids
  {
    if ids != [] {
      assert ids[0] in ids && mints[0] in mints;
      TilesAreIds(w.core.defs, ids[0]);
      SpawnKeepsInv(w, ids[0], Resume, mints[0], ts);
      var v := Spawn(w, ids[0], Resume, mints[0], ts);
      assert Mints(v, mints[1..]) by {
        forall m | m in mints[1..] ensures IsMint(v, m) {
          assert m in mints && m != mints[0];
        }
      }
      assert IdSet(v.core.defs) == IdSet(w.core.defs);
      SpawnAllKeepsInv(v, ids[1..], mints[1..], ts);
    }
  }

  // Restoring in the observed world is restoring in the core.
  lemma {:induction false} SpawnAllIsSpawnEach(w: World, ids: seq<string>, mints: seq<string>, ts: set<Transcript>)
    requires |ids| == |mints|
    ensures SpawnAll(w, ids, mints, ts).core == SpawnEach(w.core, ids, mints, ts)
    decreases ids
  {
    if ids != [] {
      SpawnAllIsSpawnEach(Spawn(w, ids[0], Resume, mints[0], ts), ids[1..], mints[1..], ts);
    }
  }

  lemma {:induction false} RefreshInIsRefreshAll(w: World, ids: seq<string>, backs: map<string, string>,
                                                 ts: set<Transcript>)
    ensures RefreshIn(w, ids, backs, ts).core == RefreshAll(w.core, ids, backs, ts)
    decreases ids
  {
    if ids != [] {
      RefreshInIsRefreshAll(RefreshStep(w, ids[0], backs, ts), ids[1..], backs, ts);
    }
  }

  lemma WithNewKeepsInv(w: World, id: string, cwd: string)
    requires Inv(w) && id !in w.used
    ensures Inv(WithNew(w, id, cwd)) && HasTile(WithNew(w, id, cwd).core.defs, id)
    ensures TileOf(WithNew(w, id, cwd).core.defs, id).sessionId == "" && id !in WithNew(w, id, cwd).core.procs
  {
    var u, d := WithNew(w, id, cwd), Def(id, cwd, "");
    AppendedIds(w.core.defs, d);
    NewTileOk(w, id, cwd);
    assert u.core.defs[|w.core.defs|] == d;
    assert d in u.core.defs;
    TileUnique(u.core.defs, TileOf(u.core.defs, id), d);
  }

  lemma NewTileOk(w: World, id: string, cwd: string)
    requires Inv(w) && id !in w.used
    ensures TilesOk(WithNew(w, id, cwd))
  {
    var u := WithNew(w, id, cwd);
    forall x | x in u.core.defs ensures TileOk(u, x) {
      assert x in w.core.defs ==> TileOk(w, x);
    }
  }

  lemma AppendedIds(defs: seq<Def>, d: Def)
    requires Reorder.Distinct(Ids(defs)) && d.id !in IdSet(defs)
    ensures Reorder.Distinct(Ids(defs + [d])) && IdSet(defs + [d]) == IdSet(defs) + {d.id}
  {
    assert Ids(defs + [d]) == Ids(defs) + [d.id];
    assert [d.id][1..] == [];
    Reorder.AppendDistinct(Ids(defs), [d.id]);
  }

  lemma {:induction false} DroppedIsKept(defs: seq<Def>, id: string, keep: set<string>)
    requires forall d :: d in defs ==> (d.id in keep <==> d.id != id)
    ensures Dropped(defs, id) == Reorder.Kept(defs, IdOf, keep)
  {
    if defs != [] {
      assert defs[0] in defs;
      DroppedIsKept(defs[1..], id, keep);
    }
  }

  lemma DroppedMembers(defs: seq<Def>, id: string)
    ensures forall d :: d in Dropped(defs, id) <==> d in defs && d.id != id
    ensures IdSet(Dropped(defs, id)) == IdSet(defs) - {id}
    ensures Reorder.Distinct(Ids(defs)) ==> Reorder.Distinct(Ids(Dropped(defs, id)))
  {
    var keep := IdSet(defs) - {id};
    Reorder.IdMembers(defs, IdOf);
    DroppedIsKept(defs, id, keep);
    Reorder.KeptMembers(defs, IdOf, keep);
    Reorder.IdMembers(Dropped(defs, id), IdOf);
    if Reorder.Distinct(Ids(defs)) {
      Reorder.KeptDistinct(defs, IdOf, keep);
    }
  }

  // A tile leaves, with its process if any: nobody else's id is released.
  lemma RemovalKeepsInv(w: World, id: string)
    requires Inv(w)
    ensures Inv(w.(core := SessionCore.Remove(w.core, id)))
  {
    var c, u := w.core, w.(core := SessionCore.Remove(w.core, id));
    DroppedMembers(c.defs, id);
    forall d | d in u.core.defs ensures TileOk(u, d) {
      assert TileOk(w, d);
      if HasTile(c.defs, id) && d.id in c.procs {
        ReleaseSpares(w, TileOf(c.defs, id), d);
      }
      assert u.core.procs.Values <= c.procs.Values;
    }
  }

  lemma ReleaseSpares(w: World, gone: Def, d: Def)
    requires Inv(w) && gone in w.core.defs && d in w.core.defs && gone.id != d.id && d.id in w.core.procs
    ensures d.sessionId in ReleaseId(w.core.open, gone.sessionId)
  {
    DoubleResumeGuard(w, d, gone);
  }

  lemma ExitKeepsInv(w: World, id: string, proc: nat, code: int)
    requires Inv(w)
    ensures Inv(w.(core := SessionCore.ProcExit(w.core, id, proc, code)))
  {
    var c := w.core;
    if Emits(c, id, proc) {
      if code == 0 {
        RemovalKeepsInv(w, id);
      } else {
        CrashKeepsInv(w, id, proc, code);
      }
    }
  }

  lemma CrashKeepsInv(w: World, id: string, proc: nat, code: int)
    requires Inv(w) && Emits(w.core, id, proc) && code != 0
    ensures Inv(w.(core := SessionCore.ProcExit(w.core, id, proc, code)))
  {
    var c, u := w.core, w.(core := SessionCore.ProcExit(w.core, id, proc, code));
    TilesAreIds(c.defs, id);
    assert u.core.defs == c.defs && u.core.procs == c.procs - {id};
    forall d | d in u.core.defs ensures TileOk(u, d) {
      assert TileOk(w, d);
      if d.id == id {
        OwnerGone(w, d);
      } else if d.id in c.procs {
        ReleaseSpares(w, TileOf(c.defs, id), d);
      }
    }
  }

  // Processes are not shared: once the tile's is off the map, its id is owned by no live process.
  lemma OwnerGone(w: World, d: Def)
    requires Inv(w) && d in w.core.defs && d.id in w.core.procs
    ensures w.core.procs[d.id] !in (w.core.procs - {d.id}).Values
  {
    forall x | x in w.core.procs && x != d.id ensures w.core.procs[x] != w.core.procs[d.id] {
      assert w.homes[w.core.procs[x]] == x && w.homes[w.core.procs[d.id]] == d.id;
    }
  }

  lemma NothingLiveKeepsInv(w: World, defs: seq<Def>, used: set<string>, seen: set<string>)
    requires Inv(w) && Reorder.Distinct(Ids(defs)) && IdSet(defs) <= used && w.used <= used && w.seen <= seen
    requires forall d :: d in defs && d.sessionId != "" ==> d.sessionId in seen
    ensures Inv(World(Replace(w.core, defs), w.owner, w.homes, used, seen))
  {
  }

  lemma ReorderKeepsInv(w: World, ids: seq<string>)
    requires Inv(w)
    ensures Inv(Step(w, Event.Reorder(ids)))
  {
    var c, u := w.core, Step(w, Event.Reorder(ids));
    Reorder.ReconciledMembers(c.defs, IdOf, ids);
    Reorder.SameKnown(c.defs, u.core.defs, IdOf);
    forall d | d in u.core.defs ensures TileOk(u, d) {
      assert TileOk(w, d);
    }
  }

  // Adopting an id that belongs to the tile's process keeps everybody's ids apart, whatever stale
  // placeholder is released on the way: it was minted for this tile.
  lemma AdoptKeepsInv(w: World, tile: string, placeholder: string, id: string)
    requires Inv(w) && HasTile(w.core.defs, tile) && Belongs(w, tile, id)
    requires placeholder in w.owner && w.homes[w.owner[placeholder]] == tile
    ensures Inv(AdoptIn(w, Adopt(w.core, tile, placeholder, id), tile, id))
  {
    AdoptAgreesAndBooks(w, tile, placeholder, id);
    var c, u := w.core, AdoptIn(w, Adopt(w.core, tile, placeholder, id), tile, id);
    forall d | d in u.core.defs ensures TileOk(u, d) {
      UpdatedMember(c.defs, tile, id, d);
      var b :| b in c.defs && b.id == d.id && d == if b.id == tile then b.(sessionId := id) else b;
      assert TileOk(w, b);
      if b.id != tile {
        OtherTileUntouched(w, tile, placeholder, id, b);
      }
    }
  }

  lemma AdoptAgreesAndBooks(w: World, tile: string, placeholder: string, id: string)
    requires Inv(w) && HasTile(w.core.defs, tile) && Belongs(w, tile, id)
    ensures var u := AdoptIn(w, Adopt(w.core, tile, placeholder, id), tile, id); Agreement(u.core) && Bookkeeping(u)
  {
    var c, u := w.core, AdoptIn(w, Adopt(w.core, tile, placeholder, id), tile, id);
    SessionUpdateKeepsTiles(c.defs, tile, id);
    forall d | d in u.core.defs && d.sessionId != "" ensures d.sessionId in u.seen {
      UpdatedMember(c.defs, tile, id, d);
    }
    forall p | p in u.core.polls ensures p.placeholder in u.owner && u.homes[u.owner[p.placeholder]] == p.id {
      assert p in c.polls;
    }
  }

  lemma OtherTileUntouched(w: World, tile: string, placeholder: string, id: string, b: Def)
    requires Inv(w) && HasTile(w.core.defs, tile) && Belongs(w, tile, id) && b in w.core.defs && b.id != tile
    requires placeholder in w.owner && w.homes[w.owner[placeholder]] == tile
    ensures b.sessionId != id
    ensures b.id in w.core.procs ==> b.sessionId != placeholder
  {
    assert TileOk(w, b);
    assert w.homes[w.core.procs[tile]] == tile;
    if b.id in w.core.procs {
      assert w.homes[w.core.procs[b.id]] == b.id;
    } else {
      assert w.core.procs[tile] in w.core.procs.Values;
    }
  }

  predicate Finds(c: Core, p: Poll, back: Option<string>, entries: seq<Entry>) {
    p in c.polls && p.id in c.procs && HasTile(c.defs, p.id) && Found(c, p, back, entries).Some?
  }

  function WithoutPoll(w: World, p: Poll): World {
    w.(core := w.core.(polls := w.core.polls - {p}))
  }

  lemma WakeOutcome(w: World, p: Poll, back: Option<string>, entries: seq<Entry>)
    ensures var v, s := WithoutPoll(w, p), Step(w, Wake(p, back, entries));
            if Finds(w.core, p, back, entries)
            then
              var id := Found(w.core, p, back, entries).value;
              s == AdoptIn(v, Adopt(v.core, p.id, p.placeholder, id), p.id, id)
            else s == w || s == v
  {
  }

  lemma WakeKeepsInv(w: World, p: Poll, back: Option<string>, entries: seq<Entry>)
    requires Inv(w) && Enabled(w, Wake(p, back, entries))
    ensures Inv(Step(w, Wake(p, back, entries)))
  {
    WakeOutcome(w, p, back, entries);
    FewerPollsKeepInv(w, p);
    if Finds(w.core, p, back, entries) {
      PlaceholderIsOwn(w, p);
      AdoptKeepsInv(WithoutPoll(w, p), p.id, p.placeholder, Found(w.core, p, back, entries).value);
    }
  }

  lemma PlaceholderIsOwn(w: World, p: Poll)
    requires Inv(w) && p in w.core.polls
    ensures p.placeholder in w.owner && w.homes[w.owner[p.placeholder]] == p.id
  {
  }

  lemma FewerPollsKeepInv(w: World, p: Poll)
    requires Inv(w)
    ensures Inv(WithoutPoll(w, p))
  {
    var u := WithoutPoll(w, p);
    forall d | d in u.core.defs ensures TileOk(u, d) { assert TileOk(w, d); }
  }

  lemma {:induction false} RefreshKeepsInv(w: World, ids: seq<string>, backs: map<string, string>, ts: set<Transcript>)
    requires Inv(w) && BacksBelong(w, ids, backs, ts)
    ensures Inv(RefreshIn(w, ids, backs, ts))
    decreases ids
  {
    if ids != [] {
      var id := ids[0];
      if id in backs && Rotated(w.core, id, backs[id], ts) {
        var d := TileOf(w.core.defs, id);
        assert TileOk(w, d);
        AdoptKeepsInv(w, id, d.sessionId, backs[id]);
      }
      RefreshKeepsInv(RefreshStep(w, id, backs, ts), ids[1..], backs, ts);
    }
  }

  lemma StepKeepsInv(w: World, e: Event)
    requires Inv(w) && Enabled(w, e)
    ensures Inv(Step(w, e))
  {
    match e {
      case Create(id, cwd, minted, ts) =>
        WithNewKeepsInv(w, id, cwd);
        SpawnKeepsInv(WithNew(w, id, cwd), id, Fresh, minted, ts);
      case Remove(id) => RemovalKeepsInv(w, id);
      case CloseAll => if w.core.defs != [] { NothingLiveKeepsInv(w, [], w.used, w.seen); assert IdSet([]) == {}; }
      case RestoreFrom(defs, mints, ts) =>
        NothingLiveKeepsInv(w, defs, WithSet(w, defs).used, WithSet(w, defs).seen);
        SpawnAllKeepsInv(WithSet(w, defs), Ids(defs), mints, ts);
      case Restart(id, minted, ts) => if HasTile(w.core.defs, id) { SpawnKeepsInv(w, id, Resume, minted, ts); }
      case Reorder(ids) => ReorderKeepsInv(w, ids);
      case ProcExit(id, proc, code) => ExitKeepsInv(w, id, proc, code);
      case Wake(p, back, entries) => WakeKeepsInv(w, p, back, entries);
      case TimeOut(p) => FewerPollsKeepInv(w, p);
      case Refresh(order, backs, ts) => RefreshKeepsInv(w, order, backs, ts);
      case AdoptScope(next) => ScopeKeepsInv(w, next);
    }
  }

  lemma ScopeKeepsInv(w: World, next: string)
    requires Inv(w)
    ensures Inv(Step(w, AdoptScope(next)))
  {
    ScopeChangesOnlyWhenIdle(w, next);
    var u := Step(w, AdoptScope(next));
    forall d | d in u.core.defs ensures TileOk(u, d) { assert TileOk(w, d); }
  }

  // ----- whole runs -----

  ghost predicate IsRun(w: World, es: seq<Event>)
    decreases es
  {
    es == [] || (Enabled(w, es[0]) && IsRun(Step(w, es[0]), es[1..]))
  }

  function After(w: World, es: seq<Event>): World
    decreases es
  {
    if es == [] then w else After(Step(w, es[0]), es[1..])
  }

  function Empty(scope: string): World {
    World(Core([], map[], map[], 0, map[], {}, {}, scope), map[], map[], {}, {})
  }

  lemma {:induction false} RunKeepsInv(w: World, es: seq<Event>)
    requires Inv(w) && IsRun(w, es)
    ensures Inv(After(w, es))
    decreases es
  {
    if es != [] {
      StepKeepsInv(w, es[0]);
      RunKeepsInv(Step(w, es[0]), es[1..]);
    }
  }

  // Over every interleaving from an empty window: runtime entries and tiles are the same ids, every
  // live terminal is a tile's and runs in the active scope, each live tile's session id is
  // registered, and no other tile has it.
  lemma EveryInterleavingIsSafe(scope: string, es: seq<Event>)
    requires IsRun(Empty(scope), es)
    ensures var c := After(Empty(scope), es).core;
            && Agreement(c)
            && (forall d :: d in c.defs && d.id in c.procs ==> d.sessionId in c.open)
            && (forall d, e ::
                  d in c.defs && e in c.defs && d.id in c.procs && e.id != d.id ==> e.sessionId != d.sessionId)
  {
    RunKeepsInv(Empty(scope), es);
    var w := After(Empty(scope), es);
    forall d | d in w.core.defs && d.id in w.core.procs ensures d.sessionId in w.core.open {
      assert TileOk(w, d);
    }
    forall d, e | d in w.core.defs && e in w.core.defs && d.id in w.core.procs && e.id != d.id
      ensures e.sessionId != d.sessionId
    {
      DoubleResumeGuard(w, d, e);
    }
  }
}
