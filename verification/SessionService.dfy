// The Deck's session service over its terminal manager and registry of open session ids. The ghost
// world records the run: every public call is one event of SessionGuard, so its invariant, the
// double-resume guard included, holds of the object between calls.
module SessionService {
  import opened Options
  import opened SessionCore
  import G = SessionGuard
  import R = SessionRuns
  import Reorder

  class OpenIdRegistry {
    var open: set<string>

    constructor ()
      ensures open == {}
    {
      open := {};
    }

    method Add(id: string) returns (added: bool)
      modifies this
      ensures open == old(open) + {id}
      ensures added <==> id !in old(open)
    {
      if id in open {
        return false;
      }
      open := open + {id};
      return true;
    }

    method Release(id: string)
      modifies this
      ensures open == old(open) - {id}
    {
      open := open - {id};
    }

    predicate Has(id: string)
      reads this
    {
      id in open
    }

    function Snapshot(): set<string>
      reads this
    {
      open
    }
  }

  // Processes are numbered in the order they are spawned; envs is the scope each was given.
  class PtyManager {
    var procs: map<string, nat>
    var spawned: nat
    var envs: map<nat, string>

    constructor ()
      ensures procs == map[] && spawned == 0 && envs == map[]
    {
      procs, spawned, envs := map[], 0, map[];
    }

    predicate IsAlive(id: string)
      reads this
    {
      id in procs
    }

    method Spawn(id: string, scope: string) returns (proc: nat)
      modifies this
      ensures proc == old(spawned) && spawned == proc + 1
      ensures procs == old(procs)[id := proc] && envs == old(envs)[proc := scope]
    {
      Kill(id);
      proc := spawned;
      spawned := spawned + 1;
      envs := envs[proc := scope];
      procs := procs[id := proc];
    }

    method Kill(id: string)
      modifies this`procs
      ensures procs == old(procs) - {id}
    {
      if id in procs {
        procs := procs - {id};
      }
    }

    method KillAll()
      modifies this`procs
      ensures procs == map[]
    {
      var ids := procs.Keys;
      while ids != {}
        invariant procs.Keys <= ids
        decreases ids
      {
        var id :| id in ids;
        Kill(id);
        ids := ids - {id};
      }
    }

    // The process's own exit callback: only the process still registered for the tile reports.
    method OnExit(id: string, proc: nat) returns (emitted: bool)
      modifies this`procs
      ensures emitted <==> id in old(procs) && old(procs)[id] == proc
      ensures procs == if emitted then old(procs) - {id} else old(procs)
    {
      if !(id in procs && procs[id] == proc) {
        return false;
      }
      procs := procs - {id};
      return true;
    }
  }

  class SessionService {
    const pty: PtyManager
    const registry: OpenIdRegistry
    var defs: seq<Def>
    var runtime: map<string, Status>
    var polls: set<Poll>
    var scope: string
    ghost var world: G.World

    constructor (scope: string)
      ensures fresh(pty) && fresh(registry)
      ensures Valid() && world == G.Empty(scope)
    {
      pty := new PtyManager();
      registry := new OpenIdRegistry();
      defs, runtime, polls, this.scope := [], map[], {}, scope;
      world := G.Empty(scope);
    }

    function View(): Core
      reads this, pty, registry
    {
      Core(defs, runtime, pty.procs, pty.spawned, pty.envs, registry.open, polls, scope)
    }

    ghost predicate Valid()
      reads this, pty, registry
    {
      world.core == View() && G.Inv(world)
    }

    ghost method Record(e: G.Event)
      requires G.Inv(world) && G.Enabled(world, e) && View() == G.CoreStep(world.core, e)
      modifies this`world
      ensures Valid() && world == G.Step(old(world), e)
    {
      G.StepKeepsInv(world, e);
      G.ObserverIsPassive(world, e);
      world := G.Step(world, e);
    }

    method ReleaseOf(d: Def)
      modifies registry
      ensures registry.open == ReleaseId(old(registry.open), d.sessionId)
    {
      if d.sessionId != "" {
        registry.Release(d.sessionId);
      }
    }

    method ReleaseEach()
      modifies registry
      ensures registry.open == ReleaseAll(old(registry.open), defs)
    {
      var i := 0;
      while i < |defs|
        invariant i <= |defs|
        invariant ReleaseAll(registry.open, defs[i..]) == ReleaseAll(old(registry.open), defs)
      {
        ReleaseOf(defs[i]);
        i := i + 1;
      }
    }

    method Filter(id: string)
      modifies this`defs
      ensures defs == Dropped(old(defs), id)
    {
      var kept, i := [], 0;
      while i < |defs|
        invariant i <= |defs|
        invariant kept + Dropped(defs[i..], id) == Dropped(defs, id)
      {
        if defs[i].id != id {
          kept := kept + [defs[i]];
        }
        i := i + 1;
      }
      defs := kept;
    }

    // ----- user actions -----

    // The new tile runs, under the minted id.
    method Create(id: string, cwd: string, minted: string, ts: set<Transcript>)
      requires Valid() && G.Enabled(world, G.Event.Create(id, cwd, minted, ts))
      modifies this, pty, registry
      ensures Valid() && world == G.Step(old(world), G.Event.Create(id, cwd, minted, ts))
      ensures HasTile(defs, id) && id in pty.procs && TileOf(defs, id).sessionId == minted
      ensures View() == R.WithTile(old(View()), id, cwd, minted, ts)
    {
      hide SpawnSession, G.Inv, G.Enabled;
      R.CreatedRuns(world, id, cwd, minted, ts);
      R.CreatedIs(world, id, cwd, minted, ts);
      defs := defs + [Def(id, cwd, "")];
      assert defs[|old(defs)|] in defs;
      runtime := runtime[id := Starting];
      Spawn(id, Fresh, minted, ts);
      Record(G.Event.Create(id, cwd, minted, ts));
    }

    // Nothing of the tile is left, and its session id is free again.
    method Remove(id: string)
      requires Valid()
      modifies this, pty, registry
      ensures Valid() && world == G.Step(old(world), G.Event.Remove(id))
      ensures !HasTile(defs, id) && id !in runtime && id !in pty.procs
      ensures HasTile(old(defs), id) ==>
          TileOf(old(defs), id).sessionId == "" || !registry.Has(TileOf(old(defs), id).sessionId)
      ensures forall d :: d in defs <==> d in old(defs) && d.id != id
      ensures runtime == old(runtime) - {id} && pty.procs == old(pty.procs) - {id}
      ensures polls == old(polls) && scope == old(scope)
      ensures forall s :: registry.Has(s) <==>
                s in old(registry.open) && !(s != "" && exists d :: d in old(defs) && d.id == id && d.sessionId == s)
    {
      R.TilesById(world, id);
      if HasTile(defs, id) {
        ReleaseOf(TileOf(defs, id));
      }
      pty.Kill(id);
      Filter(id);
      runtime := runtime - {id};
      Record(G.Event.Remove(id));
      G.DroppedMembers(old(defs), id);
    }

    // No tile and no process is left, and no old tile's session id is still open.
    method CloseAll()
      requires Valid()
      modifies this, pty, registry
      ensures Valid() && world == G.Step(old(world), G.Event.CloseAll)
      ensures defs == [] && runtime == map[] && pty.procs == map[] && polls == old(polls) && scope == old(scope)
      ensures forall d :: d in old(defs) && d.sessionId != "" ==> !registry.Has(d.sessionId)
      ensures forall s :: registry.Has(s) <==>
                s in old(registry.open) && !(s != "" && exists d :: d in old(defs) && d.sessionId == s)
    {
      if |defs| > 0 {
        ReleaseEach();
        pty.KillAll();
        forall s ensures s in registry.open <==>
                           s in old(registry.open) && !(s != "" && exists d :: d in defs && d.sessionId == s)
        {
          R.ReleasedIds(old(registry.open), defs, s);
        }
        defs, runtime := [], map[];
      } else {
        R.NoTilesNoProcesses(world);
      }
      Record(G.Event.CloseAll);
    }

    // Exactly the tiles come up whose session id nothing holds once the old ones have let go.
    method RestoreFrom(next: seq<Def>, mints: seq<string>, ts: set<Transcript>)
      requires Valid() && G.Enabled(world, G.Event.RestoreFrom(next, mints, ts))
      modifies this, pty, registry
      ensures Valid() && world == G.Step(old(world), G.Event.RestoreFrom(next, mints, ts))
      ensures Ids(defs) == Ids(next)
      ensures forall id :: HasTile(next, id) ==>
                (id in pty.procs <==>
                   TileOf(next, id).sessionId == "" ||
                     TileOf(next, id).sessionId !in ReleaseAll(old(registry.open), old(defs)))
      ensures |defs| == |next| == |mints| && scope == old(scope)
      ensures forall i :: 0 <= i < |next| ==> R.IsRestored(old(View()), View(), next, mints, i)
      ensures forall sid :: R.OpenAfter(old(View()), View(), next, mints, sid)
    {
      R.RestoredRun(world, next, mints, ts);
      R.RestoredIs(world, next, mints, ts);
      hide G.Inv, G.Enabled, R.IsRestored, R.OpenAfter, ReleaseAll, TileOf;
      Replaced(next, mints, ts);
      Record(G.Event.RestoreFrom(next, mints, ts));
    }

    method Replaced(next: seq<Def>, mints: seq<string>, ts: set<Transcript>)
      requires |mints| == |next|
      modifies this, pty, registry
      ensures View() == SessionCore.RestoreFrom(old(View()), next, mints, ts) && world == old(world)
    {
      pty.KillAll();
      ReleaseEach();
      defs := next;
      runtime := map id | id in IdSet(next) :: Exited;
      ghost var torn := View();
      assert torn == Replace(old(View()), next);
      var ids, i := Ids(next), 0;
      while i < |ids|
        invariant i <= |ids| == |mints| && world == old(world)
        invariant SpawnEach(View(), ids[i..], mints[i..], ts) == SpawnEach(torn, ids, mints, ts)
      {
        if HasTile(defs, ids[i]) {
          Spawn(ids[i], Resume, mints[i], ts);
        }
        i := i + 1;
      }
    }

    // A live tile is left alone; a dead one runs again exactly if nothing holds its session id.
    method Restart(id: string, minted: string, ts: set<Transcript>) returns (known: bool)
      requires Valid() && G.Enabled(world, G.Event.Restart(id, minted, ts))
      modifies this, pty, registry
      ensures Valid() && world == G.Step(old(world), G.Event.Restart(id, minted, ts))
      ensures known <==> HasTile(old(defs), id)
      ensures !known || id in old(pty.procs) ==> View() == old(View())
      ensures known && id !in old(pty.procs) ==> (id in pty.procs <==> R.Resumable(old(View()), id))
      ensures known && id !in old(pty.procs) ==>
                View() == if R.Resumable(old(View()), id) then R.Respawned(old(View()), id, minted, ts) else old(View())
    {
      known := HasTile(defs, id);
      if known {
        hide SpawnSession;
        R.RestartIff(world, id, minted, ts);
        R.RestartedIs(world, id, minted, ts);
        Spawn(id, Resume, minted, ts);
      }
      Record(G.Event.Restart(id, minted, ts));
    }

    // The same tiles in reconciled order, and nothing else changed.
    method ReorderTiles(orderedIds: seq<string>)
      requires Valid()
      modifies this
      ensures Valid() && world == G.Step(old(world), G.Event.Reorder(orderedIds))
      ensures defs == Reorder.Reconciled(old(defs), IdOf, orderedIds) && multiset(defs) == multiset(old(defs))
      ensures View() == old(View()).(defs := defs)
    {
      Reorder.ReconciledPermutes(defs, IdOf, orderedIds);
      defs := Reorder.ReconcileOrder(defs, IdOf, orderedIds);
      Record(G.Event.Reorder(orderedIds));
    }

    // ----- callbacks -----

    // The process's own late callback: a process that is no longer the tile's changes nothing; a
    // clean exit closes the tile, a crash keeps it on screen, and either frees the tile's session id.
    method OnExit(id: string, proc: nat, code: int)
      requires Valid()
      modifies this, pty, registry
      ensures Valid() && world == G.Step(old(world), G.Event.ProcExit(id, proc, code))
      ensures !Emits(old(View()), id, proc) ==> View() == old(View())
      ensures Emits(old(View()), id, proc) ==> id !in pty.procs && HasTile(old(defs), id)
      ensures Emits(old(View()), id, proc) ==> !registry.Has(TileOf(old(defs), id).sessionId)
      ensures Emits(old(View()), id, proc) ==> (HasTile(defs, id) <==> code != 0)
      ensures Emits(old(View()), id, proc) && code != 0 ==> defs == old(defs) && runtime == old(runtime)[id := Exited]
      ensures Emits(old(View()), id, proc) && code == 0 ==>
                (forall d :: d in defs <==> d in old(defs) && d.id != id) && runtime == old(runtime) - {id}
      ensures Emits(old(View()), id, proc) ==>
                pty.procs == old(pty.procs) - {id} && polls == old(polls) && scope == old(scope)
                && registry.open == old(registry.open) - {TileOf(old(defs), id).sessionId}
    {
      R.RegisteredHasTile(world, id);
      Ended(id, proc, code);
      Record(G.Event.ProcExit(id, proc, code));
      G.DroppedMembers(old(defs), id);
    }

    method Ended(id: string, proc: nat, code: int)
      modifies this, pty, registry
      ensures View() == SessionCore.ProcExit(old(View()), id, proc, code) && world == old(world)
    {
      var emitted := pty.OnExit(id, proc);
      if !emitted {
        return;
      }
      if HasTile(defs, id) {
        ReleaseOf(TileOf(defs, id));
      }
      if code == 0 {
        Filter(id);
        runtime := runtime - {id};
        return;
      }
      if id in runtime {
        runtime := runtime[id := Exited];
      }
    }

    // One turn of discoverRealId's loop, after its sleep. No process is touched; the poll is over, or
    // sleeps on having changed nothing.
    method Wake(p: Poll, back: Option<string>, entries: seq<Entry>)
      requires Valid() && p in polls && G.Enabled(world, G.Event.Wake(p, back, entries))
      modifies this, registry
      ensures Valid() && world == G.Step(old(world), G.Event.Wake(p, back, entries))
      ensures p in polls ==> View() == old(View())
      ensures G.Finds(old(View()), p, back, entries) ==>
                && HasTile(defs, p.id) && TileOf(defs, p.id).sessionId == Found(old(View()), p, back, entries).value
                && registry.Has(TileOf(defs, p.id).sessionId)
      ensures p.id !in old(pty.procs) ==> View() == old(View()).(polls := old(polls) - {p})
      ensures p.id in old(pty.procs) ==> HasTile(old(defs), p.id)
      ensures p.id in old(pty.procs) ==>
                forall id :: R.Adopts(old(View()), p, back, entries, TileOf(old(defs), p.id).sessionId, id) ==>
                  View() == old(View()).(defs := WithSession(old(defs), p.id, id), polls := old(polls) - {p},
                                         open := old(registry.open) - {p.placeholder} + {id})
      ensures p.id in old(pty.procs)
              && (forall id :: !R.Adopts(old(View()), p, back, entries, TileOf(old(defs), p.id).sessionId, id)) ==>
                View() == old(View())
    {
      hide R.Adopts;
      R.RegisteredHasTile(world, p.id);
      R.WakeIs(View(), p, back, entries);
      if G.Finds(View(), p, back, entries) {
        G.TileAfter(defs, p.id, Found(View(), p, back, entries).value);
      }
      Woken(p, back, entries);
      Record(G.Event.Wake(p, back, entries));
    }

    method Woken(p: Poll, back: Option<string>, entries: seq<Entry>)
      requires p in polls
      modifies this, registry
      ensures View() == SessionCore.Wake(old(View()), p, back, entries) && world == old(world)
    {
      if !pty.IsAlive(p.id) || !HasTile(defs, p.id) {
        polls := polls - {p};
        return;
      }
      if back.Some? && back.value != "" && back.value != TileOf(defs, p.id).sessionId {
        polls := polls - {p};
        AdoptRealId(p.id, p.placeholder, back.value);
        return;
      }
      var claimed := registry.Snapshot() - {p.placeholder};
      var realId := PickDiscoveredId(entries, p.before, claimed);
      if realId.Some? && realId.value != "" && realId.value != TileOf(defs, p.id).sessionId {
        polls := polls - {p};
        AdoptRealId(p.id, p.placeholder, realId.value);
      }
    }

    // The deadline of the loop has passed.
    method GiveUp(p: Poll)
      requires Valid()
      modifies this
      ensures Valid() && world == G.Step(old(world), G.Event.TimeOut(p))
      ensures View() == old(View()).(polls := old(polls) - {p})
    {
      polls := polls - {p};
      Record(G.Event.TimeOut(p));
    }

    // Session ids may change, the rest may not.
    method RefreshLiveSessionIds(backs: map<string, string>, ts: set<Transcript>)
      requires Valid() && G.Enabled(world, G.Event.Refresh(Ids(defs), backs, ts))
      modifies this, registry
      ensures Valid() && world == G.Step(old(world), G.Event.Refresh(Ids(old(defs)), backs, ts))
      ensures Ids(defs) == Ids(old(defs)) && runtime == old(runtime)
      ensures forall d :: d in old(defs) ==> R.Refreshed(old(View()), d, backs, ts) in defs
    {
      forall d | d in defs ensures R.Refreshed(View(), d, backs, ts) in RefreshAll(View(), Ids(defs), backs, ts).defs {
        Reorder.IdMembers(defs, IdOf);
        R.RefreshAllIs(View(), Ids(defs), backs, ts, d);
      }
      R.RefreshKeepsTiles(world.core, Ids(defs), backs, ts);
      Refreshed(backs, ts);
      Record(G.Event.Refresh(Ids(old(defs)), backs, ts));
    }

    method Refreshed(backs: map<string, string>, ts: set<Transcript>)
      modifies this, registry
      ensures View() == RefreshAll(old(View()), Ids(old(defs)), backs, ts) && world == old(world)
    {
      var ids, i := Ids(defs), 0;
      while i < |ids|
        invariant i <= |ids| && world == old(world)
        invariant pty.procs == old(pty.procs)
        invariant RefreshAll(View(), ids[i..], backs, ts) == RefreshAll(old(View()), ids, backs, ts)
      {
        var id := ids[i];
        if HasTile(defs, id) && pty.IsAlive(id) && id in backs {
          var d := TileOf(defs, id);
          if backs[id] != "" && backs[id] != d.sessionId && TranscriptExists(ts, d.cwd, backs[id]) {
            AdoptRealId(id, d.sessionId, backs[id]);
          }
        }
        i := i + 1;
      }
    }

    method HasLiveSessions() returns (live: bool)
      ensures live <==> SessionCore.HasLiveSessions(View())
    {
      var i := 0;
      while i < |defs|
        invariant i <= |defs|
        invariant forall j :: 0 <= j < i ==> defs[j].id !in pty.procs
      {
        if pty.IsAlive(defs[i].id) {
          return true;
        }
        i := i + 1;
      }
      return false;
    }

    // The scope changes exactly when no terminal at all is alive.
    method AdoptScope(next: string)
      requires Valid()
      modifies this
      ensures Valid() && world == G.Step(old(world), G.Event.AdoptScope(next))
      ensures scope == if pty.procs == map[] then next else old(scope)
      ensures View() == old(View()).(scope := scope)
    {
      G.LiveIffProcesses(world);
      var live := HasLiveSessions();
      if !live {
        scope := next;
      }
      Record(G.Event.AdoptScope(next));
    }

    // ----- internals -----

    method AdoptRealId(id: string, placeholder: string, realId: string)
      modifies this`defs, registry
      ensures View() == Adopt(old(View()), id, placeholder, realId)
    {
      registry.Release(placeholder);
      defs := WithSession(defs, id, realId);
      var _ := registry.Add(realId);
    }

    method Spawn(id: string, mode: Mode, minted: string, ts: set<Transcript>)
      requires HasTile(defs, id)
      modifies this, pty, registry
      ensures View() == SpawnSession(old(View()), id, mode, minted, ts) && world == old(world)
    {
      if id !in runtime {
        return;
      }
      var d := TileOf(defs, id);
      var effective := mode;
      SessionUpdateKeepsTiles(defs, id, "");
      if mode == Resume {
        if d.sessionId != "" && registry.Has(d.sessionId) {
          return;
        }
        if d.sessionId == "" || !TranscriptExists(ts, d.cwd, d.sessionId) {
          effective := Fresh;
          defs := WithSession(defs, id, "");
        }
      }
      Launch(id, effective, minted, IdsUnder(ts, d.cwd));
    }

    method Launch(id: string, mode: Mode, minted: string, before: set<string>)
      requires HasTile(defs, id)
      modifies this, pty, registry
      ensures View() == SessionCore.Launch(old(View()), id, mode, minted, before) && world == old(world)
    {
      StartPty(id, mode, minted);
      SessionUpdateKeepsTiles(old(defs), id, TileOf(old(defs), id).sessionId);
      SessionUpdateKeepsTiles(old(defs), id, minted);
      polls := polls + {Poll(id, TileOf(defs, id).sessionId, before)};
    }

    method StartPty(id: string, mode: Mode, minted: string)
      requires HasTile(defs, id)
      modifies this, pty, registry
      ensures View() == SessionCore.StartPty(old(View()), id, mode, minted) && world == old(world)
    {
      var sid := TileOf(defs, id).sessionId;
      if mode == Resume && sid != "" {
        sid := minted;
      } else if sid == "" {
        sid := minted;
      }
      defs := WithSession(defs, id, sid);
      var _ := registry.Add(sid);
      if id in runtime {
        runtime := runtime[id := Running];
      }
      var _ := pty.Spawn(id, scope);
    }
  }

  // The double-resume guard as a fact about the object, between any two calls: a live tile's session
  // id is registered, and no other tile, live or dead, has it.
  lemma LiveTilesAreApart(s: SessionService, d: Def, e: Def)
    requires s.Valid() && d in s.defs && e in s.defs && d.id in s.pty.procs && e.id != d.id
    ensures s.registry.Has(d.sessionId) && e.sessionId != d.sessionId
  {
    G.DoubleResumeGuard(s.world, d, e);
  }
}
