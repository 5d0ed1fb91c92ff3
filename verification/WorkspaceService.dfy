// The workspace service of one Deck instance, over the directory it shares with the others. The ghost
// world records the whole run: every call is one event of WorkspaceLease, so what is proved about
// runs holds of these objects after every call.
module WorkspaceService {
  import opened Options
  import opened WorkspaceFiles
  import L = WorkspaceLease

  class Directory {
    var files: Files
    ghost var world: L.World

    constructor (start: Millis)
      ensures Valid() && world == L.World(start, Files(map[], map[]), map[])
    {
      files := Files(map[], map[]);
      world := L.World(start, Files(map[], map[]), map[]);
    }

    ghost predicate Valid()
      reads this
    {
      world.files == files && L.Inv(world)
    }

    // The step just taken joins the recorded run.
    ghost method Record(e: L.Event)
      requires L.Inv(world) && L.Enabled(world, e) && files == L.Step(world, e).files
      modifies this`world
      ensures Valid() && world == L.Step(old(world), e)
    {
      L.StepKeepsInv(world, e);
      world := L.Step(world, e);
    }

    method AcquireLock(id: Id, me: Instance, v: View) returns (ok: bool)
      modifies this`files
      ensures files == Acquire(old(files), id, me, v) && ok == !LockedLive(old(files), id, me.host, v)
    {
      if id in files.locks {
        if IsLockLive(files.locks[id], me.host, v) { return false; }
      }
      files := files.(locks := files.locks[id := Lock(me.pid, me.host, v.now, v.now)]);
      return true;
    }

    method RefreshLock(id: Id, now: Millis)
      modifies this`files
      ensures files == Refresh(old(files), id, now)
    {
      if id !in files.locks { return; }
      var lock := files.locks[id];
      files := files.(locks := files.locks[id := lock.(heartbeat := now)]);
    }

    method ReleaseLock(id: Id)
      modifies this`files
      ensures files == Release(old(files), id)
    {
      files := files.(locks := files.locks - {id});
    }

    method SaveWorkspace(id: Id, pin: bool, now: Millis)
      modifies this`files
      ensures files == Save(old(files), id, pin, now)
    {
      var pinned := pin;
      if id in files.saved { pinned := pin || files.saved[id].pinned; }
      files := files.(saved := files.saved[id := Workspace(pinned, now)]);
    }

    method DeleteWorkspace(id: Id)
      modifies this`files
      ensures files == Delete(old(files), id)
    {
      files := files.(saved := files.saved - {id});
      files := files.(locks := files.locks - {id});
    }
  }

  class WorkspaceService {
    const dir: Directory
    const host: string
    const pid: int
    // This instance's number in the recorded world.
    ghost const index: nat
    var currentId: Option<Id>
    var heartbeatOn: bool

    function Me(): Instance
      reads this
    {
      Instance(host, pid, currentId)
    }

    ghost predicate Valid()
      reads this, dir
    {
      && dir.Valid() && index in dir.world.decks && dir.world.decks[index].me == Me()
      && (dir.world.decks[index].up && currentId.Some? ==> heartbeatOn)
    }

    // It has a workspace, and by the invariant nobody else has that one.
    ghost predicate HoldsCurrent(id: Id)
      reads this, dir
    {
      L.Holds(dir.world, index, id) && forall j :: j != index ==> !L.Holds(dir.world, j, id)
    }

    constructor (dir: Directory, index: nat, host: string, pid: int)
      requires dir.Valid() && L.Enabled(dir.world, L.Launch(index, host, pid))
      modifies dir`world
      ensures this.dir == dir && this.index == index && Me() == Instance(host, pid, None)
      ensures Valid() && dir.world == L.Step(old(dir.world), L.Launch(index, host, pid))
    {
      this.dir, this.index, this.host, this.pid := dir, index, host, pid;
      currentId, heartbeatOn := None, false;
      new;
      dir.Record(L.Launch(index, host, pid));
    }

    method OwnId(id: Id, v: View)
      modifies this, dir`files
      ensures (dir.files, Me()) == Own(old(dir.files), old(Me()), id, v) && heartbeatOn
    {
      if currentId.Some? && currentId.value != id {
        dir.ReleaseLock(currentId.value);
      }
      currentId := Some(id);
      var acquired := dir.AcquireLock(id, Me(), v);
      heartbeatOn := true;
    }

    // The heartbeat keeps the lease: afterwards the lock is as fresh as this clock.
    method HeartbeatTick(v: View)
      requires Valid() && L.Enabled(dir.world, L.Beat(index, v))
      modifies dir
      ensures Valid() && dir.world == L.Step(old(dir.world), L.Beat(index, v))
      ensures currentId.Some? ==>
                && HoldsCurrent(currentId.value) && currentId.value in dir.files.locks
                && dir.files.locks[currentId.value].heartbeat == v.now
      ensures currentId.None? ==> dir.files == old(dir.files)
      ensures currentId.Some? ==>
                var id := currentId.value;
                && id in old(dir.files).locks && dir.files.saved == old(dir.files).saved
                && dir.files.locks == old(dir.files).locks[id := old(dir.files).locks[id].(heartbeat := v.now)]
    {
      if heartbeatOn && currentId.Some? {
        assert L.Holds(dir.world, index, currentId.value) && L.Leased(dir.world, index, currentId.value);
        dir.RefreshLock(currentId.value, v.now);
      }
      dir.Record(L.Beat(index, v));
      HolderIsAlone();
    }

    // Afterwards the instance holds the workspace it saved, alone, and a pin is never lost.
    method PersistCurrent(minted: Id, pin: bool, v: View)
      requires Valid() && L.Enabled(dir.world, L.SaveNow(index, minted, pin, v))
      modifies this, dir
      ensures Valid() && dir.world == L.Step(old(dir.world), L.SaveNow(index, minted, pin, v))
      ensures currentId == if old(currentId).Some? then old(currentId) else Some(minted)
      ensures HoldsCurrent(currentId.value) && currentId.value in dir.files.saved
      ensures dir.files.saved[currentId.value].updatedAt == v.now
      ensures dir.files.saved[currentId.value].pinned
           <==> pin || (currentId.value in old(dir.files).saved && old(dir.files).saved[currentId.value].pinned)
      ensures dir.files.saved == old(dir.files).saved[currentId.value := dir.files.saved[currentId.value]]
      ensures dir.files.locks == if old(currentId).Some? then old(dir.files).locks
                                 else old(dir.files).locks[minted := Lock(pid, host, v.now, v.now)]
    {
      if currentId.None? {
        OwnId(minted, v);
      }
      dir.SaveWorkspace(currentId.value, pin, v.now);
      dir.Record(L.SaveNow(index, minted, pin, v));
      HolderIsAlone();
    }

    // It succeeds exactly for a saved workspace without a live lock, is then the only holder, and
    // otherwise changes nothing.
    method RestoreWs(id: Id, v: View) returns (ok: bool)
      requires Valid() && L.Enabled(dir.world, L.RestoreNow(index, id, v))
      modifies this, dir
      ensures Valid() && dir.world == L.Step(old(dir.world), L.RestoreNow(index, id, v))
      ensures ok <==> id in old(dir.files).saved && !LockedLive(old(dir.files), id, host, v)
      ensures ok ==> currentId == Some(id) && HoldsCurrent(id)
      ensures ok ==> forall j :: !L.Holds(old(dir.world), j, id)
      ensures !ok ==> currentId == old(currentId) && dir.files == old(dir.files)
      ensures ok ==> dir.files.saved == old(dir.files).saved[id := Workspace(old(dir.files).saved[id].pinned, v.now)]
      ensures ok ==>
                dir.files.locks == (old(dir.files).locks - LetGo(old(currentId)))[id := Lock(pid, host, v.now, v.now)]
    {
      ghost var before := dir.world;
      ok := false;
      if id in dir.files.saved && !(id in dir.files.locks && IsLockLive(dir.files.locks[id], host, v)) {
        NobodyHolds(id, v);
        OwnId(id, v);
        dir.SaveWorkspace(id, false, v.now);
        ok := true;
      }
      dir.Record(L.RestoreNow(index, id, v));
      HolderIsAlone();
    }

    // Detached, and the workspace it had is saved and unlocked: anyone may restore it.
    method NewClear(v: View)
      requires Valid() && L.Enabled(dir.world, L.NewNow(index, v))
      modifies this, dir
      ensures Valid() && dir.world == L.Step(old(dir.world), L.NewNow(index, v))
      ensures currentId == None
      ensures old(currentId).Some? ==>
          old(currentId).value in dir.files.saved && old(currentId).value !in dir.files.locks
      ensures LeavesSaved(old(dir.files), dir.files, old(currentId), v)
    {
      if currentId.Some? {
        dir.SaveWorkspace(currentId.value, false, v.now);
        dir.ReleaseLock(currentId.value);
        currentId := None;
      }
      dir.Record(L.NewNow(index, v));
    }

    // File and lock gone, and nobody left holding the id.
    method DeleteOne(id: Id)
      requires Valid() && L.Enabled(dir.world, L.DeleteNow(index, id))
      modifies this, dir
      ensures Valid() && dir.world == L.Step(old(dir.world), L.DeleteNow(index, id))
      ensures id !in dir.files.saved && id !in dir.files.locks && L.Unheld(dir.world, id)
      ensures dir.files == Files(old(dir.files).locks - {id}, old(dir.files).saved - {id})
      ensures currentId == if old(currentId) == Some(id) then None else old(currentId)
    {
      if currentId == Some(id) { currentId := None; }
      dir.DeleteWorkspace(id);
      dir.Record(L.DeleteNow(index, id));
      forall j ensures !L.Holds(dir.world, j, id) {
        assert L.Leased(dir.world, j, id);
      }
    }

    // Only old unpinned workspaces that no live instance holds, this one included, and every one of
    // those without a live lock.
    method PruneStale(v: View) returns (pruned: set<Id>)
      requires Valid() && L.Enabled(dir.world, L.PruneNow(index, v))
      modifies dir
      ensures Valid() && dir.world == L.Step(old(dir.world), L.PruneNow(index, v))
      ensures forall id :: id in pruned ==>
                id in old(dir.files).saved && IsPrunable(old(dir.files).saved[id], v.now) && L.Unheld(dir.world, id)
      ensures forall id :: id in old(dir.files).saved ==> (id in pruned <==> id !in dir.files.saved)
      ensures forall id ::
          id in old(dir.files).saved && IsPrunable(old(dir.files).saved[id], v.now) && id !in pruned ==>
                currentId == Some(id) || LockedLive(old(dir.files), id, host, v)
      ensures dir.files == Files(old(dir.files).locks - pruned, old(dir.files).saved - pruned)
    {
      L.PruneSparesHeld(dir.world, index, v);
      pruned := PruneFiles(v);
      dir.Record(L.PruneNow(index, v));
      forall id, j | id in pruned ensures !L.Holds(dir.world, j, id) {
        assert L.Holds(dir.world, j, id) ==> L.Holds(old(dir.world), j, id);
      }
    }

    method PruneFiles(v: View) returns (pruned: set<Id>)
      modifies dir`files
      ensures pruned == PruneSet(old(dir.files), Me(), v)
      ensures dir.files == Prune(old(dir.files), Me(), v)
    {
      var start := dir.files;
      var candidates := set id | id in start.saved && IsPrunable(start.saved[id], v.now) && currentId != Some(id);
      pruned := {};
      var todo := candidates;
      while todo != {}
        invariant todo <= candidates
        invariant pruned == set id | id in candidates && id !in todo && !LockedLive(start, id, host, v)
        invariant dir.files == Files(start.locks - pruned, start.saved - pruned)
        decreases todo
      {
        var id :| id in todo;
        todo := todo - {id};
        assert id !in pruned;
        if id in dir.files.locks {
          if IsLockLive(dir.files.locks[id], host, v) { continue; }
        }
        dir.DeleteWorkspace(id);
        assert start.locks - pruned - {id} == start.locks - (pruned + {id});
        assert start.saved - pruned - {id} == start.saved - (pruned + {id});
        pruned := pruned + {id};
      }
    }

    // Saved and unlocked, the heartbeat off; the id stays current, so a second call would save and
    // unlock again.
    method QuitRelease(v: View)
      requires Valid() && L.Enabled(dir.world, L.Quit(index, v))
      modifies this`heartbeatOn, dir
      ensures Valid() && dir.world == L.Step(old(dir.world), L.Quit(index, v))
      ensures !heartbeatOn && forall id :: !L.Holds(dir.world, index, id)
      ensures currentId.Some? ==> currentId.value in dir.files.saved && currentId.value !in dir.files.locks
      ensures LeavesSaved(old(dir.files), dir.files, currentId, v)
    {
      heartbeatOn := false;
      if currentId.Some? {
        dir.SaveWorkspace(currentId.value, false, v.now);
        dir.ReleaseLock(currentId.value);
      }
      dir.Record(L.Quit(index, v));
    }

    lemma HolderIsAlone()
      requires Valid()
      ensures forall id :: L.Holds(dir.world, index, id) ==> HoldsCurrent(id)
    {
    }

    lemma NobodyHolds(id: Id, v: View)
      requires Valid() && L.Acts(dir.world, index, v) && !LockedLive(dir.files, id, host, v)
      ensures forall j :: !L.Holds(dir.world, j, id)
    {
      forall j ensures !L.Holds(dir.world, j, id) {
        if L.Holds(dir.world, j, id) { L.HeldLockLooksLive(dir.world, j, id, host, v); }
      }
    }
  }

  function LetGo(current: Option<Id>): set<Id> {
    match current
    case None => {}
    case Some(id) => {id}
  }

  // The workspace it had is saved under its pin and unlocked, and no other file is touched.
  predicate LeavesSaved(before: Files, after: Files, current: Option<Id>, v: View) {
    match current
    case None => after == before
    case Some(id) =>
      && after.saved == before.saved[id := Workspace(id in before.saved && before.saved[id].pinned, v.now)]
      && after.locks == before.locks - {id}
  }

  // A step of time or of another instance leaves an object's knowledge of itself intact.
  twostate lemma OthersStayValid(b: WorkspaceService, e: L.Event)
    requires old(b.Valid()) && unchanged(b) && b.dir.Valid()
    requires L.Enabled(old(b.dir.world), e) && b.dir.world == L.Step(old(b.dir.world), e) && (e.Pass? || e.i != b.index)
    ensures b.Valid()
  {
    L.StepSparesOtherDecks(old(b.dir.world), e, b.index);
  }

  // Two running instances on one directory never have the same workspace current.
  lemma InstancesAreApart(a: WorkspaceService, b: WorkspaceService)
    requires a.Valid() && b.Valid() && a.dir == b.dir && a.index != b.index
    requires a.dir.world.decks[a.index].up && b.dir.world.decks[b.index].up && a.currentId.Some?
    ensures a.currentId != b.currentId
  {
    assert L.Holds(a.dir.world, a.index, a.currentId.value);
    assert b.currentId == a.currentId ==> L.Holds(a.dir.world, b.index, a.currentId.value);
  }
}
