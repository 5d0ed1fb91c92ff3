// The lock and workspace files of one shared directory, and what each operation makes of them.
module WorkspaceFiles {
  import opened Options

  type Id = string
  type Millis = nat

  const HEARTBEAT_MS: nat := 30_000
  const LOCK_STALE_MS: nat := 120_000
  const PRUNE_MAX_AGE_MS: nat := 30 * 24 * 60 * 60 * 1000
  // Readings of two hosts' clocks differ by less than this.
  const SKEW_MS: nat := 90_000

  datatype Lock = Lock(pid: int, host: string, startedAt: Millis, heartbeat: Millis)

  datatype Workspace = Workspace(pinned: bool, updatedAt: Millis)

  // The <id>.lock and <id>.json files; a malformed file reads as absent.
  datatype Files = Files(locks: map<Id, Lock>, saved: map<Id, Workspace>)

  datatype Instance = Instance(host: string, pid: int, current: Option<Id>)

  // What a call sees of its surroundings: its own clock and the live pids of its own host.
  datatype View = View(now: Millis, alive: set<int>)

  // ----- workspace-lock.ts -----

  predicate IsLockLive(lock: Lock, host: string, v: View) {
    if lock.host == host then lock.pid in v.alive
    else lock.heartbeat + LOCK_STALE_MS > v.now
  }

  predicate LockedLive(f: Files, id: Id, host: string, v: View) {
    id in f.locks && IsLockLive(f.locks[id], host, v)
  }

  function Acquire(f: Files, id: Id, me: Instance, v: View): Files {
    if LockedLive(f, id, me.host, v) then f
    else f.(locks := f.locks[id := Lock(me.pid, me.host, v.now, v.now)])
  }

  function Refresh(f: Files, id: Id, now: Millis): Files {
    if id in f.locks then f.(locks := f.locks[id := f.locks[id].(heartbeat := now)]) else f
  }

  function Release(f: Files, id: Id): Files { f.(locks := f.locks - {id}) }

  // ----- workspace-store.ts -----

  // Save under an id, keeping an existing pin.
  function Save(f: Files, id: Id, pin: bool, now: Millis): Files {
    f.(saved := f.saved[id := Workspace(pin || (id in f.saved && f.saved[id].pinned), now)])
  }

  function Delete(f: Files, id: Id): Files { Files(f.locks - {id}, f.saved - {id}) }

  predicate IsPrunable(ws: Workspace, now: Millis) {
    !ws.pinned && ws.updatedAt + PRUNE_MAX_AGE_MS < now
  }

  function PruneSet(f: Files, me: Instance, v: View): set<Id> {
    set id | id in f.saved && IsPrunable(f.saved[id], v.now) && me.current != Some(id) && !LockedLive(f, id, me.host, v)
  }

  // ----- workspace-service.ts -----

  function Own(f: Files, me: Instance, id: Id, v: View): (Files, Instance) {
    var g := if me.current.Some? && me.current.value != id then Release(f, me.current.value) else f;
    var now := me.(current := Some(id));
    (Acquire(g, id, now, v), now)
  }

  // ensureCurrent, then the write. `minted` is the id a new workspace would get.
  function Persist(f: Files, me: Instance, minted: Id, pin: bool, v: View): (Files, Instance) {
    var (g, now) := if me.current.Some? then (f, me) else Own(f, me, minted, v);
    (Save(g, now.current.value, pin, v.now), now)
  }

  function Restore(f: Files, me: Instance, id: Id, v: View): (Files, Instance, bool) {
    if id !in f.saved || LockedLive(f, id, me.host, v) then (f, me, false)
    else
      var (g, now) := Own(f, me, id, v);
      (Save(g, id, false, v.now), now, true)
  }

  function StartNew(f: Files, me: Instance, v: View): (Files, Instance) {
    if me.current.None? then (f, me)
    else (Release(Save(f, me.current.value, false, v.now), me.current.value), me.(current := None))
  }

  function DeleteWs(f: Files, me: Instance, id: Id): (Files, Instance) {
    (Delete(f, id), if me.current == Some(id) then me.(current := None) else me)
  }

  function Prune(f: Files, me: Instance, v: View): Files {
    Files(f.locks - PruneSet(f, me, v), f.saved - PruneSet(f, me, v))
  }

  // The id stays current: nothing remembers that its lock is gone.
  function ReleaseOnQuit(f: Files, me: Instance, v: View): Files {
    if me.current.None? then f else Release(Save(f, me.current.value, false, v.now), me.current.value)
  }
}
