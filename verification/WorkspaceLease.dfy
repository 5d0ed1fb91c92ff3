// Workspace ownership between several Deck instances with skewed clocks, over whole runs.
module WorkspaceLease {
  import opened Options
  import opened WorkspaceFiles

  // beatAt: the true time of the last lock write. alive: the process exists; up: it has not begun to
  // quit either.
  datatype Deck = Deck(me: Instance, alive: bool, up: bool, beatAt: Millis)

  datatype World = World(time: Millis, files: Files, decks: map<nat, Deck>)

  // End is the end of the process, by a crash or after quitting.
  datatype Event =
    | Pass(ms: nat)
    | Launch(i: nat, host: string, pid: int)
    | Beat(i: nat, v: View)
    | SaveNow(i: nat, minted: Id, pin: bool, v: View)
    | RestoreNow(i: nat, id: Id, v: View)
    | NewNow(i: nat, v: View)
    | DeleteNow(i: nat, id: Id)
    | PruneNow(i: nat, v: View)
    | Quit(i: nat, v: View)
    | End(i: nat)

  predicate Holds(w: World, i: nat, id: Id) {
    i in w.decks && w.decks[i].up && w.decks[i].me.current == Some(id)
  }

  predicate HeldByOther(w: World, i: nat, id: Id) {
    exists j | j in w.decks :: j != i && Holds(w, j, id)
  }

  // A local clock reads less than SKEW_MS off any other, and the pids a host reports live include
  // those of the Deck processes on it.
  ghost predicate Sees(w: World, host: string, v: View) {
    && w.time <= v.now < w.time + SKEW_MS
    && (forall j :: j in w.decks && w.decks[j].alive && w.decks[j].me.host == host ==> w.decks[j].me.pid in v.alive)
  }

  ghost predicate Acts(w: World, i: nat, v: View) {
    i in w.decks && w.decks[i].up && Sees(w, w.decks[i].me.host, v)
  }

  // What can happen: a heartbeat lands every HEARTBEAT_MS, live processes of a host have different
  // pids, a minted id is new, and quitting may run its handler twice.
  ghost predicate Possible(w: World, e: Event) {
    match e
    case Pass(ms) => forall i, id :: Holds(w, i, id) ==> w.time + ms <= w.decks[i].beatAt + HEARTBEAT_MS
    case Launch(i, host, pid) =>
      i !in w.decks && forall j ::
        j in w.decks && w.decks[j].alive && w.decks[j].me.host == host ==> w.decks[j].me.pid != pid
    case Quit(i, v) => i in w.decks && w.decks[i].alive && Sees(w, w.decks[i].me.host, v)
    case End(i) => i in w.decks
    case DeleteNow(i, id) => i in w.decks && w.decks[i].up
    case SaveNow(i, minted, _, v) =>
      && Acts(w, i, v)
      && (w.decks[i].me.current.None? ==>
            minted !in w.files.locks && minted !in w.files.saved && forall j :: !Holds(w, j, minted))
    case _ => Acts(w, e.i, e.v)
  }

  // The two events that can take a lock away from another Deck, when they do not.
  ghost predicate Considerate(w: World, e: Event) {
    match e
    case Quit(i, _) => i in w.decks && (w.decks[i].me.current.Some? ==> !HeldByOther(w, i, w.decks[i].me.current.value))
    case DeleteNow(i, id) => !HeldByOther(w, i, id)
    case _ => true
  }

  ghost predicate Enabled(w: World, e: Event) { Possible(w, e) && Considerate(w, e) }

  function Put(w: World, i: nat, f: Files, me: Instance, beat: bool): World
    requires i in w.decks
  {
    World(w.time, f, w.decks[i := w.decks[i].(me := me, beatAt := if beat then w.time else w.decks[i].beatAt)])
  }

  function Step(w: World, e: Event): World
    requires e.Pass? || e.Launch? || e.i in w.decks
  {
    match e
    case Pass(ms) => w.(time := w.time + ms)
    case Launch(i, host, pid) => w.(decks := w.decks[i := Deck(Instance(host, pid, None), true, true, w.time)])
    case Beat(i, v) =>
      var me := w.decks[i].me;
      if me.current.None? then w else Put(w, i, Refresh(w.files, me.current.value, v.now), me, true)
    case SaveNow(i, minted, pin, v) =>
      var (f, me) := Persist(w.files, w.decks[i].me, minted, pin, v);
      Put(w, i, f, me, w.decks[i].me.current.None?)
    case RestoreNow(i, id, v) =>
      var (f, me, ok) := Restore(w.files, w.decks[i].me, id, v);
      Put(w, i, f, me, ok)
    case NewNow(i, v) =>
      var (f, me) := StartNew(w.files, w.decks[i].me, v);
      Put(w, i, f, me, false)
    case DeleteNow(i, id) =>
      var (f, me) := DeleteWs(w.files, w.decks[i].me, id);
      Put(w, i, f, me, false)
    case PruneNow(i, v) => Put(w, i, Prune(w.files, w.decks[i].me, v), w.decks[i].me, false)
    case Quit(i, v) =>
      World(w.time, ReleaseOnQuit(w.files, w.decks[i].me, v), w.decks[i := w.decks[i].(up := false)])
    case End(i) => w.(decks := w.decks[i := w.decks[i].(alive := false, up := false)])
  }

  // ----- the invariant -----

  ghost predicate Owns(l: Lock, me: Instance) { l.host == me.host && l.pid == me.pid }

  // A holder's lock file is there, is its own, and was written at most one heartbeat ago by its clock.
  ghost predicate Leased(w: World, i: nat, id: Id) {
    Holds(w, i, id) ==>
      var d := w.decks[i];
      && id in w.files.locks && Owns(w.files.locks[id], d.me)
      && d.beatAt <= w.files.locks[id].heartbeat < d.beatAt + SKEW_MS
      && d.beatAt <= w.time <= d.beatAt + HEARTBEAT_MS
  }

  ghost predicate Exclusive(w: World) {
    forall i, j, id :: Holds(w, i, id) && Holds(w, j, id) ==> i == j
  }

  predicate SameProcess(a: Deck, b: Deck) {
    a.alive && b.alive && a.me.host == b.me.host && a.me.pid == b.me.pid
  }

  // Processes up are alive, and live ones on one host differ in pid.
  ghost predicate Processes(w: World) {
    && (forall i :: i in w.decks && w.decks[i].up ==> w.decks[i].alive)
    && (forall i, j :: i in w.decks && j in w.decks && SameProcess(w.decks[i], w.decks[j]) ==> i == j)
  }

  ghost predicate Leases(w: World) { forall i, id :: Leased(w, i, id) }

  ghost predicate Inv(w: World) { Exclusive(w) && Leases(w) && Processes(w) }

  // Whoever looks, a held workspace's lock is live.
  lemma HeldLockLooksLive(w: World, i: nat, id: Id, host: string, v: View)
    requires Inv(w) && Holds(w, i, id) && Sees(w, host, v)
    ensures LockedLive(w.files, id, host, v)
  {
    assert Leased(w, i, id);
  }

  // ----- preservation -----

  lemma SameProcesses(w: World, u: World)
    requires Processes(w) && u.decks.Keys == w.decks.Keys
    requires forall i :: i in w.decks ==>
               && (u.decks[i].alive ==> w.decks[i].alive) && (u.decks[i].up ==> w.decks[i].up && u.decks[i].alive)
               && u.decks[i].me.host == w.decks[i].me.host && u.decks[i].me.pid == w.decks[i].me.pid
    ensures Processes(u)
  {
  }

  lemma OwnKeepsInv(w: World, i: nat, id: Id, v: View, f: Files)
    requires Inv(w) && Acts(w, i, v)
    requires !LockedLive(w.files, id, w.decks[i].me.host, v) && forall j :: !Holds(w, j, id)
    requires f.locks == Own(w.files, w.decks[i].me, id, v).0.locks
    ensures Inv(Put(w, i, f, Own(w.files, w.decks[i].me, id, v).1, true))
  {
    var me := w.decks[i].me;
    var u := Put(w, i, f, Own(w.files, me, id, v).1, true);
    SameProcesses(w, u);
    forall j, x ensures Leased(u, j, x) {
      assert Leased(w, j, x);
      if j != i && Holds(w, j, x) && me.current.Some? {
        assert Holds(w, i, me.current.value);
      }
    }
    forall j, k, x | Holds(u, j, x) && Holds(u, k, x) ensures j == k {
      assert j != i ==> Holds(w, j, x);
      assert k != i ==> Holds(w, k, x);
    }
  }

  // Nobody comes to hold anything, and what is still held keeps its lock.
  lemma FewerHoldersKeepInv(w: World, u: World)
    requires Inv(w) && Processes(u) && u.time == w.time
    requires forall j, id :: Holds(u, j, id) ==> Holds(w, j, id) && u.decks[j] == w.decks[j]
    requires forall j, id :: Holds(u, j, id) ==>
               && id in u.files.locks && id in w.files.locks
               && u.files.locks[id] == w.files.locks[id]
    ensures Inv(u)
  {
    forall j, x ensures Leased(u, j, x) {
      assert Leased(w, j, x);
    }
    forall j, k, x | Holds(u, j, x) && Holds(u, k, x) ensures j == k {
      assert Holds(w, j, x) && Holds(w, k, x);
    }
  }

  // The deck drops its current id, or keeps it, and the locks of other holders are untouched.
  lemma LetGoKeepsInv(w: World, i: nat, f: Files, me: Instance)
    requires Inv(w) && i in w.decks
    requires me == w.decks[i].me || me == w.decks[i].me.(current := None)
    requires forall j, id :: Holds(w, j, id) && (j == i ==> me.current == Some(id)) ==>
               id in f.locks && id in w.files.locks && f.locks[id] == w.files.locks[id]
    ensures Inv(Put(w, i, f, me, false))
  {
    var u := Put(w, i, f, me, false);
    SameProcesses(w, u);
    FewerHoldersKeepInv(w, u);
  }

  lemma BeatKeepsInv(w: World, i: nat, v: View)
    requires Inv(w) && Acts(w, i, v)
    ensures Inv(Step(w, Beat(i, v)))
  {
    var u := Step(w, Beat(i, v));
    SameProcesses(w, u);
    forall j, x ensures Leased(u, j, x) {
      assert Leased(w, j, x);
      assert Holds(w, j, x) && Holds(w, i, x) ==> j == i;
    }
    forall j, k, x | Holds(u, j, x) && Holds(u, k, x) ensures j == k {
      assert Holds(w, j, x) && Holds(w, k, x);
    }
  }

  lemma DownKeepsInv(w: World, i: nat, f: Files, alive: bool)
    requires Inv(w) && i in w.decks && (alive ==> w.decks[i].alive)
    requires forall j, id ::
        j != i && Holds(w, j, id) ==> id in f.locks && id in w.files.locks && f.locks[id] == w.files.locks[id]
    ensures Inv(World(w.time, f, w.decks[i := w.decks[i].(alive := alive, up := false)]))
  {
    var u := World(w.time, f, w.decks[i := w.decks[i].(alive := alive, up := false)]);
    SameProcesses(w, u);
    FewerHoldersKeepInv(w, u);
  }

  lemma PassKeepsInv(w: World, ms: nat)
    requires Inv(w) && Possible(w, Pass(ms))
    ensures Inv(Step(w, Pass(ms)))
  {
    var u := Step(w, Pass(ms));
    forall j, x ensures Leased(u, j, x) {
      assert Leased(w, j, x);
      assert Holds(u, j, x) ==> Holds(w, j, x);
    }
    forall j, k, x | Holds(u, j, x) && Holds(u, k, x) ensures j == k {
      assert Holds(w, j, x) && Holds(w, k, x);
    }
  }

  lemma LaunchKeepsInv(w: World, i: nat, host: string, pid: int)
    requires Inv(w) && Possible(w, Launch(i, host, pid))
    ensures Inv(Step(w, Launch(i, host, pid)))
  {
    var u := Step(w, Launch(i, host, pid));
    HeldAreLocked(w);
    assert Processes(u);
    FewerHoldersKeepInv(w, u);
  }

  lemma SaveKeepsInv(w: World, i: nat, minted: Id, pin: bool, v: View)
    requires Inv(w) && Possible(w, SaveNow(i, minted, pin, v))
    ensures Inv(Step(w, SaveNow(i, minted, pin, v)))
  {
    var me := w.decks[i].me;
    HeldAreLocked(w);
    if me.current.None? {
      OwnKeepsInv(w, i, minted, v, Persist(w.files, me, minted, pin, v).0);
    } else {
      LetGoKeepsInv(w, i, Persist(w.files, me, minted, pin, v).0, me);
    }
  }

  lemma RestoreKeepsInv(w: World, i: nat, id: Id, v: View)
    requires Inv(w) && Acts(w, i, v)
    ensures Inv(Step(w, RestoreNow(i, id, v)))
  {
    var me := w.decks[i].me;
    if Restore(w.files, me, id, v).2 {
      forall j ensures !Holds(w, j, id) {
        if Holds(w, j, id) { HeldLockLooksLive(w, j, id, me.host, v); }
      }
      OwnKeepsInv(w, i, id, v, Restore(w.files, me, id, v).0);
    } else {
      HeldAreLocked(w);
      LetGoKeepsInv(w, i, w.files, me);
    }
  }

  lemma HeldAreLocked(w: World)
    requires Inv(w)
    ensures forall j, id :: Holds(w, j, id) ==> id in w.files.locks
  {
    forall j, id | Holds(w, j, id) ensures id in w.files.locks {
      assert Leased(w, j, id);
    }
  }

  // A running deck's current id is nobody else's.
  lemma CurrentIsOwn(w: World, i: nat)
    requires Inv(w) && i in w.decks && w.decks[i].up
    ensures forall j, id :: j != i && Holds(w, j, id) ==> w.decks[i].me.current != Some(id)
  {
    forall j, id | j != i && Holds(w, j, id) ensures w.decks[i].me.current != Some(id) {
      assert w.decks[i].me.current == Some(id) ==> Holds(w, i, id);
    }
  }

  // Pruning never deletes a workspace that any live Deck holds, its own included.
  lemma PruneSparesHeld(w: World, i: nat, v: View)
    requires Inv(w) && i in w.decks && Sees(w, w.decks[i].me.host, v)
    ensures forall j, id :: Holds(w, j, id) ==> id !in PruneSet(w.files, w.decks[i].me, v) && id in w.files.locks
  {
    forall j, id | Holds(w, j, id) ensures id !in PruneSet(w.files, w.decks[i].me, v) && id in w.files.locks {
      HeldLockLooksLive(w, j, id, w.decks[i].me.host, v);
    }
  }

  lemma StepKeepsInv(w: World, e: Event)
    requires Inv(w) && Enabled(w, e)
    ensures Inv(Step(w, e))
  {
    HeldAreLocked(w);
    match e {
      case Pass(ms) => PassKeepsInv(w, ms);
      case Launch(i, host, pid) => LaunchKeepsInv(w, i, host, pid);
      case Beat(i, v) => BeatKeepsInv(w, i, v);
      case SaveNow(i, minted, pin, v) => SaveKeepsInv(w, i, minted, pin, v);
      case RestoreNow(i, id, v) => RestoreKeepsInv(w, i, id, v);
      case NewNow(i, v) =>
        CurrentIsOwn(w, i);
        LetGoKeepsInv(w, i, StartNew(w.files, w.decks[i].me, v).0, StartNew(w.files, w.decks[i].me, v).1);
      case DeleteNow(i, id) => LetGoKeepsInv(w, i, Delete(w.files, id), DeleteWs(w.files, w.decks[i].me, id).1);
      case PruneNow(i, v) =>
        PruneSparesHeld(w, i, v);
        LetGoKeepsInv(w, i, Prune(w.files, w.decks[i].me, v), w.decks[i].me);
      case Quit(i, v) => DownKeepsInv(w, i, ReleaseOnQuit(w.files, w.decks[i].me, v), w.decks[i].alive);
      case End(i) => DownKeepsInv(w, i, w.files, false);
    }
  }

  // A Deck's call changes no other Deck, so what another one's object knows of itself stays true.
  lemma StepSparesOtherDecks(w: World, e: Event, j: nat)
    requires Enabled(w, e) && j in w.decks && (e.Pass? || e.i != j)
    ensures j in Step(w, e).decks && Step(w, e).decks[j] == w.decks[j]
  {
  }

  // ----- whole runs -----

  ghost predicate IsRun(w: World, es: seq<Event>)
    decreases es
  {
    es == [] || (Enabled(w, es[0]) && IsRun(Step(w, es[0]), es[1..]))
  }

  ghost function After(w: World, es: seq<Event>): World
    requires IsRun(w, es)
    decreases es
  {
    if es == [] then w else After(Step(w, es[0]), es[1..])
  }

  lemma {:induction false} LeaseSurvivesRun(w: World, es: seq<Event>)
    requires Inv(w) && IsRun(w, es)
    ensures Inv(After(w, es))
    decreases es
  {
    if es != [] {
      StepKeepsInv(w, es[0]);
      LeaseSurvivesRun(Step(w, es[0]), es[1..]);
    }
  }

  // At most one live Deck holds a workspace, in every run from an empty world.
  lemma MutualExclusion(start: Millis, f: Files, es: seq<Event>)
    requires IsRun(World(start, f, map[]), es)
    ensures Exclusive(After(World(start, f, map[]), es))
  {
    LeaseSurvivesRun(World(start, f, map[]), es);
  }

  // In every run a prune removes only unpinned workspaces not saved for 30 days by the pruner's clock
  // that no live Deck holds, and removes all of those nobody's lock protects.
  lemma PruneIsSafe(start: Millis, f: Files, es: seq<Event>, i: nat, v: View, id: Id)
    requires IsRun(World(start, f, map[]), es)
    requires var w := After(World(start, f, map[]), es); Acts(w, i, v) && id in w.files.saved
    ensures var w := After(World(start, f, map[]), es);
            var gone := id !in Step(w, PruneNow(i, v)).files.saved;
            && (gone ==> !w.files.saved[id].pinned && w.files.saved[id].updatedAt + PRUNE_MAX_AGE_MS < v.now
                         && forall j :: !Holds(w, j, id))
            && (w.decks[i].me.current != Some(id) && id !in w.files.locks
                && !w.files.saved[id].pinned && w.files.saved[id].updatedAt + PRUNE_MAX_AGE_MS < v.now
                ==> gone)
  {
    var w := After(World(start, f, map[]), es);
    LeaseSurvivesRun(World(start, f, map[]), es);
    PruneSparesHeld(w, i, v);
  }

  // ----- exactly when exclusion survives -----

  // Whatever legally happens from here on, no workspace is held twice.
  ghost predicate StaysExclusive(w: World) {
    forall es :: IsRun(w, es) ==> Exclusive(After(w, es))
  }

  lemma {:induction false} FreshNumber(s: set<nat>) returns (k: nat)
    ensures forall x :: x in s ==> x < k
  {
    k := 0;
    if x :| x in s {
      k := FreshNumber(s - {x});
      assert forall y :: y in s ==> y == x || y in s - {x};
      k := if x < k then k else x + 1;
    }
  }

  lemma {:induction false} FreshPid(s: set<int>) returns (p: int)
    ensures forall x :: x in s ==> x < p
  {
    p := 0;
    if x :| x in s {
      p := FreshPid(s - {x});
      assert forall y :: y in s ==> y == x || y in s - {x};
      p := if x < p then p else x + 1;
    }
  }

  function Pids(w: World): set<int> { set i | i in w.decks :: w.decks[i].me.pid }

  // Every clock right and every pid reported live.
  function FullView(w: World): View { View(w.time, Pids(w)) }

  // A held workspace whose lock is gone can be taken by the next Deck to come.
  lemma UnlockedIsTaken(w: World, j: nat, id: Id)
    requires Holds(w, j, id) && id in w.files.saved && id !in w.files.locks
    ensures !StaysExclusive(w)
  {
    var k := FreshNumber(w.decks.Keys);
    var p := FreshPid(Pids(w));
    var launch := Launch(k, "", p);
    assert Enabled(w, launch) by {
      forall i | i in w.decks ensures w.decks[i].me.pid != p { assert w.decks[i].me.pid in Pids(w); }
      assert k !in w.decks.Keys;
    }
    var u := Step(w, launch);
    var restore := RestoreNow(k, id, FullView(u));
    assert Enabled(u, restore) by {
      forall i | i in u.decks ensures u.decks[i].me.pid in Pids(u) { }
    }
    var both := Step(u, restore);
    assert Holds(u, j, id) && Holds(both, j, id) && Holds(both, k, id);
    TwoSteps(w, launch, restore);
  }

  lemma TwoSteps(w: World, a: Event, b: Event)
    requires Enabled(w, a) && Enabled(Step(w, a), b)
    ensures IsRun(w, [a, b]) && After(w, [a, b]) == Step(Step(w, a), b)
  {
    var u := Step(w, a);
    assert [a, b][1..] == [b] && [b][1..] == [];
    assert IsRun(Step(u, b), []) && After(Step(u, b), []) == Step(u, b);
    assert IsRun(u, [b]) && After(u, [b]) == Step(u, b);
  }

  // A doomed world is doomed one legal step earlier.
  lemma DoomedEarlier(w: World, e: Event)
    requires Enabled(w, e) && !StaysExclusive(Step(w, e))
    ensures !StaysExclusive(w)
  {
    var es :| IsRun(Step(w, e), es) && !Exclusive(After(Step(w, e), es));
    assert ([e] + es)[1..] == es;
    assert IsRun(w, [e] + es) && After(w, [e] + es) == After(Step(w, e), es);
  }

  // Quitting, the first time or again, is safe exactly if no other Deck holds the quitter's id.
  lemma QuitIsSafeIff(w: World, i: nat, v: View)
    requires Inv(w) && Possible(w, Quit(i, v))
    ensures StaysExclusive(Step(w, Quit(i, v))) <==> Considerate(w, Quit(i, v))
  {
    var u := Step(w, Quit(i, v));
    if Considerate(w, Quit(i, v)) {
      StepKeepsInv(w, Quit(i, v));
      forall es | IsRun(u, es) ensures Exclusive(After(u, es)) {
        LeaseSurvivesRun(u, es);
      }
    } else {
      var id := w.decks[i].me.current.value;
      var j :| j in w.decks && j != i && Holds(w, j, id);
      assert Holds(u, j, id);
      UnlockedIsTaken(u, j, id);
    }
  }

  // Deleting is safe exactly if no other Deck holds the workspace: its next save brings the file back
  // without a lock.
  lemma DeleteIsSafeIff(w: World, i: nat, id: Id)
    requires Inv(w) && Possible(w, DeleteNow(i, id))
    ensures StaysExclusive(Step(w, DeleteNow(i, id))) <==> Considerate(w, DeleteNow(i, id))
  {
    var u := Step(w, DeleteNow(i, id));
    if Considerate(w, DeleteNow(i, id)) {
      StepKeepsInv(w, DeleteNow(i, id));
      forall es | IsRun(u, es) ensures Exclusive(After(u, es)) {
        LeaseSurvivesRun(u, es);
      }
    } else {
      var j :| j in w.decks && j != i && Holds(w, j, id);
      assert Holds(u, j, id);
      var save := SaveNow(j, id, false, FullView(u));
      assert Enabled(u, save) by {
        forall k | k in u.decks ensures u.decks[k].me.pid in Pids(u) { }
      }
      assert Holds(Step(u, save), j, id);
      UnlockedIsTaken(Step(u, save), j, id);
      DoomedEarlier(u, save);
    }
  }

  // In every reachable world any step that can happen leaves exclusion assured exactly if it is
  // considerate: of all events only quitting and deleting can fail to be.
  lemma ExclusionSurvivesIff(start: Millis, f: Files, es: seq<Event>, e: Event)
    requires IsRun(World(start, f, map[]), es) && Possible(After(World(start, f, map[]), es), e)
    ensures var w := After(World(start, f, map[]), es); StaysExclusive(Step(w, e)) <==> Considerate(w, e)
  {
    var w := After(World(start, f, map[]), es);
    LeaseSurvivesRun(World(start, f, map[]), es);
    match e {
      case Quit(i, v) => QuitIsSafeIff(w, i, v);
      case DeleteNow(i, id) => DeleteIsSafeIff(w, i, id);
      case _ =>
        StepKeepsInv(w, e);
        forall more | IsRun(Step(w, e), more) ensures Exclusive(After(Step(w, e), more)) {
          LeaseSurvivesRun(Step(w, e), more);
        }
    }
  }

  // A situation in which a Deck is `me`, finds these files and sees v.
  ghost predicate Situation(w: World, i: nat, f: Files, me: Instance, up: bool, v: View) {
    && Inv(w) && Sees(w, me.host, v) && w.files == f
    && i in w.decks && w.decks[i].me == me && w.decks[i].alive && w.decks[i].up == up
  }

  // The code's own liveness test rules other holders out, if a live lock that is the caller's own counts
  // as no obstacle.
  lemma LiveTestSuffices(w: World, i: nat, me: Instance, up: bool, v: View, id: Id)
    requires Situation(w, i, w.files, me, up, v)
    requires LockedLive(w.files, id, me.host, v) ==> Owns(w.files.locks[id], me)
    ensures !HeldByOther(w, i, id)
  {
    forall j | j in w.decks && Holds(w, j, id) ensures j == i {
      HeldLockLooksLive(w, j, id, me.host, v);
      assert Leased(w, j, id);
    }
  }

  // A running holder may have written this heartbeat, as seen at v.now.
  predicate IsRecent(heartbeat: Millis, v: View) {
    v.now < heartbeat + LOCK_STALE_MS && heartbeat < v.now + SKEW_MS
  }

  // What the caller knows of itself: its process exists, and a workspace it runs with is leased to it.
  ghost predicate KnowsItself(f: Files, me: Instance, up: bool, v: View) {
    && me.pid in v.alive
    && (up && me.current.Some? ==>
          me.current.value in f.locks && Owns(f.locks[me.current.value], me)
          && IsRecent(f.locks[me.current.value].heartbeat, v))
  }

  // The look-up: the lock is there, is not the caller's own, is recent, on the caller's host has a live
  // process, and can have been written while the caller's own lease was running.
  ghost predicate MayBeHeld(f: Files, me: Instance, up: bool, v: View, id: Id) {
    && id in f.locks && !Owns(f.locks[id], me) && IsRecent(f.locks[id].heartbeat, v)
    && (f.locks[id].host == me.host ==> f.locks[id].pid in v.alive)
    && (up && me.current.Some? && me.current.value in f.locks ==>
          Apart(f.locks[id].heartbeat, f.locks[me.current.value].heartbeat) < LOCK_STALE_MS)
  }

  function Apart(a: nat, b: nat): nat { if a < b then b - a else a - b }

  // That is all there is to know: another Deck holds the workspace in some situation that looks like
  // this one to the caller, exactly if the look-up finds that it may.
  lemma CheckIsExact(f: Files, me: Instance, up: bool, v: View, id: Id)
    ensures KnowsItself(f, me, up, v) && MayBeHeld(f, me, up, v, id) <==>
              exists w, i :: Situation(w, i, f, me, up, v) && HeldByOther(w, i, id)
  {
    if KnowsItself(f, me, up, v) && MayBeHeld(f, me, up, v, id) {
      var w := OtherHolder(f, me, up, v, id);
    }
    forall w, i | Situation(w, i, f, me, up, v) && HeldByOther(w, i, id)
      ensures KnowsItself(f, me, up, v) && MayBeHeld(f, me, up, v, id)
    {
      SituationIsKnown(w, i, me, up, v);
      HolderIsSeen(w, i, me, up, v, id);
    }
  }

  lemma SituationIsKnown(w: World, i: nat, me: Instance, up: bool, v: View)
    requires Situation(w, i, w.files, me, up, v)
    ensures KnowsItself(w.files, me, up, v)
  {
    if up && me.current.Some? { assert Leased(w, i, me.current.value); }
  }

  lemma HolderIsSeen(w: World, i: nat, me: Instance, up: bool, v: View, id: Id)
    requires Situation(w, i, w.files, me, up, v) && HeldByOther(w, i, id)
    ensures MayBeHeld(w.files, me, up, v, id)
  {
    var j :| j in w.decks && j != i && Holds(w, j, id);
    assert Leased(w, j, id);
    if up && me.current.Some? { assert Leased(w, i, me.current.value); }
  }

  function Latest(a: Millis, b: Millis): Millis { if a < b then b else a }

  function Earliest(a: Millis, b: Millis): Millis { if a < b then a else b }

  // The true time may lie SKEW_MS back, and a heartbeat may be that much ahead of it.
  function NotBefore(heartbeat: Millis): Millis {
    if heartbeat < SKEW_MS then 0 else heartbeat - SKEW_MS + 1
  }

  lemma OtherHolder(f: Files, me: Instance, up: bool, v: View, id: Id) returns (w: World)
    requires KnowsItself(f, me, up, v) && MayBeHeld(f, me, up, v, id)
    ensures Situation(w, 0, f, me, up, v) && HeldByOther(w, 0, id)
  {
    var lock := f.locks[id];
    var mine := if up && me.current.Some? then f.locks[me.current.value].heartbeat else lock.heartbeat;
    var t := Latest(NotBefore(v.now), Latest(NotBefore(lock.heartbeat), NotBefore(mine)));
    var other := Deck(Instance(lock.host, lock.pid, Some(id)), true, true, Earliest(lock.heartbeat, t));
    w := World(t, f, map[0 := Deck(me, true, up, Earliest(mine, t)), 1 := other]);
    assert Holds(w, 1, id);
  }

  // ----- reclaiming -----

  // Past this age of a lock's last heartbeat every other host's clock calls it stale.
  const RECLAIM_MS: nat := LOCK_STALE_MS + SKEW_MS

  ghost predicate Unheld(w: World, id: Id) { forall j :: !Holds(w, j, id) }

  ghost predicate NobodyTakes(w: World, es: seq<Event>, id: Id)
    requires IsRun(w, es)
    decreases es
  {
    Unheld(w, id) && (es != [] ==> NobodyTakes(Step(w, es[0]), es[1..], id))
  }

  // The lock for id in u, if any, is the one that was there in w.
  ghost predicate LeftAlone(w: World, u: World, id: Id) {
    id in u.files.locks ==> id in w.files.locks && u.files.locks[id] == w.files.locks[id]
  }

  // No step that leaves a workspace unheld writes its lock.
  lemma StepLeavesLock(w: World, e: Event, id: Id)
    requires Enabled(w, e) && Unheld(w, id) && Unheld(Step(w, e), id)
    ensures LeftAlone(w, Step(w, e), id)
  {
    var u := Step(w, e);
    match e {
      case Beat(i, _) => assert !Holds(w, i, id);
      case SaveNow(i, _, _, _) => assert !Holds(u, i, id);
      case RestoreNow(i, _, _) => assert !Holds(u, i, id);
      case _ =>
    }
  }

  lemma {:induction false} RunLeavesLock(w: World, es: seq<Event>, id: Id)
    requires IsRun(w, es) && NobodyTakes(w, es, id)
    ensures LeftAlone(w, After(w, es), id) && After(w, es).time >= w.time
    decreases es
  {
    if es != [] {
      var u := Step(w, es[0]);
      assert NobodyTakes(u, es[1..], id) && Unheld(u, id);
      StepLeavesLock(w, es[0], id);
      RunLeavesLock(u, es[1..], id);
    }
  }

  lemma StaleIsRestored(w: World, j: nat, id: Id, v: View)
    requires Acts(w, j, v) && id in w.files.saved && !LockedLive(w.files, id, w.decks[j].me.host, v)
    ensures Holds(Step(w, RestoreNow(j, id, v)), j, id)
  {
  }

  // A Deck that held a workspace ends. However the run goes on, if nobody takes the workspace over,
  // from RECLAIM_MS on any Deck of another host can restore it, and one of the same host as soon as
  // the pid is free.
  lemma CrashedOwnerIsReplaced(w: World, i: nat, id: Id, es: seq<Event>, j: nat, v: View)
    requires Inv(w) && Holds(w, i, id)
    requires IsRun(Step(w, End(i)), es) && NobodyTakes(Step(w, End(i)), es, id)
    requires var later := After(Step(w, End(i)), es);
             && Acts(later, j, v) && id in later.files.saved
             && if w.decks[i].me.host == later.decks[j].me.host then w.decks[i].me.pid !in v.alive
                else later.time >= w.time + RECLAIM_MS
    ensures var later := After(Step(w, End(i)), es);
            Enabled(later, RestoreNow(j, id, v)) && Holds(Step(later, RestoreNow(j, id, v)), j, id)
  {
    assert Leased(w, i, id);
    RunLeavesLock(Step(w, End(i)), es, id);
    StaleIsRestored(After(Step(w, End(i)), es), j, id, v);
  }

  // On the owner's own host the bound depends on the pid: while another process wears it, the lock is
  // live at any later time, so no bound holds there.
  lemma ReusedPidBlocksReclaim(f: Files, me: Instance, id: Id, v: View)
    requires id in f.saved && id in f.locks && f.locks[id].host == me.host
    ensures Restore(f, me, id, v).2 <==> f.locks[id].pid !in v.alive
    ensures f.locks[id].pid in v.alive ==> Restore(f, me, id, v.(now := v.now + RECLAIM_MS)) == (f, me, false)
  {
  }

  // ----- why the assumptions are needed -----

  // Deleting a workspace another Deck holds: its next save brings the file back without a lock, and a
  // third Deck restores it.
  lemma DeletingAnothersWorkspaceBreaksExclusion(w: World, i: nat, vi: View, j: nat, k: nat, vk: View, id: Id)
    requires Inv(w) && Holds(w, i, id) && Acts(w, i, vi) && j != i && Possible(w, DeleteNow(j, id))
    requires k != i && Acts(w, k, vk)
    ensures var es := [DeleteNow(j, id), SaveNow(i, id, false, vi), RestoreNow(k, id, vk)];
            CanHappen(w, es) && Holds(Reached(w, es), i, id) && Holds(Reached(w, es), k, id)
  {
    var deleted := Step(w, DeleteNow(j, id));
    assert Possible(deleted, SaveNow(i, id, false, vi));
    var saved := Step(deleted, SaveNow(i, id, false, vi));
    assert id in saved.files.saved && id !in saved.files.locks;
    assert Possible(saved, RestoreNow(k, id, vk));
    Reach3(w, DeleteNow(j, id), SaveNow(i, id, false, vi), RestoreNow(k, id, vk));
  }

  // Quitting releases the lock once when the last window closes and once before quitting. A Deck that
  // takes the workspace over in between, whatever it had before, loses its lock, and a third one can
  // take it as well.
  lemma SecondQuitReleaseBreaksExclusion(w: World, i: nat, vi: View, j: nat, vj: View, k: nat, vk: View, id: Id)
    requires Inv(w) && Holds(w, i, id) && id in w.files.saved && i != j && i != k && j != k
    requires Acts(w, i, vi) && Acts(w, j, vj) && Acts(w, k, vk)
    ensures var es := [Quit(i, vi), RestoreNow(j, id, vj), Quit(i, vi), RestoreNow(k, id, vk)];
            CanHappen(w, es) && Holds(Reached(w, es), j, id) && Holds(Reached(w, es), k, id)
  {
    var once := Step(w, Quit(i, vi));
    assert w.decks[i].alive;
    assert id !in once.files.locks && once.decks[j] == w.decks[j] && once.decks[k] == w.decks[k];
    assert Possible(once, RestoreNow(j, id, vj));
    var taken := Step(once, RestoreNow(j, id, vj));
    assert Holds(taken, j, id) && taken.decks[i].me.current == Some(id) && taken.decks[k] == w.decks[k];
    assert Possible(taken, Quit(i, vi));
    var twice := Step(taken, Quit(i, vi));
    assert id !in twice.files.locks && id in twice.files.saved && Holds(twice, j, id) && twice.decks[k] == w.decks[k];
    assert Possible(twice, RestoreNow(k, id, vk));
    Reach3(once, RestoreNow(j, id, vj), Quit(i, vi), RestoreNow(k, id, vk));
    ReachOne(w, Quit(i, vi), [RestoreNow(j, id, vj), Quit(i, vi), RestoreNow(k, id, vk)]);
  }

  // Events that can happen one after the other, considerate or not.
  ghost predicate CanHappen(w: World, es: seq<Event>)
    decreases es
  {
    es == [] || (Possible(w, es[0]) && CanHappen(Step(w, es[0]), es[1..]))
  }

  ghost function Reached(w: World, es: seq<Event>): World
    requires CanHappen(w, es)
    decreases es
  {
    if es == [] then w else Reached(Step(w, es[0]), es[1..])
  }

  lemma ReachOne(w: World, e: Event, rest: seq<Event>)
    requires Possible(w, e) && CanHappen(Step(w, e), rest)
    ensures CanHappen(w, [e] + rest) && Reached(w, [e] + rest) == Reached(Step(w, e), rest)
  {
    assert ([e] + rest)[1..] == rest;
  }

  lemma Reach3(w: World, a: Event, b: Event, c: Event)
    requires Possible(w, a) && Possible(Step(w, a), b) && Possible(Step(Step(w, a), b), c)
    ensures CanHappen(w, [a, b, c]) && Reached(w, [a, b, c]) == Step(Step(Step(w, a), b), c)
  {
    var u := Step(w, a);
    var x := Step(u, b);
    assert CanHappen(Step(x, c), []);
    ReachOne(x, c, []);
    ReachOne(u, b, [c] + []);
    ReachOne(w, a, [b] + ([c] + []));
    assert [a] + ([b] + ([c] + [])) == [a, b, c];
  }

  // Two Decks on one host, launched on a directory that knows nothing of id; the first saves under id.
  function Saver(start: Millis, f: Files, host: string, p: int, q: int, id: Id): seq<Event> {
    [Launch(0, host, p)] + ([Launch(1, host, q)] + ([SaveNow(0, id, false, View(start, {p, q}))] + []))
  }

  function Saved(start: Millis, f: Files, host: string, p: int, q: int, id: Id): World {
    World(start, Files(f.locks[id := Lock(p, host, start, start)], f.saved[id := Workspace(false, start)]),
          map[0 := Deck(Instance(host, p, Some(id)), true, true, start),
              1 := Deck(Instance(host, q, None), true, true, start)])
  }

  lemma OneRuns(w: World, e: Event, rest: seq<Event>)
    requires Enabled(w, e) && IsRun(Step(w, e), rest)
    ensures IsRun(w, [e] + rest) && After(w, [e] + rest) == After(Step(w, e), rest)
  {
    assert ([e] + rest)[1..] == rest;
  }

  function Launched(start: Millis, f: Files, host: string, p: int, q: int): World {
    World(start, f, map[0 := Deck(Instance(host, p, None), true, true, start),
                        1 := Deck(Instance(host, q, None), true, true, start)])
  }

  lemma LaunchRuns(start: Millis, f: Files, host: string, p: int, q: int)
    requires p != q
    ensures var w0, e0, e1 := World(start, f, map[]), Launch(0, host, p), Launch(1, host, q);
            Enabled(w0, e0) && Enabled(Step(w0, e0), e1) && Step(Step(w0, e0), e1) == Launched(start, f, host, p, q)
  {
  }

  lemma SaveRuns(start: Millis, f: Files, host: string, p: int, q: int, id: Id)
    requires p != q && id !in f.locks && id !in f.saved
    ensures var w, e := Launched(start, f, host, p, q), SaveNow(0, id, false, View(start, {p, q}));
            Enabled(w, e) && Step(w, e) == Saved(start, f, host, p, q, id)
  {
    SaveIsAllowed(start, f, host, p, q, id);
    hide Enabled;
  }

  lemma SaveIsAllowed(start: Millis, f: Files, host: string, p: int, q: int, id: Id)
    requires p != q && id !in f.locks && id !in f.saved
    ensures Enabled(Launched(start, f, host, p, q), SaveNow(0, id, false, View(start, {p, q})))
  {
  }

  lemma SaverRuns(start: Millis, f: Files, host: string, p: int, q: int, id: Id, rest: seq<Event>)
    requires p != q && id !in f.locks && id !in f.saved && IsRun(Saved(start, f, host, p, q, id), rest)
    ensures var w, es := World(start, f, map[]), Saver(start, f, host, p, q, id) + rest;
            IsRun(w, es) && After(w, es) == After(Saved(start, f, host, p, q, id), rest)
  {
    var w0 := World(start, f, map[]);
    var e0, e1, e2 := Launch(0, host, p), Launch(1, host, q), SaveNow(0, id, false, View(start, {p, q}));
    hide Step, Enabled;
    LaunchRuns(start, f, host, p, q);
    SaveRuns(start, f, host, p, q, id);
    OneRuns(Launched(start, f, host, p, q), e2, rest);
    OneRuns(Step(w0, e0), e1, [e2] + rest);
    OneRuns(w0, e0, [e1] + ([e2] + rest));
    assert Saver(start, f, host, p, q, id) + rest == [e0] + ([e1] + ([e2] + rest));
  }

  // A run of considerate calls after which deleting is possible and loses exclusion: the second Deck
  // deletes the first one's workspace.
  lemma DeletionRun(start: Millis, f: Files, host: string, p: int, q: int, id: Id)
    requires p != q && id !in f.locks && id !in f.saved
    ensures var es := Saver(start, f, host, p, q, id);
            && IsRun(World(start, f, map[]), es)
            && var w, e := After(World(start, f, map[]), es), DeleteNow(1, id);
               Possible(w, e) && !Considerate(w, e) && !StaysExclusive(Step(w, e))
  {
    var w, es := Saved(start, f, host, p, q, id), Saver(start, f, host, p, q, id);
    assert IsRun(w, []) && After(w, []) == w;
    SaverRuns(start, f, host, p, q, id, []);
    assert es + [] == es;
    assert Holds(w, 0, id);
    ExclusionSurvivesIff(start, f, es, DeleteNow(1, id));
  }

  // The first has released and still names the workspace.
  function Left(start: Millis, f: Files, host: string, p: int, q: int, id: Id): World {
    World(start, Files(f.locks, f.saved[id := Workspace(false, start)]),
          map[0 := Deck(Instance(host, p, Some(id)), true, false, start),
              1 := Deck(Instance(host, q, None), true, true, start)])
  }

  lemma QuitRuns(start: Millis, f: Files, host: string, p: int, q: int, id: Id)
    requires p != q && id !in f.locks && id !in f.saved
    ensures var w, e := Saved(start, f, host, p, q, id), Quit(0, View(start, {p, q}));
            Enabled(w, e) && Step(w, e) == Left(start, f, host, p, q, id)
  {
    QuitIsAllowed(start, f, host, p, q, id);
    hide Enabled;
    var me, v := Instance(host, p, Some(id)), View(start, {p, q});
    assert f.locks[id := Lock(p, host, start, start)] - {id} == f.locks;
    assert ReleaseOnQuit(Saved(start, f, host, p, q, id).files, me, v)
        == Files(f.locks, f.saved[id := Workspace(false, start)]);
  }

  lemma QuitIsAllowed(start: Millis, f: Files, host: string, p: int, q: int, id: Id)
    requires p != q
    ensures Enabled(Saved(start, f, host, p, q, id), Quit(0, View(start, {p, q})))
  {
  }

  lemma TakeoverRuns(start: Millis, f: Files, host: string, p: int, q: int, id: Id)
    requires p != q && id !in f.locks
    ensures var v := View(start, {p, q});
            var w, e := Left(start, f, host, p, q, id), RestoreNow(1, id, v);
            Enabled(w, e) && Possible(Step(w, e), Quit(0, v)) && !Considerate(Step(w, e), Quit(0, v))
  {
    assert Holds(Step(Left(start, f, host, p, q, id), RestoreNow(1, id, View(start, {p, q}))), 1, id);
  }

  // And one after which the quit handler's second call does: the first Deck has begun to quit, and the
  // second has restored its workspace.
  lemma SecondQuitRun(start: Millis, f: Files, host: string, p: int, q: int, id: Id)
    requires p != q && id !in f.locks && id !in f.saved
    ensures var v := View(start, {p, q});
            var es := Saver(start, f, host, p, q, id) + ([Quit(0, v)] + ([RestoreNow(1, id, v)] + []));
            && IsRun(World(start, f, map[]), es)
            && var w, e := After(World(start, f, map[]), es), Quit(0, v);
               Possible(w, e) && !Considerate(w, e) && !StaysExclusive(Step(w, e))
  {
    var v := View(start, {p, q});
    var w, e0, e1 := Saved(start, f, host, p, q, id), Quit(0, v), RestoreNow(1, id, v);
    hide Step, Enabled, Possible, Considerate;
    QuitRuns(start, f, host, p, q, id);
    TakeoverRuns(start, f, host, p, q, id);
    OneRuns(Step(w, e0), e1, []);
    OneRuns(w, e0, [e1] + []);
    SaverRuns(start, f, host, p, q, id, [e0] + ([e1] + []));
    ExclusionSurvivesIff(start, f, Saver(start, f, host, p, q, id) + ([e0] + ([e1] + [])), e0);
  }

  // The skew bound is sharp: a heartbeat 30 s old read through clocks 90 s apart is already stale.
  lemma SkewBoundIsSharp(w: World, i: nat, id: Id, host: string, v: View)
    requires Holds(w, i, id) && id in w.files.locks && w.files.locks[id].host == w.decks[i].me.host != host
    requires w.files.locks[id].heartbeat == w.decks[i].beatAt && w.time == w.decks[i].beatAt + HEARTBEAT_MS
    requires v.now == w.time + SKEW_MS
    ensures !LockedLive(w.files, id, host, v)
    ensures LockedLive(w.files, id, host, v.(now := v.now - 1))
  {
  }

  // Host names must tell machines apart. A Deck on another machine of the same name looks the owner's
  // pid up in its own process table and, not finding it, takes the workspace.
  lemma SharedHostNameBreaksExclusion(w: World, i: nat, k: nat, id: Id, v: View)
    requires Inv(w) && Holds(w, i, id) && id in w.files.saved && k in w.decks && k != i && w.decks[k].up
    requires w.decks[k].me.host == w.decks[i].me.host
    ensures Holds(Step(w, RestoreNow(k, id, v)), k, id) <==> w.decks[i].me.pid !in v.alive
    ensures Holds(Step(w, RestoreNow(k, id, v)), i, id)
  {
    assert Leased(w, i, id);
    CurrentIsOwn(w, k);
    assert w.decks[k].me.current != Some(id);
  }
}
