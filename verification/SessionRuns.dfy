// What follows from the session invariant over runs and for single calls: dead processes stay silent,
// which tiles a restore brings up and in which scope.
module SessionRuns {
  import opened Options
  import opened SessionCore
  import opened SessionGuard
  import Reorder

  // ----- processes over a run -----

  // No process comes back: later ones are either new or were already running.
  ghost predicate Later(c: Core, d: Core) {
    c.spawned <= d.spawned && forall n: nat :: n in d.procs.Values ==> n >= c.spawned || n in c.procs.Values
  }

  lemma SpawnIsLater(w: World, id: string, mode: Mode, minted: string, ts: set<Transcript>)
    ensures Later(w.core, Spawn(w, id, mode, minted, ts).core)
  {
    hide WithSession, IdsUnder, TranscriptExists;
    if HasTile(w.core.defs, id) {
      SpawnCounts(w.core, id, mode, minted, ts);
    }
  }

  lemma SpawnCounts(c: Core, id: string, mode: Mode, minted: string, ts: set<Transcript>)
    requires HasTile(c.defs, id)
    ensures var d := SpawnSession(c, id, mode, minted, ts);
            || (d.procs == c.procs && d.spawned == c.spawned)
            || (d.procs == c.procs[id := c.spawned] && d.spawned == c.spawned + 1)
  {
    hide WithSession, IdsUnder, TranscriptExists;
  }

  lemma {:induction false} SpawnAllIsLater(w: World, ids: seq<string>, mints: seq<string>, ts: set<Transcript>)
    requires |ids| == |mints|
    ensures Later(w.core, SpawnAll(w, ids, mints, ts).core)
    decreases ids
  {
    if ids != [] {
      SpawnIsLater(w, ids[0], Resume, mints[0], ts);
      SpawnAllIsLater(Spawn(w, ids[0], Resume, mints[0], ts), ids[1..], mints[1..], ts);
    }
  }

  lemma {:induction false} RefreshSpawnsNothing(w: World, ids: seq<string>, backs: map<string, string>,
                                                ts: set<Transcript>)
    ensures RefreshIn(w, ids, backs, ts).core.procs == w.core.procs
    ensures RefreshIn(w, ids, backs, ts).core.spawned == w.core.spawned
    decreases ids
  {
    if ids != [] {
      RefreshSpawnsNothing(RefreshStep(w, ids[0], backs, ts), ids[1..], backs, ts);
    }
  }

  lemma FewerIsLater(c: Core, d: Core)
    requires d.spawned == c.spawned && forall x :: x in d.procs ==> x in c.procs && d.procs[x] == c.procs[x]
    ensures Later(c, d)
  {
  }

  lemma QuietIsLater(w: World, e: Event)
    requires !(e.Create? || e.RestoreFrom? || e.Restart? || e.Refresh?)
    ensures Later(w.core, Step(w, e).core)
  {
    hide Later, Found, WithSession, ReleaseAll, ReleaseId, TileOf, Dropped, HasLiveSessions, Reorder.Reconciled;
    FewerIsLater(w.core, Step(w, e).core);
  }

  lemma StepIsLater(w: World, e: Event)
    ensures Later(w.core, Step(w, e).core)
  {
    hide Spawn, SpawnAll, RefreshIn;
    match e {
      case Create(id, cwd, minted, ts) => SpawnIsLater(WithNew(w, id, cwd), id, Fresh, minted, ts);
      case RestoreFrom(defs, mints, ts) =>
        if |mints| == |defs| { SpawnAllIsLater(WithSet(w, defs), Ids(defs), mints, ts); }
      case Restart(id, minted, ts) => SpawnIsLater(w, id, Resume, minted, ts);
      case Refresh(order, backs, ts) =>
        RefreshSpawnsNothing(w, order, backs, ts);
        FewerIsLater(w.core, Step(w, e).core);
      case _ => QuietIsLater(w, e);
    }
  }

  // A killed or replaced process is never a tile's again, so whenever its exit finally arrives,
  // it changes nothing.
  lemma {:induction false} DeadProcessStaysSilent(w: World, es: seq<Event>, proc: nat, id: string, code: int)
    requires proc < w.core.spawned && proc !in w.core.procs.Values
    ensures proc !in After(w, es).core.procs.Values
    ensures Step(After(w, es), Event.ProcExit(id, proc, code)) == After(w, es)
    decreases es
  {
    if es != [] {
      StepIsLater(w, es[0]);
      DeadProcessStaysSilent(Step(w, es[0]), es[1..], proc, id, code);
    }
  }

  // How often the process's exit is reported to the session service.
  function ExitEvents(w: World, es: seq<Event>, proc: nat): nat
    decreases es
  {
    if es == [] then 0
    else
      (if es[0].ProcExit? && es[0].proc == proc && Emits(w.core, es[0].id, proc) then 1 else 0)
      + ExitEvents(Step(w, es[0]), es[1..], proc)
  }

  lemma {:induction false} SilentReportsNothing(w: World, es: seq<Event>, proc: nat)
    requires proc < w.core.spawned && proc !in w.core.procs.Values
    ensures ExitEvents(w, es, proc) == 0
    decreases es
  {
    if es != [] {
      StepIsLater(w, es[0]);
      SilentReportsNothing(Step(w, es[0]), es[1..], proc);
    }
  }

  // Each process yields at most one exit event.
  lemma {:induction false} OneExitPerProcess(w: World, es: seq<Event>, proc: nat)
    requires Inv(w) && IsRun(w, es)
    ensures ExitEvents(w, es, proc) <= 1
    decreases es
  {
    if es != [] {
      var e, v := es[0], Step(w, es[0]);
      StepKeepsInv(w, e);
      if e.ProcExit? && e.proc == proc && Emits(w.core, e.id, proc) {
        ReportedIsGone(w, e.id, proc, e.code);
        SilentReportsNothing(v, es[1..], proc);
      } else {
        OneExitPerProcess(v, es[1..], proc);
      }
    }
  }

  lemma ReportedIsGone(w: World, id: string, proc: nat, code: int)
    requires Inv(w) && Emits(w.core, id, proc)
    ensures var c := SessionCore.ProcExit(w.core, id, proc, code); proc < c.spawned && proc !in c.procs.Values
  {
    hide Agreement, TilesOk, Owned, Remembered, SessionCore.ProcExit;
    RegisteredHasTile(w, id);
    OwnerGone(w, TileOf(w.core.defs, id));
    ExitDrops(w.core, id, proc, code);
  }

  lemma ExitDrops(c: Core, id: string, proc: nat, code: int)
    requires Emits(c, id, proc)
    ensures SessionCore.ProcExit(c, id, proc, code).procs == c.procs - {id}
    ensures SessionCore.ProcExit(c, id, proc, code).spawned == c.spawned
  {
  }

  // ----- what a restore brings up -----

  // The tile would not be held back by the double-resume guard.
  predicate Resumable(c: Core, id: string)
    requires HasTile(c.defs, id)
  {
    TileOf(c.defs, id).sessionId == "" || TileOf(c.defs, id).sessionId !in c.open
  }

  ghost predicate NotYetUp(c: Core, ids: seq<string>) {
    Reorder.Distinct(ids) && forall id :: id in ids ==> HasTile(c.defs, id) && id in c.runtime && id !in c.procs
  }

  ghost predicate NewToTiles(c: Core, mints: seq<string>) {
    forall m :: m in mints ==> m != "" && forall d :: d in c.defs ==> d.sessionId != m
  }

  lemma OtherTile(defs: seq<Def>, id: string, sid: string, other: string)
    requires HasTile(defs, other) && other != id && Reorder.Distinct(Ids(defs))
    ensures HasTile(WithSession(defs, id, sid), other) &&
        TileOf(WithSession(defs, id, sid), other) == TileOf(defs, other)
  {
    SessionUpdateKeepsTiles(defs, id, sid);
    var t := TileOf(WithSession(defs, id, sid), other);
    UpdatedMember(defs, id, sid, t);
    var b :| b in defs && b.id == t.id && t == if b.id == id then b.(sessionId := sid) else b;
    TileUnique(defs, b, TileOf(defs, other));
  }

  // One tile spawned, the others stay as they were, guard included.
  lemma SpawnSparesOthers(c: Core, id: string, minted: string, ts: set<Transcript>, other: string)
    requires Reorder.Distinct(Ids(c.defs)) && HasTile(c.defs, id) && id in c.runtime && NewToTiles(c, [minted])
    requires HasTile(c.defs, other) && other != id
    ensures var e := SpawnSession(c, id, Resume, minted, ts);
            && HasTile(e.defs, other) && (Resumable(e, other) <==> Resumable(c, other))
            && (other in e.procs <==> other in c.procs) && (other in e.runtime <==> other in c.runtime)
  {
    hide SpawnSession, TileOf, HasTile, WithSession, IdsUnder;
    if Resumable(c, id) {
      SpawnShape(c, id, Resume, minted, ts);
      OtherTile(c.defs, id, minted, other);
      assert minted in [minted];
    } else {
      HeldBack(c, id, minted, ts);
    }
  }

  lemma HeldBack(c: Core, id: string, minted: string, ts: set<Transcript>)
    requires HasTile(c.defs, id) && !Resumable(c, id)
    ensures SpawnSession(c, id, Resume, minted, ts) == c
  {
  }

  lemma SpawnIffResumable(c: Core, id: string, minted: string, ts: set<Transcript>)
    requires HasTile(c.defs, id) && id in c.runtime && id !in c.procs
    ensures var e := SpawnSession(c, id, Resume, minted, ts);
            && (id in e.procs <==> Resumable(c, id))
            && Ids(e.defs) == Ids(c.defs)
            && (forall d :: d in e.defs ==> d in c.defs || d.sessionId == minted)
  {
    if Resumable(c, id) {
      SpawnShape(c, id, Resume, minted, ts);
      SessionUpdateKeepsTiles(c.defs, id, minted);
      forall d | d in WithSession(c.defs, id, minted) ensures d in c.defs || d.sessionId == minted {
        UpdatedMember(c.defs, id, minted, d);
      }
    }
  }

  lemma {:induction false} SpawnEachRevives(c: Core, ids: seq<string>, mints: seq<string>, ts: set<Transcript>,
                                            id: string)
    requires |ids| == |mints| && Reorder.Distinct(Ids(c.defs)) && Reorder.Distinct(mints)
    requires NotYetUp(c, ids) && NewToTiles(c, mints) && HasTile(c.defs, id)
    ensures id in SpawnEach(c, ids, mints, ts).procs <==> if id in ids then Resumable(c, id) else id in c.procs
    decreases ids
  {
    hide SpawnSession, TileOf, WithSession, IdsUnder, Resumable;
    if ids != [] {
      var e := RestStaysReady(c, ids, mints, ts);
      hide NotYetUp, NewToTiles;
      TilesAreIds(c.defs, id);
      TilesAreIds(e.defs, id);
      if id != ids[0] {
        SpawnSparesOthers(c, ids[0], mints[0], ts, id);
      }
      SpawnEachRevives(e, ids[1..], mints[1..], ts, id);
    }
  }

  // The first of several tiles is spawned, and the rest can be.
  lemma RestStaysReady(c: Core, ids: seq<string>, mints: seq<string>, ts: set<Transcript>) returns (e: Core)
    requires |ids| == |mints| && ids != [] && Reorder.Distinct(Ids(c.defs)) && Reorder.Distinct(mints)
    requires NotYetUp(c, ids) && NewToTiles(c, mints)
    ensures var first, rest := ids[0], ids[1..];
            && HasTile(c.defs, first) && first in c.runtime && first !in c.procs && first !in rest
            && NewToTiles(c, [mints[0]])
            && e == SpawnSession(c, first, Resume, mints[0], ts)
            && (first in e.procs <==> Resumable(c, first)) && Ids(e.defs) == Ids(c.defs)
            && NotYetUp(e, rest) && NewToTiles(e, mints[1..])
  {
    hide SpawnSession, TileOf, WithSession, IdsUnder, Resumable;
    var first, rest := ids[0], ids[1..];
    assert first in ids && mints[0] in mints;
    e := SpawnSession(c, first, Resume, mints[0], ts);
    SpawnIffResumable(c, first, mints[0], ts);
    forall x | x in rest ensures HasTile(e.defs, x) && x in e.runtime && x !in e.procs {
      assert x in ids;
      SpawnSparesOthers(c, first, mints[0], ts, x);
    }
    forall m, d | m in mints[1..] && d in e.defs ensures m != "" && d.sessionId != m {
      assert m in mints;
    }
  }

  // What spawning one tile leaves of another, and what it makes of the one.
  lemma SpawnSparesTile(c: Core, id: string, minted: string, ts: set<Transcript>, other: string)
    requires Reorder.Distinct(Ids(c.defs)) && HasTile(c.defs, id) && id in c.runtime
    requires HasTile(c.defs, other) && other != id
    ensures var e := SpawnSession(c, id, Resume, minted, ts);
            && HasTile(e.defs, other) && TileOf(e.defs, other) == TileOf(c.defs, other)
            && (other in c.runtime ==> other in e.runtime && e.runtime[other] == c.runtime[other])
  {
    hide SpawnSession, TileOf, HasTile, WithSession, IdsUnder;
    if Resumable(c, id) {
      SpawnShape(c, id, Resume, minted, ts);
      OtherTile(c.defs, id, minted, other);
    } else {
      HeldBack(c, id, minted, ts);
    }
  }

  lemma SpawnedTile(c: Core, id: string, minted: string, ts: set<Transcript>)
    requires Reorder.Distinct(Ids(c.defs)) && HasTile(c.defs, id) && id in c.runtime
    ensures var e := SpawnSession(c, id, Resume, minted, ts);
            HasTile(e.defs, id) && id in e.runtime && IsRespawned(TileOf(c.defs, id), TileOf(e.defs, id), minted,
                                                                  Resumable(c, id), c.runtime[id], e.runtime[id])
            && e.open == if Resumable(c, id) then c.open + {minted} else c.open
  {
    hide SpawnSession, IdsUnder;
    if Resumable(c, id) {
      SpawnShape(c, id, Resume, minted, ts);
      TileAfter(c.defs, id, minted);
      var t := TileOf(WithSession(c.defs, id, minted), id);
      UpdatedMember(c.defs, id, minted, t);
      var b :| b in c.defs && b.id == t.id && t == if b.id == id then b.(sessionId := minted) else b;
      TileUnique(c.defs, b, TileOf(c.defs, id));
    } else {
      HeldBack(c, id, minted, ts);
    }
  }

  // A tile that comes up runs under the minted id; one that does not is as it was.
  predicate IsRespawned(old': Def, new': Def, minted: string, up: bool, before: Status, after: Status) {
    if up then new' == old'.(sessionId := minted) && after == Running else new' == old' && after == before
  }

  lemma {:induction false} UntouchedTile(c: Core, ids: seq<string>, mints: seq<string>, ts: set<Transcript>, x: string)
    requires |ids| == |mints| && Reorder.Distinct(Ids(c.defs)) && Reorder.Distinct(mints)
    requires NotYetUp(c, ids) && NewToTiles(c, mints) && HasTile(c.defs, x) && x in c.runtime && x !in ids
    ensures var e := SpawnEach(c, ids, mints, ts);
            && HasTile(e.defs, x) && TileOf(e.defs, x) == TileOf(c.defs, x)
            && x in e.runtime && e.runtime[x] == c.runtime[x]
    decreases ids
  {
    hide SpawnSession, TileOf, HasTile, WithSession, IdsUnder, Resumable;
    if ids != [] {
      var e := RestStaysReady(c, ids, mints, ts);
      hide NotYetUp, NewToTiles;
      SpawnSparesTile(c, ids[0], mints[0], ts, x);
      UntouchedTile(e, ids[1..], mints[1..], ts, x);
    }
  }

  lemma {:induction false} SpawnedTiles(c: Core, ids: seq<string>, mints: seq<string>, ts: set<Transcript>, at: nat)
    requires |ids| == |mints| && Reorder.Distinct(Ids(c.defs)) && Reorder.Distinct(mints)
    requires NotYetUp(c, ids) && NewToTiles(c, mints) && at < |ids|
    ensures var e, x := SpawnEach(c, ids, mints, ts), ids[at];
            && HasTile(c.defs, x) && x in c.runtime && HasTile(e.defs, x) && x in e.runtime
            && IsRespawned(TileOf(c.defs, x), TileOf(e.defs, x), mints[at], Resumable(c, x), c.runtime[x], e.runtime[x])
    decreases ids
  {
    hide SpawnSession, TileOf, HasTile, WithSession, IdsUnder, Resumable, IsRespawned;
    var x, rest := ids[at], ids[1..];
    assert x in ids && HasTile(c.defs, x) && x in c.runtime;
    var e := RestStaysReady(c, ids, mints, ts);
    hide NotYetUp, NewToTiles;
    if at == 0 {
      SpawnedTile(c, x, mints[0], ts);
      UntouchedTile(e, rest, mints[1..], ts, x);
    } else {
      assert x == rest[at - 1];
      SpawnSparesTile(c, ids[0], mints[0], ts, x);
      SpawnSparesOthers(c, ids[0], mints[0], ts, x);
      SpawnedTiles(e, rest, mints[1..], ts, at - 1);
    }
  }

  // The id is minted here for a tile that comes up.
  ghost predicate Joins(c: Core, ids: seq<string>, mints: seq<string>, sid: string) {
    exists i: nat :: i < |ids| && i < |mints| && mints[i] == sid && HasTile(c.defs, ids[i]) && Resumable(c, ids[i])
  }

  lemma JoinsLater(c: Core, e: Core, ids: seq<string>, mints: seq<string>, sid: string)
    requires |ids| == |mints| && ids != [] && HasTile(c.defs, ids[0])
    requires forall x :: x in ids[1..] ==>
               HasTile(c.defs, x) && HasTile(e.defs, x) && (Resumable(e, x) <==> Resumable(c, x))
    ensures Joins(c, ids, mints, sid)
        <==> (sid == mints[0] && Resumable(c, ids[0])) || Joins(e, ids[1..], mints[1..], sid)
  {
    hide HasTile, Resumable;
    if Joins(e, ids[1..], mints[1..], sid) {
      var i: nat :| i < |ids[1..]| && mints[1..][i] == sid && HasTile(e.defs, ids[1..][i]) && Resumable(e, ids[1..][i]);
      assert ids[i + 1] == ids[1..][i] && mints[i + 1] == sid;
    }
    if Joins(c, ids, mints, sid) {
      var i: nat :| i < |ids| && mints[i] == sid && HasTile(c.defs, ids[i]) && Resumable(c, ids[i]);
      if i > 0 {
        assert ids[1..][i - 1] == ids[i] && mints[1..][i - 1] == sid;
      }
    }
  }

  lemma {:induction false} SpawnedOpen(c: Core, ids: seq<string>, mints: seq<string>, ts: set<Transcript>, sid: string)
    requires |ids| == |mints| && Reorder.Distinct(Ids(c.defs)) && Reorder.Distinct(mints)
    requires NotYetUp(c, ids) && NewToTiles(c, mints)
    ensures sid in SpawnEach(c, ids, mints, ts).open <==> sid in c.open || Joins(c, ids, mints, sid)
    decreases ids
  {
    hide SpawnSession, TileOf, HasTile, WithSession, IdsUnder, Resumable, IsRespawned;
    if ids != [] {
      var e := RestStaysReady(c, ids, mints, ts);
      SpawnedTile(c, ids[0], mints[0], ts);
      forall x | x in ids[1..]
        ensures HasTile(c.defs, x) && HasTile(e.defs, x) && (Resumable(e, x) <==> Resumable(c, x))
      {
        assert x in ids;
        SpawnSparesOthers(c, ids[0], mints[0], ts, x);
      }
      JoinsLater(c, e, ids, mints, sid);
      hide NotYetUp, NewToTiles, Joins;
      SpawnedOpen(e, ids[1..], mints[1..], ts, sid);
    }
  }

  // A restore brings up exactly the tiles whose session id nothing still open holds once the old
  // tiles have let go of theirs; two restored tiles with one id both come up, each under its own.
  lemma RestoreRevives(c: Core, defs: seq<Def>, mints: seq<string>, ts: set<Transcript>, id: string)
    requires |mints| == |defs| && Reorder.Distinct(Ids(defs)) && Reorder.Distinct(mints)
    requires NewToTiles(c.(defs := defs), mints) && HasTile(defs, id)
    ensures id in SessionCore.RestoreFrom(c, defs, mints, ts).procs <==>
              TileOf(defs, id).sessionId == "" || TileOf(defs, id).sessionId !in ReleaseAll(c.open, c.defs)
  {
    var torn := Replace(c, defs);
    TilesAreIds(defs, id);
    forall x | x in Ids(defs) ensures HasTile(defs, x) && x in torn.runtime {
      TilesAreIds(defs, x);
    }
    SpawnEachRevives(torn, Ids(defs), mints, ts, id);
  }

  // What the old tiles held is free after a teardown, and nothing else is freed.
  lemma {:induction false} ReleasedIds(open: set<string>, defs: seq<Def>, sid: string)
    ensures sid in ReleaseAll(open, defs) <==>
        sid in open && !(sid != "" && exists d :: d in defs && d.sessionId == sid)
  {
    if defs != [] {
      ReleasedIds(ReleaseId(open, defs[0].sessionId), defs[1..], sid);
      assert forall d :: d in defs <==> d == defs[0] || d in defs[1..];
    }
  }

  // ----- what single calls mean, given the invariant -----

  lemma CreatedRuns(w: World, id: string, cwd: string, minted: string, ts: set<Transcript>)
    requires Inv(w) && Enabled(w, Event.Create(id, cwd, minted, ts))
    ensures var c := SessionCore.Create(w.core, id, cwd, minted, ts);
            HasTile(c.defs, id) && id in c.procs && TileOf(c.defs, id).sessionId == minted
  {
    var v := WithNew(w, id, cwd);
    WithNewKeepsInv(w, id, cwd);
    SpawnShape(v.core, id, Fresh, minted, ts);
    TileAfter(v.core.defs, id, minted);
  }

  lemma CreatedIs(w: World, id: string, cwd: string, minted: string, ts: set<Transcript>)
    requires Inv(w) && Enabled(w, Event.Create(id, cwd, minted, ts))
    ensures SessionCore.Create(w.core, id, cwd, minted, ts) == WithTile(w.core, id, cwd, minted, ts)
  {
    var v := WithNew(w, id, cwd);
    NewTileIsLast(w, id, cwd, minted);
    hide Inv, Enabled, WithSession, TileOf, HasTile, SpawnSession, WithTile, SpawnedCore, IdsUnder;
    WithNewKeepsInv(w, id, cwd);
    SpawnShape(v.core, id, Fresh, minted, ts);
    assert SessionCore.Create(w.core, id, cwd, minted, ts) == SpawnSession(v.core, id, Fresh, minted, ts);
    SpawnedIs(w.core, id, cwd, minted, ts);
  }

  lemma SpawnedIs(c: Core, id: string, cwd: string, minted: string, ts: set<Transcript>)
    requires WithSession(c.defs + [Def(id, cwd, "")], id, minted) == c.defs + [Def(id, cwd, minted)]
    ensures var c1 := c.(defs := c.defs + [Def(id, cwd, "")], runtime := c.runtime[id := Starting]);
            SpawnedCore(c1, id, minted, IdsUnder(ts, cwd)) == WithTile(c, id, cwd, minted, ts)
  {
    hide WithSession;
    assert c.runtime[id := Starting][id := Running] == c.runtime[id := Running];
  }

  // One tile more, running in the active scope under the minted id, and a poll that knows which
  // transcripts were there.
  function WithTile(c: Core, id: string, cwd: string, minted: string, ts: set<Transcript>): Core {
    Core(c.defs + [Def(id, cwd, minted)], c.runtime[id := Running], c.procs[id := c.spawned], c.spawned + 1,
         c.envs[c.spawned := c.scope], c.open + {minted},
         c.polls + {Poll(id, minted, set t | t in ts && t.cwd == cwd :: t.id)}, c.scope)
  }

  lemma NewTileIsLast(w: World, id: string, cwd: string, minted: string)
    requires Inv(w) && id !in w.used
    ensures WithSession(w.core.defs + [Def(id, cwd, "")], id, minted) == w.core.defs + [Def(id, cwd, minted)]
    ensures TileOf(WithNew(w, id, cwd).core.defs, id) == Def(id, cwd, "")
  {
    WithNewKeepsInv(w, id, cwd);
    var defs := w.core.defs;
    forall i | 0 <= i < |defs| ensures defs[i].id != id {
      assert defs[i] in defs;
      TilesAreIds(defs, defs[i].id);
    }
    hide Inv;
    OnlyLastChanges(defs, id, cwd, minted);
    OnlyLastHas(defs, id, cwd);
  }

  lemma OnlyLastChanges(defs: seq<Def>, id: string, cwd: string, minted: string)
    requires forall i :: 0 <= i < |defs| ==> defs[i].id != id
    ensures WithSession(defs + [Def(id, cwd, "")], id, minted) == defs + [Def(id, cwd, minted)]
  {
  }

  lemma OnlyLastHas(defs: seq<Def>, id: string, cwd: string)
    requires HasTile(defs + [Def(id, cwd, "")], id) && forall i :: 0 <= i < |defs| ==> defs[i].id != id
    ensures TileOf(defs + [Def(id, cwd, "")], id) == Def(id, cwd, "")
  {
    var all := defs + [Def(id, cwd, "")];
    var i :| 0 <= i < |all| && all[i] == TileOf(all, id);
  }

  lemma NoTilesNoProcesses(w: World)
    requires Inv(w) && w.core.defs == []
    ensures w.core.procs == map[] && w.core.runtime == map[]
  {
    assert IdSet([]) == {};
    assert w.core.procs.Keys == {} && w.core.runtime.Keys == {};
  }

  lemma RegisteredHasTile(w: World, id: string)
    requires Inv(w)
    ensures id in w.core.procs ==>
              HasTile(w.core.defs, id) && TileOf(w.core.defs, id).sessionId != "" && id in w.core.runtime
  {
    TilesAreIds(w.core.defs, id);
    if id in w.core.procs {
      assert TileOk(w, TileOf(w.core.defs, id));
    }
  }

  // There is at most one tile of an id.
  lemma TilesById(w: World, id: string)
    requires Inv(w)
    ensures forall d :: d in w.core.defs && d.id == id ==> HasTile(w.core.defs, id) && d == TileOf(w.core.defs, id)
  {
    forall d | d in w.core.defs && d.id == id ensures HasTile(w.core.defs, id) && d == TileOf(w.core.defs, id) {
      TileUnique(w.core.defs, TileOf(w.core.defs, id), d);
    }
  }

  lemma RestartIff(w: World, id: string, minted: string, ts: set<Transcript>)
    requires Inv(w) && HasTile(w.core.defs, id)
    ensures var c := SpawnSession(w.core, id, Resume, minted, ts);
            if id in w.core.procs then c == w.core else id in c.procs <==> Resumable(w.core, id)
  {
    TilesAreIds(w.core.defs, id);
    if id in w.core.procs {
      assert TileOk(w, TileOf(w.core.defs, id));
    } else {
      SpawnIffResumable(w.core, id, minted, ts);
    }
  }

  // The tile runs in the active scope under the minted id, with a poll as for a new one.
  function Respawned(c: Core, id: string, minted: string, ts: set<Transcript>): Core
    requires HasTile(c.defs, id)
  {
    Core(WithSession(c.defs, id, minted), c.runtime[id := Running], c.procs[id := c.spawned], c.spawned + 1,
         c.envs[c.spawned := c.scope], c.open + {minted},
         c.polls + {Poll(id, minted, set t | t in ts && t.cwd == TileOf(c.defs, id).cwd :: t.id)}, c.scope)
  }

  lemma RestartedIs(w: World, id: string, minted: string, ts: set<Transcript>)
    requires Inv(w) && HasTile(w.core.defs, id)
    ensures SpawnSession(w.core, id, Resume, minted, ts) ==
              if id in w.core.procs || !Resumable(w.core, id) then w.core else Respawned(w.core, id, minted, ts)
  {
    RestartIff(w, id, minted, ts);
    TilesAreIds(w.core.defs, id);
    if Resumable(w.core, id) {
      SpawnShape(w.core, id, Resume, minted, ts);
    } else {
      HeldBack(w.core, id, minted, ts);
    }
  }

  lemma RestoredRun(w: World, defs: seq<Def>, mints: seq<string>, ts: set<Transcript>)
    requires Inv(w) && Enabled(w, Event.RestoreFrom(defs, mints, ts))
    ensures var c := SessionCore.RestoreFrom(w.core, defs, mints, ts);
            && Ids(c.defs) == Ids(defs)
            && forall id :: HasTile(defs, id) ==>
                 (id in c.procs <==>
                    TileOf(defs, id).sessionId == "" ||
                      TileOf(defs, id).sessionId !in ReleaseAll(w.core.open, w.core.defs))
  {
    forall m, d | m in mints && d in defs ensures m != "" && d.sessionId != m {
      assert IsMint(WithSet(w, defs), m) && d.sessionId in WithSet(w, defs).seen;
    }
    forall id | HasTile(defs, id)
      ensures id in SessionCore.RestoreFrom(w.core, defs, mints, ts).procs <==>
                TileOf(defs, id).sessionId == "" || TileOf(defs, id).sessionId !in ReleaseAll(w.core.open, w.core.defs)
    {
      RestoreRevives(w.core, defs, mints, ts, id);
    }
    SpawnEachKeepsIds(Replace(w.core, defs), Ids(defs), mints, ts);
  }

  // The restored tile at i is up under the i-th minted id, or down as it was saved.
  ghost predicate IsRestored(old': Core, new': Core, defs: seq<Def>, mints: seq<string>, i: nat)
    requires i < |defs| == |mints| == |new'.defs|
  {
    var up := defs[i].sessionId == "" || defs[i].sessionId !in ReleaseAll(old'.open, old'.defs);
    && new'.defs[i] == (if up then defs[i].(sessionId := mints[i]) else defs[i])
    && defs[i].id in new'.runtime && new'.runtime[defs[i].id] == if up then Running else Exited
  }

  lemma RestoredTile(c: Core, defs: seq<Def>, mints: seq<string>, ts: set<Transcript>, i: nat)
    requires i < |defs| == |mints| && Reorder.Distinct(Ids(defs)) && Reorder.Distinct(mints)
    requires NotYetUp(Replace(c, defs), Ids(defs)) && NewToTiles(c.(defs := defs), mints)
    ensures var e := SessionCore.RestoreFrom(c, defs, mints, ts);
            |e.defs| == |defs| && IsRestored(c, e, defs, mints, i)
  {
    var torn, e := Replace(c, defs), SessionCore.RestoreFrom(c, defs, mints, ts);
    var x := defs[i].id;
    assert Ids(defs)[i] == x && defs[i] in defs;
    SpawnedTiles(torn, Ids(defs), mints, ts, i);
    SpawnEachKeepsIds(torn, Ids(defs), mints, ts);
    hide SpawnEach, TileOf, NotYetUp, NewToTiles;
    assert |e.defs| == |Ids(e.defs)| == |defs|;
    assert e.defs[i].id == Ids(e.defs)[i] == x && e.defs[i] in e.defs;
    TileUnique(e.defs, e.defs[i], TileOf(e.defs, x));
    TileUnique(defs, defs[i], TileOf(defs, x));
  }

  // The ids open after a restore are those the old tiles did not have and those of the tiles that are up.
  ghost predicate OpenAfter(old': Core, new': Core, defs: seq<Def>, mints: seq<string>, sid: string)
    requires |defs| == |mints|
  {
    var still := ReleaseAll(old'.open, old'.defs);
    sid in new'.open <==>
      sid in still || exists i :: 0 <= i < |defs| && mints[i] == sid
                                  && (defs[i].sessionId == "" || defs[i].sessionId !in still)
  }

  lemma RestoredOpen(c: Core, defs: seq<Def>, mints: seq<string>, ts: set<Transcript>, sid: string)
    requires |defs| == |mints| && Reorder.Distinct(Ids(defs)) && Reorder.Distinct(mints)
    requires NotYetUp(Replace(c, defs), Ids(defs)) && NewToTiles(c.(defs := defs), mints)
    ensures OpenAfter(c, SessionCore.RestoreFrom(c, defs, mints, ts), defs, mints, sid)
  {
    var torn := Replace(c, defs);
    SpawnedOpen(torn, Ids(defs), mints, ts, sid);
    hide SpawnEach, TileOf, NotYetUp, NewToTiles;
    forall i | 0 <= i < |defs| 
      ensures Ids(defs)[i] == defs[i].id && HasTile(defs, defs[i].id) && TileOf(defs, defs[i].id) == defs[i]
    {
      assert defs[i] in defs;
      TileUnique(defs, defs[i], TileOf(defs, defs[i].id));
    }
  }

  lemma TornIsReady(w: World, defs: seq<Def>, mints: seq<string>, ts: set<Transcript>)
    requires Inv(w) && Enabled(w, Event.RestoreFrom(defs, mints, ts))
    ensures |defs| == |mints| && Reorder.Distinct(Ids(defs)) && Reorder.Distinct(mints)
    ensures NotYetUp(Replace(w.core, defs), Ids(defs)) && NewToTiles(w.core.(defs := defs), mints)
  {
    forall m, d | m in mints && d in defs ensures m != "" && d.sessionId != m {
      assert IsMint(WithSet(w, defs), m) && d.sessionId in WithSet(w, defs).seen;
    }
    forall x | x in Ids(defs) ensures HasTile(defs, x) && x in Replace(w.core, defs).runtime {
      TilesAreIds(defs, x);
    }
  }

  lemma RestoredIs(w: World, defs: seq<Def>, mints: seq<string>, ts: set<Transcript>)
    requires Inv(w) && Enabled(w, Event.RestoreFrom(defs, mints, ts))
    ensures var c := SessionCore.RestoreFrom(w.core, defs, mints, ts);
            && |c.defs| == |defs| == |mints| && c.scope == w.core.scope
            && (forall i :: 0 <= i < |defs| ==> IsRestored(w.core, c, defs, mints, i))
            && forall sid :: OpenAfter(w.core, c, defs, mints, sid)
  {
    TornIsReady(w, defs, mints, ts);
    hide Inv, Enabled, NotYetUp, NewToTiles, IsRestored, OpenAfter;
    var c := SessionCore.RestoreFrom(w.core, defs, mints, ts);
    SpawnEachKeepsIds(Replace(w.core, defs), Ids(defs), mints, ts);
    assert |Ids(c.defs)| == |c.defs|;
    forall i | 0 <= i < |defs| ensures IsRestored(w.core, c, defs, mints, i) {
      RestoredTile(w.core, defs, mints, ts, i);
    }
    forall sid ensures OpenAfter(w.core, c, defs, mints, sid) {
      RestoredOpen(w.core, defs, mints, ts, sid);
    }
  }

  lemma {:induction false} SpawnEachKeepsIds(c: Core, ids: seq<string>, mints: seq<string>, ts: set<Transcript>)
    requires |ids| == |mints|
    ensures Ids(SpawnEach(c, ids, mints, ts).defs) == Ids(c.defs) && SpawnEach(c, ids, mints, ts).scope == c.scope
    decreases ids
  {
    if ids != [] {
      if HasTile(c.defs, ids[0]) {
        SpawnKeepsIds(c, ids[0], mints[0], ts);
        SpawnEachKeepsIds(SpawnSession(c, ids[0], Resume, mints[0], ts), ids[1..], mints[1..], ts);
      } else {
        SpawnEachKeepsIds(c, ids[1..], mints[1..], ts);
      }
    }
  }

  lemma SpawnKeepsIds(c: Core, id: string, minted: string, ts: set<Transcript>)
    requires HasTile(c.defs, id)
    ensures Ids(SpawnSession(c, id, Resume, minted, ts).defs) == Ids(c.defs)
    ensures SpawnSession(c, id, Resume, minted, ts).scope == c.scope
  {
    if id in c.runtime && Resumable(c, id) {
      SpawnShape(c, id, Resume, minted, ts);
      SessionUpdateKeepsTiles(c.defs, id, minted);
    }
  }

  lemma {:induction false} RefreshKeepsTiles(c: Core, ids: seq<string>, backs: map<string, string>, ts: set<Transcript>)
    ensures Ids(RefreshAll(c, ids, backs, ts).defs) == Ids(c.defs) && RefreshAll(c, ids, backs, ts).runtime == c.runtime
    decreases ids
  {
    if ids != [] {
      if ids[0] in backs {
        SessionUpdateKeepsTiles(c.defs, ids[0], backs[ids[0]]);
      }
      RefreshKeepsTiles(RefreshOne(c, ids[0], backs, ts), ids[1..], backs, ts);
    }
  }

  // ----- what a poll adopts -----

  // Neither there before the spawn nor open under another id than the poll's own placeholder.
  predicate IsFree(c: Core, p: Poll, e: Entry) {
    e.id !in p.before && (e.id in c.open ==> e.id == p.placeholder)
  }

  // The first listed of the newest free entries.
  ghost predicate IsPick(c: Core, p: Poll, entries: seq<Entry>, i: nat) {
    && i < |entries| && IsFree(c, p, entries[i])
    && forall j :: 0 <= j < |entries| && IsFree(c, p, entries[j]) ==>
         entries[j].mtime <= entries[i].mtime && (j < i ==> entries[j].mtime < entries[i].mtime)
  }

  // The back-channel's id, whenever it names another one than the tile has; failing that, the pick's.
  ghost predicate Adopts(c: Core, p: Poll, back: Option<string>, entries: seq<Entry>, mine: string, id: string) {
    && id != "" && id != mine
    && if back.Some? && back.value != "" && back.value != mine then id == back.value
       else exists i: nat :: IsPick(c, p, entries, i) && entries[i].id == id
  }

  lemma FoundIff(c: Core, p: Poll, back: Option<string>, entries: seq<Entry>, id: string)
    requires HasTile(c.defs, p.id)
    ensures Found(c, p, back, entries) == Some(id) <==>
              Adopts(c, p, back, entries, TileOf(c.defs, p.id).sessionId, id)
  {
    var claimed := c.open - {p.placeholder};
    var at := NewestIs(entries, p.before, claimed);
    forall e ensures IsFree(c, p, e) <==> Qualifies(e, p.before, claimed) { }
    NewestIsPick(c, p, entries, claimed, at);
    var pick := PickDiscoveredId(entries, p.before, claimed);
    assert (exists i: nat :: IsPick(c, p, entries, i) && entries[i].id == id) <==> pick == Some(id) by {
      if pick.Some? { assert IsPick(c, p, entries, at) && entries[at].id == pick.value; }
    }
  }

  lemma NewestIsPick(c: Core, p: Poll, entries: seq<Entry>, claimed: set<string>, at: nat)
    requires claimed == c.open - {p.placeholder}
    requires var r := Newest(entries, p.before, claimed);
             && (r.None? ==> forall e :: e in entries ==> !Qualifies(e, p.before, claimed))
             && (r.Some? ==> at < |entries| && entries[at] == r.value && Qualifies(r.value, p.before, claimed))
             && (r.Some? ==> forall e :: e in entries && Qualifies(e, p.before, claimed) ==> e.mtime <= r.value.mtime)
             && (r.Some? ==>
                   forall e :: e in entries[..at] && Qualifies(e, p.before, claimed) ==> e.mtime < r.value.mtime)
    ensures var r := Newest(entries, p.before, claimed);
            forall i: nat :: IsPick(c, p, entries, i) <==> r.Some? && i == at
  {
    var r := Newest(entries, p.before, claimed);
    if r.Some? {
      forall j | 0 <= j < |entries| && IsFree(c, p, entries[j])
        ensures entries[j].mtime <= entries[at].mtime && (j < at ==> entries[j].mtime < entries[at].mtime)
      {
        assert Qualifies(entries[j], p.before, claimed) && entries[j] in entries;
        if j < at { assert entries[..at][j] in entries[..at]; }
      }
      assert IsPick(c, p, entries, at);
      forall i: nat | IsPick(c, p, entries, i) ensures i == at {
        assert entries[i].mtime <= entries[at].mtime <= entries[i].mtime;
      }
    } else {
      forall i: nat | i < |entries| ensures !IsFree(c, p, entries[i]) {
        assert entries[i] in entries && !Qualifies(entries[i], p.before, claimed);
      }
    }
  }

  // One turn of a sleeping poll: it ends with the tile's process, or by adopting an id for it; while
  // there is none to adopt, it sleeps on.
  lemma WakeIs(c: Core, p: Poll, back: Option<string>, entries: seq<Entry>)
    requires p in c.polls && (p.id in c.procs ==> HasTile(c.defs, p.id))
    ensures var d := SessionCore.Wake(c, p, back, entries);
            if p.id !in c.procs then d == c.(polls := c.polls - {p})
            else
              var mine := TileOf(c.defs, p.id).sessionId;
              && (forall id :: Adopts(c, p, back, entries, mine, id) ==>
                    d == c.(defs := WithSession(c.defs, p.id, id), polls := c.polls - {p},
                            open := c.open - {p.placeholder} + {id}))
              && ((forall id :: !Adopts(c, p, back, entries, mine, id)) ==> d == c)
  {
    if p.id in c.procs {
      forall id ensures Found(c, p, back, entries) == Some(id) <==>
                          Adopts(c, p, back, entries, TileOf(c.defs, p.id).sessionId, id)
      {
        FoundIff(c, p, back, entries, id);
      }
      hide Found, Adopts;
      var f := Found(c, p, back, entries);
      if f.Some? {
        assert f == Some(f.value);
        assert Adopts(c, p, back, entries, TileOf(c.defs, p.id).sessionId, f.value);
      }
    }
  }

  // ----- what a refresh adopts -----

  // A live tile whose back-channel names another id takes it, if there is a transcript of it where the
  // tile runs.
  function Refreshed(c: Core, d: Def, backs: map<string, string>, ts: set<Transcript>): Def {
    if d.id in c.procs && d.id in backs && backs[d.id] != "" && backs[d.id] != d.sessionId
       && Transcript(d.cwd, backs[d.id]) in ts
    then d.(sessionId := backs[d.id]) else d
  }

  lemma RefreshOneIs(c: Core, id: string, backs: map<string, string>, ts: set<Transcript>, d: Def)
    requires Reorder.Distinct(Ids(c.defs)) && d in c.defs
    ensures var e := RefreshOne(c, id, backs, ts);
            && Ids(e.defs) == Ids(c.defs) && e.procs == c.procs
            && (if d.id == id then Refreshed(c, d, backs, ts) else d) in e.defs
  {
    if id in backs {
      SessionUpdateKeepsTiles(c.defs, id, backs[id]);
    }
    var i :| 0 <= i < |c.defs| && c.defs[i] == d;
    assert HasTile(c.defs, d.id);
    TileUnique(c.defs, TileOf(c.defs, d.id), d);
    assert RefreshOne(c, id, backs, ts).defs[i] == if d.id == id then Refreshed(c, d, backs, ts) else d;
  }

  lemma {:induction false} RefreshAllIs(c: Core, ids: seq<string>, backs: map<string, string>, ts: set<Transcript>,
                                        d: Def)
    requires Reorder.Distinct(Ids(c.defs)) && Reorder.Distinct(ids) && d in c.defs
    ensures (if d.id in ids then Refreshed(c, d, backs, ts) else d) in RefreshAll(c, ids, backs, ts).defs
    decreases ids
  {
    hide RefreshOne;
    if ids != [] {
      var e := RefreshOne(c, ids[0], backs, ts);
      RefreshOneIs(c, ids[0], backs, ts, d);
      var now := if d.id == ids[0] then Refreshed(c, d, backs, ts) else d;
      RefreshAllIs(e, ids[1..], backs, ts, now);
    }
  }

  // A workspace restore adopts the workspace's scope and then brings up its tiles: they run in that
  // scope exactly if no terminal was alive when the restore was called, or it was the scope already.
  lemma RestoredScope(w: World, next: string, defs: seq<Def>, mints: seq<string>, ts: set<Transcript>)
    requires Inv(w) && Enabled(Step(w, Event.AdoptScope(next)), Event.RestoreFrom(defs, mints, ts))
    ensures var c := Step(Step(w, Event.AdoptScope(next)), Event.RestoreFrom(defs, mints, ts)).core;
            && (forall id :: id in c.procs ==> c.procs[id] in c.envs && c.envs[c.procs[id]] == c.scope)
            && (c.scope == next <==> w.core.procs == map[] || w.core.scope == next)
  {
    var v := Step(w, Event.AdoptScope(next));
    StepKeepsInv(w, Event.AdoptScope(next));
    StepKeepsInv(v, Event.RestoreFrom(defs, mints, ts));
    LiveIffProcesses(w);
    SpawnAllIsSpawnEach(WithSet(v, defs), Ids(defs), mints, ts);
    SpawnEachKeepsScope(Replace(v.core, defs), Ids(defs), mints, ts);
  }

  lemma {:induction false} SpawnEachKeepsScope(c: Core, ids: seq<string>, mints: seq<string>, ts: set<Transcript>)
    requires |ids| == |mints|
    ensures SpawnEach(c, ids, mints, ts).scope == c.scope
    decreases ids
  {
    if ids != [] {
      var next := if HasTile(c.defs, ids[0]) then SpawnSession(c, ids[0], Resume, mints[0], ts) else c;
      SpawnEachKeepsScope(next, ids[1..], mints[1..], ts);
    }
  }
}
