// The registry of open session ids over whole runs: which calls leave an id registered that no live
// tile has.
module SessionRegistry {
  import opened Options
  import opened SessionCore
  import opened SessionGuard
  import R = SessionRuns
  import Reorder

  ghost predicate IsLive(c: Core, s: string) {
    exists d :: d in c.defs && d.id in c.procs && d.sessionId == s
  }

  ghost predicate IsLeftover(c: Core, s: string) { s in c.open && !IsLive(c, s) }

  ghost predicate Tight(c: Core) { forall s :: !IsLeftover(c, s) }

  // A sleeping poll wakes, finds an id, and its placeholder is not the tile's current one.
  ghost predicate Leaks(w: World, e: Event) {
    && e.Wake? && Finds(w.core, e.poll, e.back, e.entries)
    && e.poll.placeholder != TileOf(w.core.defs, e.poll.id).sessionId
  }

  ghost predicate AddsNone(c: Core, d: Core) {
    forall s :: IsLeftover(d, s) ==> IsLeftover(c, s)
  }

  // ----- what each transition adds -----

  // The same tiles with processes, up to order, and nothing more registered.
  lemma FewerOpenAddNone(c: Core, d: Core)
    requires d.open <= c.open
    requires forall x :: x in c.defs && x.id in c.procs && x.sessionId in d.open ==> x in d.defs && x.id in d.procs
    ensures AddsNone(c, d)
  {
    forall s | s in d.open && IsLive(c, s) ensures IsLive(d, s) {
      var x :| x in c.defs && x.id in c.procs && x.sessionId == s;
      assert x in d.defs;
    }
  }

  lemma OthersKept(defs: seq<Def>, id: string, sid: string, d: Def)
    requires d in defs && d.id != id
    ensures d in WithSession(defs, id, sid)
  {
    var i :| 0 <= i < |defs| && defs[i] == d;
    assert WithSession(defs, id, sid)[i] == d;
  }

  lemma SpawnedAddsNone(c: Core, id: string, minted: string, before: set<string>)
    requires HasTile(c.defs, id) && id !in c.procs
    ensures AddsNone(c, SpawnedCore(c, id, minted, before))
  {
    var e := SpawnedCore(c, id, minted, before);
    TileAfter(c.defs, id, minted);
    assert IsLive(e, minted);
    forall s | IsLive(c, s) ensures IsLive(e, s) {
      var d :| d in c.defs && d.id in c.procs && d.sessionId == s;
      OthersKept(c.defs, id, minted, d);
    }
  }

  lemma SpawnAddsNone(w: World, id: string, mode: Mode, minted: string, ts: set<Transcript>)
    requires Inv(w) && IsMint(w, minted)
    requires mode == Fresh ==>
               HasTile(w.core.defs, id) && id !in w.core.procs && TileOf(w.core.defs, id).sessionId == ""
    ensures AddsNone(w.core, Spawn(w, id, mode, minted, ts).core)
  {
    hide Inv, SpawnSession;
    if HasTile(w.core.defs, id) {
      SpawnOutcome(w, id, mode, minted, ts);
      if SpawnSession(w.core, id, mode, minted, ts) != w.core {
        SpawnedAddsNone(w.core, id, minted, IdsUnder(ts, TileOf(w.core.defs, id).cwd));
      }
    }
  }

  lemma {:induction false} SpawnAllAddsNone(w: World, ids: seq<string>, mints: seq<string>, ts: set<Transcript>)
    requires Inv(w) && |ids| == |mints| && Mints(w, mints)
    requires forall id :: id in ids ==> id in IdSet(w.core.defs)
    ensures AddsNone(w.core, SpawnAll(w, ids, mints, ts).core)
    decreases ids
  {
    hide Inv, SpawnSession, Spawned, IsLeftover;
    if ids != [] {
      assert ids[0] in ids && mints[0] in mints;
      TilesAreIds(w.core.defs, ids[0]);
      SpawnKeepsInv(w, ids[0], Resume, mints[0], ts);
      SpawnAddsNone(w, ids[0], Resume, mints[0], ts);
      var v := Spawn(w, ids[0], Resume, mints[0], ts);
      assert Mints(v, mints[1..]) by {
        forall m | m in mints[1..] ensures IsMint(v, m) {
          assert m in mints && m != mints[0];
        }
      }
      assert IdSet(v.core.defs) == IdSet(w.core.defs);
      SpawnAllAddsNone(v, ids[1..], mints[1..], ts);
    }
  }

  // All old tiles let go of their ids.
  lemma TeardownAddsNone(w: World, c: Core)
    requires Inv(w) && c.open == ReleaseAll(w.core.open, w.core.defs)
    ensures AddsNone(w.core, c)
  {
    forall s ensures s in c.open ==> s in w.core.open && !IsLive(w.core, s) {
      R.ReleasedIds(w.core.open, w.core.defs, s);
      if IsLive(w.core, s) {
        var d :| d in w.core.defs && d.id in w.core.procs && d.sessionId == s;
        assert TileOk(w, d);
      }
    }
  }

  lemma RemoveAddsNone(w: World, id: string)
    requires Inv(w)
    ensures AddsNone(w.core, SessionCore.Remove(w.core, id))
  {
    var c, d := w.core, SessionCore.Remove(w.core, id);
    DroppedMembers(c.defs, id);
    forall x | x in c.defs && x.id in c.procs && x.sessionId in d.open ensures x.id != id {
      if x.id == id { LetGo(w, x); }
    }
    FewerOpenAddNone(c, d);
  }

  lemma LetGo(w: World, x: Def)
    requires Inv(w) && x in w.core.defs && x.id in w.core.procs
    ensures HasTile(w.core.defs, x.id) && x.sessionId !in ReleaseId(w.core.open, TileOf(w.core.defs, x.id).sessionId)
  {
    TileUnique(w.core.defs, TileOf(w.core.defs, x.id), x);
    assert TileOk(w, x);
  }

  lemma ExitAddsNone(w: World, id: string, proc: nat, code: int)
    requires Inv(w)
    ensures AddsNone(w.core, SessionCore.ProcExit(w.core, id, proc, code))
  {
    var c, d := w.core, SessionCore.ProcExit(w.core, id, proc, code);
    if Emits(c, id, proc) {
      DroppedMembers(c.defs, id);
      forall x | x in c.defs && x.id in c.procs && x.sessionId in d.open ensures x.id != id {
        if x.id == id { LetGo(w, x); }
      }
      FewerOpenAddNone(c, d);
    }
  }

  // Adopting another id gives up the tile's old one, and the registry forgets it exactly if it is the
  // adopting poll's own placeholder: a poll left over from an earlier spawn leaves it registered,
  // though no tile has it any more.
  lemma AdoptionLeaksIff(w: World, tile: string, placeholder: string, id: string)
    requires Inv(w) && HasTile(w.core.defs, tile) && tile in w.core.procs && id != TileOf(w.core.defs, tile).sessionId
    ensures var c, past := Adopt(w.core, tile, placeholder, id), TileOf(w.core.defs, tile).sessionId;
            && (past in c.open <==> placeholder != past)
            && (forall d :: d in c.defs ==> d.sessionId != past)
  {
    var past := TileOf(w.core.defs, tile);
    assert TileOk(w, past);
    forall d | d in WithSession(w.core.defs, tile, id) ensures d.sessionId != past.sessionId {
      UpdatedMember(w.core.defs, tile, id, d);
      var b :| b in w.core.defs && b.id == d.id && d == if b.id == tile then b.(sessionId := id) else b;
      if b.id != tile {
        DoubleResumeGuard(w, past, b);
      }
    }
  }

  // Adoption changes the tile's own id and leaves the other live ones.
  lemma LiveAfterAdoption(c: Core, tile: string, placeholder: string, id: string, s: string)
    requires Reorder.Distinct(Ids(c.defs)) && HasTile(c.defs, tile) && tile in c.procs
    ensures var d := Adopt(c, tile, placeholder, id);
            && IsLive(c, TileOf(c.defs, tile).sessionId) && IsLive(d, id)
            && (IsLive(c, s) ==> IsLive(d, s) || s == TileOf(c.defs, tile).sessionId)
  {
    TileAfter(c.defs, tile, id);
    assert IsLive(c, TileOf(c.defs, tile).sessionId) && IsLive(Adopt(c, tile, placeholder, id), id);
    if IsLive(c, s) {
      var x :| x in c.defs && x.id in c.procs && x.sessionId == s;
      if x.id == tile {
        TileUnique(c.defs, TileOf(c.defs, tile), x);
      } else {
        OthersKept(c.defs, tile, id, x);
      }
    }
  }

  // Adoption can add the tile's old id, and does exactly if another placeholder is released for it.
  lemma AdoptionAdds(w: World, tile: string, placeholder: string, id: string, s: string)
    requires Inv(w) && HasTile(w.core.defs, tile) && tile in w.core.procs && id != TileOf(w.core.defs, tile).sessionId
    ensures var c, past := Adopt(w.core, tile, placeholder, id), TileOf(w.core.defs, tile).sessionId;
            IsLeftover(c, s) && !IsLeftover(w.core, s) <==> s == past && placeholder != past
  {
    hide WithSession, TileOf, HasTile, IsLive, TilesOk, Bookkeeping;
    PastIsGone(w, tile, placeholder, id);
    LiveAfterAdoption(w.core, tile, placeholder, id, s);
  }

  lemma PastIsGone(w: World, tile: string, placeholder: string, id: string)
    requires Inv(w) && HasTile(w.core.defs, tile) && tile in w.core.procs && id != TileOf(w.core.defs, tile).sessionId
    ensures var c, past := Adopt(w.core, tile, placeholder, id), TileOf(w.core.defs, tile).sessionId;
            !IsLive(c, past) && (past in c.open <==> placeholder != past)
  {
    hide Inv, Adopt;
    AdoptionLeaksIff(w, tile, placeholder, id);
  }

  lemma {:induction false} RefreshAddsNone(w: World, ids: seq<string>, backs: map<string, string>, ts: set<Transcript>)
    requires Inv(w) && BacksBelong(w, ids, backs, ts)
    ensures AddsNone(w.core, RefreshIn(w, ids, backs, ts).core)
    decreases ids
  {
    if ids != [] {
      var id := ids[0];
      var v := RefreshStep(w, id, backs, ts);
      RefreshStepAddsNone(w, id, backs, ts);
      hide Inv, RefreshStep, IsLeftover;
      RefreshAddsNone(v, ids[1..], backs, ts);
    }
  }

  lemma RefreshStepAddsNone(w: World, id: string, backs: map<string, string>, ts: set<Transcript>)
    requires Inv(w) && (id in backs && Rotated(w.core, id, backs[id], ts) ==> Belongs(w, id, backs[id]))
    ensures Inv(RefreshStep(w, id, backs, ts)) && AddsNone(w.core, RefreshStep(w, id, backs, ts).core)
  {
    if id in backs && Rotated(w.core, id, backs[id], ts) {
      var d := TileOf(w.core.defs, id);
      assert TileOk(w, d);
      AdoptKeepsInv(w, id, d.sessionId, backs[id]);
      forall s | IsLeftover(Adopt(w.core, id, d.sessionId, backs[id]), s) ensures IsLeftover(w.core, s) {
        AdoptionAdds(w, id, d.sessionId, backs[id], s);
      }
    }
  }

  lemma ReorderAddsNone(w: World, ids: seq<string>)
    requires Inv(w)
    ensures AddsNone(w.core, Step(w, Event.Reorder(ids)).core)
  {
    Reorder.ReconciledMembers(w.core.defs, IdOf, ids);
    FewerOpenAddNone(w.core, Step(w, Event.Reorder(ids)).core);
  }

  lemma CreateAddsNone(w: World, id: string, cwd: string, minted: string, ts: set<Transcript>)
    requires Inv(w) && Enabled(w, Event.Create(id, cwd, minted, ts))
    ensures AddsNone(w.core, Step(w, Event.Create(id, cwd, minted, ts)).core)
  {
    var v := WithNew(w, id, cwd);
    WithNewKeepsInv(w, id, cwd);
    FewerOpenAddNone(w.core, v.core);
    SpawnAddsNone(v, id, Fresh, minted, ts);
  }

  lemma RestoreAddsNone(w: World, defs: seq<Def>, mints: seq<string>, ts: set<Transcript>)
    requires Inv(w) && Enabled(w, Event.RestoreFrom(defs, mints, ts))
    ensures AddsNone(w.core, Step(w, Event.RestoreFrom(defs, mints, ts)).core)
  {
    var v := WithSet(w, defs);
    NothingLiveKeepsInv(w, defs, v.used, v.seen);
    TeardownAddsNone(w, v.core);
    SpawnAllAddsNone(v, Ids(defs), mints, ts);
  }

  lemma OthersAddNone(w: World, e: Event)
    requires Inv(w) && Enabled(w, e) && !e.Wake?
    ensures AddsNone(w.core, Step(w, e).core)
  {
    match e {
      case Create(id, cwd, minted, ts) => CreateAddsNone(w, id, cwd, minted, ts);
      case Remove(id) => RemoveAddsNone(w, id);
      case CloseAll => if w.core.defs != [] { TeardownAddsNone(w, Step(w, e).core); }
      case RestoreFrom(defs, mints, ts) => RestoreAddsNone(w, defs, mints, ts);
      case Restart(id, minted, ts) => SpawnAddsNone(w, id, Resume, minted, ts);
      case Reorder(ids) => ReorderAddsNone(w, ids);
      case ProcExit(id, proc, code) => ExitAddsNone(w, id, proc, code);
      case TimeOut(p) => FewerOpenAddNone(w.core, Step(w, e).core);
      case Refresh(order, backs, ts) => RefreshAddsNone(w, order, backs, ts);
      case AdoptScope(next) => FewerOpenAddNone(w.core, Step(w, e).core);
    }
  }

  // ----- exactly when an id is left over -----

  // An id comes to be registered without a live tile in exactly one way: a poll wakes that does not
  // hold the tile's current id as its placeholder, and it is that current id.
  lemma BecomesLeftoverIff(w: World, e: Event, s: string)
    requires Inv(w) && Enabled(w, e)
    ensures IsLeftover(Step(w, e).core, s) && !IsLeftover(w.core, s) <==>
              Leaks(w, e) && s == TileOf(w.core.defs, e.poll.id).sessionId
  {
    if e.Wake? {
      WakeAdds(w, e.poll, e.back, e.entries, s);
    } else {
      OthersAddNone(w, e);
    }
  }

  lemma WakeAdds(w: World, p: Poll, back: Option<string>, entries: seq<Entry>, s: string)
    requires Inv(w)
    ensures var e := Event.Wake(p, back, entries);
            IsLeftover(Step(w, e).core, s) && !IsLeftover(w.core, s) <==>
              Leaks(w, e) && s == TileOf(w.core.defs, p.id).sessionId
  {
    var v := WithoutPoll(w, p);
    WakeOutcome(w, p, back, entries);
    FewerPollsKeepInv(w, p);
    assert IsLive(v.core, s) <==> IsLive(w.core, s);
    if Finds(w.core, p, back, entries) {
      AdoptionAdds(v, p.id, p.placeholder, Found(w.core, p, back, entries).value, s);
    }
  }

  // Only a poll's placeholder is let go: waking a sleeping poll that finds an id leaves the tile's
  // previous one registered, and no tile with it, exactly if it is not the poll's own placeholder.
  lemma WakeLeaksIff(w: World, p: Poll, back: Option<string>, entries: seq<Entry>)
    requires Inv(w) && Finds(w.core, p, back, entries)
    ensures var c, past := Step(w, Event.Wake(p, back, entries)).core, TileOf(w.core.defs, p.id).sessionId;
            && (past in c.open <==> p.placeholder != past)
            && (forall d :: d in c.defs ==> d.sessionId != past)
  {
    FewerPollsKeepInv(w, p);
    WakeOutcome(w, p, back, entries);
    AdoptionLeaksIff(WithoutPoll(w, p), p.id, p.placeholder, Found(w.core, p, back, entries).value);
  }

  // So the registry goes on holding live tiles' ids only, exactly if the step is no such wake.
  lemma StaysTightIff(w: World, e: Event)
    requires Inv(w) && Enabled(w, e) && Tight(w.core)
    ensures Tight(Step(w, e).core) <==> !Leaks(w, e)
  {
    forall s ensures IsLeftover(Step(w, e).core, s) <==> Leaks(w, e) && s == TileOf(w.core.defs, e.poll.id).sessionId {
      BecomesLeftoverIff(w, e, s);
    }
    if Leaks(w, e) {
      assert IsLeftover(Step(w, e).core, TileOf(w.core.defs, e.poll.id).sessionId);
    }
  }

  ghost predicate TightThroughout(w: World, es: seq<Event>)
    decreases es
  {
    Tight(w.core) && (es != [] ==> TightThroughout(Step(w, es[0]), es[1..]))
  }

  ghost predicate NeverLeaks(w: World, es: seq<Event>)
    decreases es
  {
    es != [] ==> !Leaks(w, es[0]) && NeverLeaks(Step(w, es[0]), es[1..])
  }

  lemma {:induction false} TightThroughoutIff(w: World, es: seq<Event>)
    requires Inv(w) && IsRun(w, es) && Tight(w.core)
    ensures TightThroughout(w, es) <==> NeverLeaks(w, es)
    decreases es
  {
    hide Inv, Enabled, Step, Leaks, Tight;
    if es != [] {
      var v := Step(w, es[0]);
      StaysTightIff(w, es[0]);
      StepKeepsInv(w, es[0]);
      if Tight(v.core) {
        TightThroughoutIff(v, es[1..]);
      }
    }
  }

  // Over every run from an empty Deck: the registry holds live tiles' ids and no other at every point,
  // exactly if no poll of the run wakes that way.
  lemma RegistryIsTightIff(scope: string, es: seq<Event>)
    requires IsRun(Empty(scope), es)
    ensures TightThroughout(Empty(scope), es) <==> NeverLeaks(Empty(scope), es)
  {
    TightThroughoutIff(Empty(scope), es);
  }

  // ----- it happens -----

  // A tile is created, crashes, and is restarted under another id.
  function Created(scope: string, id: string, cwd: string, first: string): World {
    World(Core([Def(id, cwd, first)], map[id := Running], map[id := 0], 1, map[0 := scope], {first},
               {Poll(id, first, {})}, scope),
          map[first := 0], map[0 := id], {id}, {first})
  }

  function Crashed(scope: string, id: string, cwd: string, first: string): World {
    var c := Created(scope, id, cwd, first);
    c.(core := c.core.(runtime := map[id := Exited], procs := map[], open := {}))
  }

  function Restarted(scope: string, id: string, cwd: string, first: string, second: string): World {
    World(Core([Def(id, cwd, second)], map[id := Running], map[id := 1], 2, map[0 := scope, 1 := scope], {second},
               {Poll(id, first, {}), Poll(id, second, {})}, scope),
          map[first := 0, second := 1], map[0 := id, 1 := id], {id}, {first, second})
  }

  function Announced(scope: string, id: string, cwd: string): World {
    World(Core([Def(id, cwd, "")], map[id := Starting], map[], 0, map[], {}, {}, scope), map[], map[], {id}, {})
  }

  lemma CreateRun(scope: string, id: string, cwd: string, first: string)
    requires first != ""
    ensures var e := Event.Create(id, cwd, first, {});
            Enabled(Empty(scope), e) && Step(Empty(scope), e) == Created(scope, id, cwd, first)
  {
    assert WithNew(Empty(scope), id, cwd) == Announced(scope, id, cwd);
    AnnouncedSpawns(scope, id, cwd, first);
  }

  lemma AnnouncedSpawns(scope: string, id: string, cwd: string, first: string)
    requires first != ""
    ensures Spawn(Announced(scope, id, cwd), id, Fresh, first, {}) == Created(scope, id, cwd, first)
  {
    hide Launch, StartPty, SpawnSession;
    var v := Announced(scope, id, cwd);
    assert v.core.defs[0] in v.core.defs && IdsUnder({}, cwd) == {};
    SpawnShape(v.core, id, Fresh, first, {});
    assert WithSession(v.core.defs, id, first) == [Def(id, cwd, first)];
  }

  lemma CrashRun(scope: string, id: string, cwd: string, first: string)
    requires first != ""
    ensures var w, e := Created(scope, id, cwd, first), Event.ProcExit(id, 0, 1);
            Enabled(w, e) && Step(w, e) == Crashed(scope, id, cwd, first)
  {
    var w := Created(scope, id, cwd, first);
    assert w.core.defs[0] in w.core.defs;
    assert w.core.procs - {id} == map[] && {first} - {first} == {};
  }

  lemma RestartRun(scope: string, id: string, cwd: string, first: string, second: string)
    requires first != "" && second != "" && first != second
    ensures var w, e := Crashed(scope, id, cwd, first), Event.Restart(id, second, {});
            Enabled(w, e) && Step(w, e) == Restarted(scope, id, cwd, first, second)
  {
    CrashedRespawns(scope, id, cwd, first, second);
  }

  lemma CrashedRespawns(scope: string, id: string, cwd: string, first: string, second: string)
    requires first != "" && second != "" && first != second
    ensures Spawn(Crashed(scope, id, cwd, first), id, Resume, second, {}) == Restarted(scope, id, cwd, first, second)
  {
    hide Launch, StartPty, SpawnSession;
    var w := Crashed(scope, id, cwd, first);
    assert w.core.defs[0] in w.core.defs && IdsUnder({}, cwd) == {};
    SpawnShape(w.core, id, Resume, second, {});
    assert WithSession(w.core.defs, id, second) == [Def(id, cwd, second)];
  }

  lemma LateWake(scope: string, id: string, cwd: string, first: string, second: string, found: string)
    requires first != "" && second != "" && found != "" && first != second && found != first && found != second
    ensures var w, e := Restarted(scope, id, cwd, first, second), Event.Wake(Poll(id, first, {}), Some(found), []);
            && Enabled(w, e) && second in Step(w, e).core.open
            && forall d :: d in Step(w, e).core.defs ==> d.sessionId == found
  {
    var w, p := Restarted(scope, id, cwd, first, second), Poll(id, first, {});
    assert w.core.defs[0] in w.core.defs;
    assert WithSession(w.core.defs, id, found) == [Def(id, cwd, found)];
  }

  // The first spawn's poll wakes after all and adopts an id: the second one stays registered, and no
  // tile has it.
  lemma LeftoverPollLeaks(scope: string, id: string, cwd: string, first: string, second: string, found: string)
    requires first != "" && second != "" && found != "" && first != second && found != first && found != second
    ensures var es := [Event.Create(id, cwd, first, {}), Event.ProcExit(id, 0, 1), Event.Restart(id, second, {}),
                       Event.Wake(Poll(id, first, {}), Some(found), [])];
            && IsRun(Empty(scope), es)
            && var c := After(Empty(scope), es).core;
               second in c.open && forall d :: d in c.defs ==> d.sessionId == found
  {
    hide Step, Enabled;
    var e1, e2, e3 := Event.Create(id, cwd, first, {}), Event.ProcExit(id, 0, 1), Event.Restart(id, second, {});
    var e4 := Event.Wake(Poll(id, first, {}), Some(found), []);
    CreateRun(scope, id, cwd, first);
    CrashRun(scope, id, cwd, first);
    RestartRun(scope, id, cwd, first, second);
    LateWake(scope, id, cwd, first, second, found);
    RunCons(Restarted(scope, id, cwd, first, second), e4, []);
    RunCons(Crashed(scope, id, cwd, first), e3, [e4] + []);
    RunCons(Created(scope, id, cwd, first), e2, [e3] + ([e4] + []));
    RunCons(Empty(scope), e1, [e2] + ([e3] + ([e4] + [])));
    assert [e1, e2, e3, e4] == [e1] + ([e2] + ([e3] + ([e4] + [])));
  }

  lemma RunCons(w: World, e: Event, rest: seq<Event>)
    requires Enabled(w, e) && IsRun(Step(w, e), rest)
    ensures IsRun(w, [e] + rest) && After(w, [e] + rest) == After(Step(w, e), rest)
  {
    assert ([e] + rest)[1..] == rest;
  }
}
