// The Deck's session set as transitions on one value: the tile list, the per-tile runtime, the live
// terminals, the registry of open session ids and the discovery polls still asleep.
module SessionCore {
  import opened Options
  import Reorder

  datatype Def = Def(id: string, cwd: string, sessionId: string)

  datatype Status = Starting | Running | Exited

  datatype Mode = Fresh | Resume

  datatype Transcript = Transcript(cwd: string, id: string)

  // A discoverRealId suspended between two looks.
  datatype Poll = Poll(id: string, placeholder: string, before: set<string>)

  datatype Entry = Entry(id: string, mtime: int)

  // procs maps a tile to its current process; processes are numbered as they are spawned, and envs
  // remembers the scope each was given.
  datatype Core = Core(
    defs: seq<Def>,
    runtime: map<string, Status>,
    procs: map<string, nat>,
    spawned: nat,
    envs: map<nat, string>,
    open: set<string>,
    polls: set<Poll>,
    scope: string)

  function IdOf(d: Def): string { d.id }

  function Ids(defs: seq<Def>): seq<string> { Reorder.Ids(defs, IdOf) }

  function IdSet(defs: seq<Def>): set<string> { Reorder.IdSet(defs, IdOf) }

  predicate HasTile(defs: seq<Def>, id: string) {
    exists d | d in defs :: d.id == id
  }

  // defs.find(d => d.id === id)
  function TileOf(defs: seq<Def>, id: string): (d: Def)
    requires HasTile(defs, id)
    ensures d in defs && d.id == id
  {
    if defs[0].id == id then defs[0] else TileOf(defs[1..], id)
  }

  function WithSession(defs: seq<Def>, id: string, sid: string): (r: seq<Def>)
    ensures |r| == |defs|
    ensures forall i :: 0 <= i < |defs| ==> r[i] == if defs[i].id == id then defs[i].(sessionId := sid) else defs[i]
  {
    seq(|defs|, i requires 0 <= i < |defs| => if defs[i].id == id then defs[i].(sessionId := sid) else defs[i])
  }

  function Dropped(defs: seq<Def>, id: string): seq<Def> {
    if defs == [] then [] else if defs[0].id == id then Dropped(defs[1..], id) else [defs[0]] + Dropped(defs[1..], id)
  }

  predicate TranscriptExists(ts: set<Transcript>, cwd: string, id: string) {
    id != "" && Transcript(cwd, id) in ts
  }

  function IdsUnder(ts: set<Transcript>, cwd: string): set<string> {
    set t | t in ts && t.cwd == cwd :: t.id
  }

  // ----- session-transcript.ts -----

  function Fresher(a: Option<Entry>, b: Entry): Option<Entry> {
    if a.Some? && a.value.mtime >= b.mtime then a else Some(b)
  }

  // The newest entry seen neither before the spawn nor in another session; of equals, the first listed.
  function Newest(entries: seq<Entry>, before: set<string>, claimed: set<string>): Option<Entry> {
    if entries == [] then None
    else
      var last := entries[|entries| - 1];
      var rest := Newest(entries[..|entries| - 1], before, claimed);
      if last.id !in before && last.id !in claimed then Fresher(rest, last) else rest
  }

  function PickDiscoveredId(entries: seq<Entry>, before: set<string>, claimed: set<string>): Option<string> {
    match Newest(entries, before, claimed)
    case None => None
    case Some(e) => Some(e.id)
  }

  predicate Qualifies(e: Entry, before: set<string>, claimed: set<string>) {
    e.id !in before && e.id !in claimed
  }

  // What filtering, sorting newest first with a stable sort and taking the head gives: the entry
  // qualifies, none that does is newer, those listed before it are older, and there is one whenever
  // any qualifies.
  lemma {:induction false} NewestIs(entries: seq<Entry>, before: set<string>, claimed: set<string>) returns (at: nat)
    ensures var r := Newest(entries, before, claimed);
            && (r.None? ==> forall e :: e in entries ==> !Qualifies(e, before, claimed))
            && (r.Some? ==> at < |entries| && entries[at] == r.value && Qualifies(r.value, before, claimed))
            && (r.Some? ==> forall e :: e in entries && Qualifies(e, before, claimed) ==> e.mtime <= r.value.mtime)
            && (r.Some? ==> forall e :: e in entries[..at] && Qualifies(e, before, claimed) ==> e.mtime < r.value.mtime)
  {
    at := 0;
    if entries != [] {
      var p, last := entries[..|entries| - 1], entries[|entries| - 1];
      assert entries == p + [last];
      at := NewestIs(p, before, claimed);
      if Newest(entries, before, claimed) != Newest(p, before, claimed) {
        at := |p|;
      }
    }
  }

  // ----- transitions -----

  function ReleaseId(open: set<string>, sid: string): set<string> {
    if sid == "" then open else open - {sid}
  }

  function StartPty(c: Core, id: string, mode: Mode, minted: string): Core
    requires HasTile(c.defs, id)
  {
    var old' := TileOf(c.defs, id).sessionId;
    var sid := if (mode == Resume && old' != "") || old' == "" then minted else old';
    c.(defs := WithSession(c.defs, id, sid),
       open := c.open + {sid},
       runtime := if id in c.runtime then c.runtime[id := Running] else c.runtime,
       procs := c.procs[id := c.spawned],
       envs := c.envs[c.spawned := c.scope],
       spawned := c.spawned + 1)
  }

  // The spawn, and the poll left behind.
  function Launch(c: Core, id: string, mode: Mode, minted: string, before: set<string>): Core
    requires HasTile(c.defs, id)
  {
    var c1 := StartPty(c, id, mode, minted);
    SessionUpdateKeepsTiles(c.defs, id, TileOf(c.defs, id).sessionId);
    SessionUpdateKeepsTiles(c.defs, id, minted);
    c1.(polls := c1.polls + {Poll(id, TileOf(c1.defs, id).sessionId, before)})
  }

  // The double-resume guard and the downgrade to a fresh launch.
  function SpawnSession(c: Core, id: string, mode: Mode, minted: string, ts: set<Transcript>): Core
    requires HasTile(c.defs, id)
  {
    var d := TileOf(c.defs, id);
    SessionUpdateKeepsTiles(c.defs, id, "");
    if id !in c.runtime || (mode == Resume && d.sessionId != "" && d.sessionId in c.open) then c
    else if mode == Resume && !TranscriptExists(ts, d.cwd, d.sessionId)
    then Launch(c.(defs := WithSession(c.defs, id, "")), id, Fresh, minted, IdsUnder(ts, d.cwd))
    else Launch(c, id, mode, minted, IdsUnder(ts, d.cwd))
  }

  lemma SessionUpdateKeepsTiles(defs: seq<Def>, id: string, sid: string)
    ensures forall x :: HasTile(WithSession(defs, id, sid), x) <==> HasTile(defs, x)
    ensures Ids(WithSession(defs, id, sid)) == Ids(defs)
  {
    var r := WithSession(defs, id, sid);
    forall x ensures HasTile(r, x) <==> HasTile(defs, x) {
      if HasTile(r, x) {
        var i :| 0 <= i < |r| && r[i].id == x;
        assert defs[i] in defs && defs[i].id == x;
      }
      if HasTile(defs, x) {
        var i :| 0 <= i < |defs| && defs[i].id == x;
        assert r[i] in r && r[i].id == x;
      }
    }
  }

  function Create(c: Core, id: string, cwd: string, minted: string, ts: set<Transcript>): Core {
    var c1 := c.(defs := c.defs + [Def(id, cwd, "")], runtime := c.runtime[id := Starting]);
    assert c1.defs[|c.defs|] in c1.defs;
    SpawnSession(c1, id, Fresh, minted, ts)
  }

  function Remove(c: Core, id: string): Core {
    var open := if HasTile(c.defs, id) then ReleaseId(c.open, TileOf(c.defs, id).sessionId) else c.open;
    c.(open := open, procs := c.procs - {id}, defs := Dropped(c.defs, id), runtime := c.runtime - {id})
  }

  function ReleaseAll(open: set<string>, defs: seq<Def>): set<string> {
    if defs == [] then open else ReleaseAll(ReleaseId(open, defs[0].sessionId), defs[1..])
  }

  function CloseAll(c: Core): Core {
    if c.defs == [] then c
    else c.(open := ReleaseAll(c.open, c.defs), procs := map[], defs := [], runtime := map[])
  }

  // The tear-down half of a restore: nothing of the new set runs yet.
  function Replace(c: Core, defs: seq<Def>): Core {
    c.(open := ReleaseAll(c.open, c.defs), procs := map[], defs := defs,
       runtime := map id | id in IdSet(defs) :: Exited)
  }

  function SpawnEach(c: Core, ids: seq<string>, mints: seq<string>, ts: set<Transcript>): Core
    requires |ids| == |mints|
    decreases ids
  {
    if ids == [] then c
    else
      var next := if HasTile(c.defs, ids[0]) then SpawnSession(c, ids[0], Resume, mints[0], ts) else c;
      SpawnEach(next, ids[1..], mints[1..], ts)
  }

  function RestoreFrom(c: Core, defs: seq<Def>, mints: seq<string>, ts: set<Transcript>): Core
    requires |mints| == |defs|
  {
    SpawnEach(Replace(c, defs), Ids(defs), mints, ts)
  }

  function Restart(c: Core, id: string, minted: string, ts: set<Transcript>): Core {
    if HasTile(c.defs, id) then SpawnSession(c, id, Resume, minted, ts) else c
  }

  function Adopt(c: Core, id: string, placeholder: string, realId: string): Core {
    c.(open := c.open - {placeholder} + {realId}, defs := WithSession(c.defs, id, realId))
  }

  // What one look of a poll finds: the back-channel's id first, else the newest unclaimed transcript.
  function Found(c: Core, p: Poll, back: Option<string>, entries: seq<Entry>): Option<string>
    requires HasTile(c.defs, p.id)
  {
    var mine := TileOf(c.defs, p.id).sessionId;
    if back.Some? && back.value != "" && back.value != mine then back
    else
      var pick := PickDiscoveredId(entries, p.before, c.open - {p.placeholder});
      if pick.Some? && pick.value != "" && pick.value != mine then pick else None
  }

  function Wake(c: Core, p: Poll, back: Option<string>, entries: seq<Entry>): Core {
    if p !in c.polls then c
    else if p.id !in c.procs || !HasTile(c.defs, p.id) then c.(polls := c.polls - {p})
    else
      match Found(c, p, back, entries)
      case None => c
      case Some(realId) => Adopt(c.(polls := c.polls - {p}), p.id, p.placeholder, realId)
  }

  // Adoption at save time: a live tile whose back-channel names another, resumable id.
  predicate Rotated(c: Core, id: string, back: string, ts: set<Transcript>) {
    && HasTile(c.defs, id) && id in c.procs
    && back != "" && back != TileOf(c.defs, id).sessionId && TranscriptExists(ts, TileOf(c.defs, id).cwd, back)
  }

  function RefreshOne(c: Core, id: string, backs: map<string, string>, ts: set<Transcript>): Core {
    if id in backs && Rotated(c, id, backs[id], ts)
    then Adopt(c, id, TileOf(c.defs, id).sessionId, backs[id]) else c
  }

  function RefreshAll(c: Core, ids: seq<string>, backs: map<string, string>, ts: set<Transcript>): Core
    decreases ids
  {
    if ids == [] then c else RefreshAll(RefreshOne(c, ids[0], backs, ts), ids[1..], backs, ts)
  }

  // A process ended. Only the process registered for the tile counts.
  predicate Emits(c: Core, id: string, proc: nat) {
    id in c.procs && c.procs[id] == proc
  }

  function ProcExit(c: Core, id: string, proc: nat, code: int): Core {
    if !Emits(c, id, proc) then c
    else
      var open := if HasTile(c.defs, id) then ReleaseId(c.open, TileOf(c.defs, id).sessionId) else c.open;
      var c1 := c.(procs := c.procs - {id}, open := open);
      if code == 0 then c1.(defs := Dropped(c1.defs, id), runtime := c1.runtime - {id})
      else if id in c1.runtime then c1.(runtime := c1.runtime[id := Exited])
      else c1
  }

  predicate HasLiveSessions(c: Core) {
    exists d | d in c.defs :: d.id in c.procs
  }

  function AdoptScope(c: Core, next: string): Core {
    if HasLiveSessions(c) then c else c.(scope := next)
  }
}
