// The broker's request handlers and timers, each as a plan: the SQL statements it issues, in order,
// and the reply it gives when none of them is refused.
module BrokerHandlers {
  import opened Options
  import opened Timestamps
  import opened BrokerDb
  import opened Ranking
  import JsText
  import DefaultId

  // The environment-variable settings, in milliseconds, and the broker's own host name.
  datatype Config = Config(
    host: string,
    activeStale: nat,
    dormantTtl: nat,
    messageTtl: nat,
    flushAge: nat,
    flushMax: nat,
    lower: string -> string)

  datatype RegisterRequest = RegisterRequest(
    pid: int,
    cwd: string,
    gitRoot: Option<string>,
    summary: string,
    host: string,
    projectKey: Option<string>,
    groupId: GroupId,
    secretHash: Option<Hash>)

  datatype Reply =
    | Ok
    | Failed(status: nat)
    | NotSent
    | Registered(peerId: string, token: Token)
    | Renamed(peerId: string, previous: string)
    | SentTo(count: nat)

  datatype Plan = Plan(stmts: seq<Stmt>, reply: Reply)

  // What the outside world decides comes with the event: randomUUID (`minted`), Date.now (`now`, and
  // `stamp` for the last-resort name), the live pids of the broker's host (`alive`), and the row
  // order of a query without ORDER BY (`targets`, `dead`, `expired`, and ties in `rows`).
  datatype Event =
    | Register(req: RegisterRequest, minted: Token, now: Instant, stamp: nat, alive: set<int>)
    | Heartbeat(token: Token, now: Instant)
    | SetSummary(token: Token, text: string)
    | Disconnect(token: Token, now: Instant)
    | Unregister(token: Token)
    | SetId(token: Token, name: string)
    | Send(from: Token, toId: string, text: string, now: Instant)
    | Announce(groupId: GroupId, secretHash: Option<Hash>, text: string, exclude: Option<string>,
               targets: seq<Token>, now: Instant)
    | Poll(token: Token, rows: seq<nat>)
    | Purge(now: Instant)
    | Clean(now: Instant, alive: set<int>, dead: seq<Token>, expired: seq<Token>)
    | Sweep(now: Instant)

  // ----- queries -----

  function TakenNames(db: Db, g: GroupId): set<string> {
    set t | t in db.peers && db.peers[t].groupId == g :: db.peers[t].peerId
  }

  function GroupRows(db: Db, g: GroupId): set<Token> {
    set t | t in db.peers && db.peers[t].groupId == g
  }

  predicate IsTarget(db: Db, t: Token, name: string, g: GroupId) {
    t in db.peers && db.peers[t].peerId == name && db.peers[t].groupId == g && db.peers[t].status == Active
  }

  function AnnounceTargets(db: Db, g: GroupId, exclude: Option<string>): set<Token> {
    set t | t in db.peers && db.peers[t].groupId == g && db.peers[t].status == Active && t != DECK_TOKEN
            && (exclude.None? || db.peers[t].peerId != exclude.value)
  }

  predicate IsPending(db: Db, id: nat) {
    id in db.messages && !db.messages[id].delivered
  }

  function PendingFor(db: Db, t: Token): set<nat> {
    set id | id in db.messages && db.messages[id].to == t && !db.messages[id].delivered
  }

  predicate SentNoLater(db: Db, a: nat, b: nat) {
    a in db.messages && b in db.messages && !TextLess(Iso(db.messages[b].sentAt), Iso(db.messages[a].sentAt))
  }

  // The order of sent_at, as text.
  function BySentAt(db: Db): (nat, nat) -> bool { (a: nat, b: nat) => SentNoLater(db, a, b) }

  // ORDER BY sent_at ASC; ties either way round.
  ghost predicate Ascending(db: Db, rows: seq<nat>) {
    (forall id :: id in rows ==> id in db.messages) && OrderedBy(BySentAt(db), rows)
  }

  // A possible result of selectUndelivered.
  ghost predicate IsBacklog(db: Db, t: Token, rows: seq<nat>) {
    Enumerates(rows, PendingFor(db, t)) && Ascending(db, rows)
  }

  function DeadPeers(cfg: Config, db: Db, alive: set<int>): set<Token> {
    set t | t in db.peers && db.peers[t].status == Active && db.peers[t].host == cfg.host && db.peers[t].pid !in alive
  }

  function ExpiredPeers(cfg: Config, db: Db, now: Instant): set<Token>
    requires cfg.dormantTtl <= now
  {
    set t | t in db.peers && db.peers[t].status == Dormant
            && BeforeCutoff(db.peers[t].lastSeen, now - cfg.dormantTtl) && t != DECK_TOKEN
  }

  // ----- plans -----

  predicate Authorised(db: Db, g: GroupId, hash: Option<Hash>) {
    g == DEFAULT_GROUP || g !in db.groups || db.groups[g] == hash
  }

  function RequestKey(req: RegisterRequest): Key { Key(req.host, req.cwd, req.groupId) }

  function NewName(cfg: Config, db: Db, req: RegisterRequest, stamp: nat): string {
    DefaultId.DeriveId(TakenNames(db, req.groupId), DefaultId.BaseId(cfg.lower, req.host, req.cwd), stamp)
  }

  function RowFor(req: RegisterRequest, name: string, now: Instant): Peer {
    Peer(name, req.groupId, req.pid, req.cwd, req.gitRoot, req.summary, now, Some(now),
         req.host, req.projectKey, Active)
  }

  // Marked active, but its process on this host is gone.
  predicate Crashed(cfg: Config, p: Peer, alive: set<int>) {
    p.status == Active && p.host == cfg.host && p.pid !in alive
  }

  function GroupStmts(db: Db, req: RegisterRequest): seq<Stmt> {
    if req.groupId != DEFAULT_GROUP && req.groupId !in db.groups
    then [InsertGroup(req.groupId, req.secretHash)] else []
  }

  function ResumeStmts(cfg: Config, req: RegisterRequest, t: Token, p: Peer, now: Instant, alive: set<int>): seq<Stmt> {
    (if Crashed(cfg, p, alive) then [SetDormant(t)] else [])
    + [Reactivate(t, RowFor(req, p.peerId, now))] + [UpsertSession(RequestKey(req), t)]
  }

  // Resume, collision or fresh registration; `name` is for a row that gets inserted.
  function PlanUnder(cfg: Config, db: Db, req: RegisterRequest, minted: Token, name: string, now: Instant,
                     alive: set<int>): Plan {
    var k := RequestKey(req);
    if k in db.sessions then
      var t := db.sessions[k].token;
      if t in db.peers then
        var p := db.peers[t];
        if p.status == Dormant || Crashed(cfg, p, alive) then
          Plan(ResumeStmts(cfg, req, t, p, now, alive), Registered(p.peerId, t))
        else
          Plan([InsertPeer(minted, RowFor(req, name, now))], Registered(name, minted))
      else
        Plan([InsertPeer(t, RowFor(req, name, now))] + [UpsertSession(k, t)], Registered(name, t))
    else
      Plan([InsertPeer(minted, RowFor(req, name, now))] + [UpsertSession(k, minted)], Registered(name, minted))
  }

  function IdentityPlan(cfg: Config, db: Db, req: RegisterRequest, minted: Token, now: Instant, stamp: nat,
                        alive: set<int>): Plan {
    PlanUnder(cfg, db, req, minted, NewName(cfg, db, req, stamp), now, alive)
  }

  function RegisterPlan(cfg: Config, db: Db, req: RegisterRequest, minted: Token, now: Instant, stamp: nat,
                        alive: set<int>): Plan {
    if !Authorised(db, req.groupId, req.secretHash) then Plan([], Failed(401))
    else
      var p := IdentityPlan(cfg, db, req, minted, now, stamp, alive);
      Plan(GroupStmts(db, req) + p.stmts, p.reply)
  }

  predicate ValidPeerId(s: string) {
    && 1 <= |s| <= 32
    && (forall i | 0 <= i < |s| :: DefaultId.IsSlugChar(s[i]))
    && DefaultId.IsAlnum(s[0]) && DefaultId.IsAlnum(s[|s| - 1])
  }

  predicate Reserved(s: string) { s in {DECK_PEER_ID, "system"} }

  function SetIdPlan(db: Db, t: Token, name: string): Plan {
    if !ValidPeerId(name) || Reserved(name) then Plan([], Failed(400))
    else if t !in db.peers then Plan([], Failed(404))
    else if db.peers[t].peerId == name then Plan([], Renamed(name, name))
    else if NameTaken(db, name, db.peers[t].groupId, t) then Plan([], Failed(409))
    else Plan([SetPeerId(t, name)], Renamed(name, db.peers[t].peerId))
  }

  function SendStmts(from: Token, to: Token, g: GroupId, text: string, now: Instant): seq<Stmt> {
    [InsertMessage(from, to, g, text, now)] + [SetActivity(from, now)] + [SetActivity(to, now)] +
      [AckPrior(from, g, now)]
  }

  ghost function SendPlan(db: Db, from: Token, toId: string, text: string, now: Instant): Plan {
    if from in db.peers && exists t :: IsTarget(db, t, toId, db.peers[from].groupId) then
      var to :| IsTarget(db, to, toId, db.peers[from].groupId);
      Plan(SendStmts(from, to, db.peers[from].groupId, text, now), Ok)
    else Plan([], NotSent)
  }

  function AnnounceStmts(targets: seq<Token>, g: GroupId, text: string, now: Instant): seq<Stmt> {
    if targets == [] then []
    else
      [InsertMessage(DECK_TOKEN, targets[0], g, text, now)]
      + ([SetActivity(targets[0], now)] + AnnounceStmts(targets[1..], g, text, now))
  }

  function AnnouncePlan(db: Db, g: GroupId, hash: Option<Hash>, text: string, targets: seq<Token>, now: Instant): Plan {
    if JsText.Trim(text) == [] then Plan([], SentTo(0))
    else if !Authorised(db, g, hash) then Plan([], Failed(401))
    else Plan(AnnounceStmts(targets, g, text, now), SentTo(|targets|))
  }

  function MarkStmts(rows: seq<nat>): seq<Stmt> {
    if rows == [] then [] else [MarkDelivered(rows[0])] + MarkStmts(rows[1..])
  }

  function EraseStmts(t: Token): seq<Stmt> {
    [DeleteMessagesOf(t)] + [DeleteSessionsOf(t)] + [DeletePeer(t)]
  }

  function EraseAllStmts(ts: seq<Token>): seq<Stmt> {
    if ts == [] then [] else EraseStmts(ts[0]) + EraseAllStmts(ts[1..])
  }

  function DemoteStmts(ts: seq<Token>): seq<Stmt> {
    if ts == [] then [] else [SetDormant(ts[0])] + DemoteStmts(ts[1..])
  }

  ghost function EventPlan(cfg: Config, db: Db, ev: Event): Plan
    requires ev.Purge? ==> cfg.messageTtl <= ev.now
    requires ev.Sweep? ==> cfg.activeStale <= ev.now
  {
    match ev
    case Register(req, minted, now, stamp, alive) => RegisterPlan(cfg, db, req, minted, now, stamp, alive)
    case Heartbeat(t, now) => Plan([SetLastSeen(t, now)], Ok)
    case SetSummary(t, text) => Plan([UpdateSummary(t, text)], Ok)
    case Disconnect(t, now) => Plan([DemoteAt(t, now)], Ok)
    case Unregister(t) => Plan(EraseStmts(t), Ok)
    case SetId(t, name) => SetIdPlan(db, t, name)
    case Send(from, toId, text, now) => SendPlan(db, from, toId, text, now)
    case Announce(g, hash, text, _, targets, now) => AnnouncePlan(db, g, hash, text, targets, now)
    case Poll(_, rows) => Plan(MarkStmts(rows), Ok)
    case Purge(now) => Plan([PurgeMessages(now - cfg.messageTtl)], Ok)
    case Clean(_, _, dead, expired) => Plan(DemoteStmts(dead) + EraseAllStmts(expired), Ok)
    case Sweep(now) => Plan([SweepDormant(now - cfg.activeStale)], Ok)
  }

  // The clock readings an event carries.
  predicate Timed(ev: Event) {
    !(ev.SetSummary? || ev.Unregister? || ev.SetId? || ev.Poll?)
  }

  // What the outside world guarantees: minted tokens are new, dates have four-digit years and reach
  // back far enough for the cutoffs, and query results are results of those queries.
  ghost predicate Enabled(cfg: Config, db: Db, ev: Event) {
    && (Timed(ev) ==> Printable(ev.now))
    && (match ev
        case Register(_, minted, _, _, _) => minted !in db.issued
        case Announce(g, _, _, exclude, targets, _) => Enumerates(targets, AnnounceTargets(db, g, exclude))
        case Poll(t, rows) => IsBacklog(db, t, rows)
        case Purge(now) => cfg.messageTtl <= now
        case Sweep(now) => cfg.activeStale <= now
        case Clean(now, alive, dead, expired) =>
          && cfg.dormantTtl <= now
          && Enumerates(dead, DeadPeers(cfg, db, alive))
          && Enumerates(expired, ExpiredPeers(cfg, Exec(db, DemoteStmts(dead)).db, now))
        case _ => true)
  }

  ghost function Next(cfg: Config, db: Db, ev: Event): Db
    requires Enabled(cfg, db, ev)
  {
    Exec(db, EventPlan(cfg, db, ev).stmts).db
  }

  // A refused statement surfaces as HTTP 500.
  ghost function ReplyTo(cfg: Config, db: Db, ev: Event): Reply
    requires Enabled(cfg, db, ev)
  {
    var p := EventPlan(cfg, db, ev);
    if Exec(db, p.stmts).ok then p.reply else Failed(500)
  }

  // Every state of the tables during the event, between any two statements.
  ghost function During(cfg: Config, db: Db, ev: Event): seq<Db>
    requires Enabled(cfg, db, ev)
  {
    States(db, EventPlan(cfg, db, ev).stmts)
  }

  // ----- whole runs -----

  ghost predicate IsRun(cfg: Config, db: Db, evs: seq<Event>)
    decreases evs
  {
    evs == [] || (Enabled(cfg, db, evs[0]) && IsRun(cfg, Next(cfg, db, evs[0]), evs[1..]))
  }

  ghost function After(cfg: Config, db: Db, evs: seq<Event>): Db
    requires IsRun(cfg, db, evs)
    decreases evs
  {
    if evs == [] then db else After(cfg, Next(cfg, db, evs[0]), evs[1..])
  }

  // ----- when a statement is refused -----

  // The row a registration would insert is new, and its derived name is taken all the same.
  ghost predicate NamesExhausted(cfg: Config, db: Db, req: RegisterRequest, stamp: nat, alive: set<int>) {
    var k := RequestKey(req);
    var base := DefaultId.BaseId(cfg.lower, req.host, req.cwd);
    && Authorised(db, req.groupId, req.secretHash)
    && (k in db.sessions && db.sessions[k].token in db.peers ==>
          var p := db.peers[db.sessions[k].token]; p.status == Active && !Crashed(cfg, p, alive))
    && DefaultId.AllTaken(TakenNames(db, req.groupId), base)
    && DefaultId.Fallback(base, stamp) in TakenNames(db, req.groupId)
  }

  // The two ways a constraint can be hit at all.
  ghost predicate Refusable(cfg: Config, db: Db, ev: Event) {
    match ev
    case Register(req, _, _, stamp, alive) => NamesExhausted(cfg, db, req, stamp, alive)
    case Announce(g, hash, text, _, targets, _) =>
      JsText.Trim(text) != [] && Authorised(db, g, hash) && targets != [] && DECK_TOKEN !in db.peers
    case _ => false
  }

  lemma TakenIffNameTaken(db: Db, name: string, g: GroupId, t: Token)
    requires t !in db.peers
    ensures NameTaken(db, name, g, t) <==> name in TakenNames(db, g)
  {
  }

  lemma SessionResolves(db: Db, k: Key)
    requires Inv(db) && k in db.sessions
    ensures SessionOk(db, k)
  {
  }

  // The statements that insert a new row, and usually its session.
  lemma InsertionGuarded(db: Db, t: Token, row: Peer, tail: seq<Stmt>)
    requires Inv(db) && t !in db.issued && t != DECK_TOKEN && row.groupId in db.groups
    requires tail == [] || tail == [UpsertSession(KeyOf(row), t)]
    ensures Guarded(db, [InsertPeer(t, row)] + tail)
    ensures Exec(db, [InsertPeer(t, row)] + tail).ok <==> row.peerId !in TakenNames(db, row.groupId)
  {
    AllIssued(db);
    var s := InsertPeer(t, row);
    TakenIffNameTaken(db, row.peerId, row.groupId, t);
    Unfold(db, s, tail);
    if tail != [] {
      Unfold(Apply(db, s), tail[0], []);
      assert tail == [tail[0]] + [];
    }
  }

  // The resume proper, once a crashed row is dormant.
  lemma ReactivationGuarded(db: Db, t: Token, row: Peer)
    requires Inv(db) && t in db.peers && t != DECK_TOKEN && KeyOf(row) == KeyOf(db.peers[t])
    ensures var stmts := [Reactivate(t, row)] + [UpsertSession(KeyOf(row), t)];
            Guarded(db, stmts) && Exec(db, stmts).ok
  {
    var a, b := Reactivate(t, row), UpsertSession(KeyOf(row), t);
    Unfold(db, a, [b]);
    Unfold(Apply(db, a), b, []);
    assert [b] == [b] + [];
  }

  lemma RowStays(db: Db, s: Stmt, t: Token)
    requires t in db.peers && (s.SetDormant? || s.Reactivate?)
    ensures t in Apply(db, s).peers
    ensures s.SetDormant? ==> KeyOf(Apply(db, s).peers[t]) == KeyOf(db.peers[t])
  {
  }

  // A crashed holder is set dormant first.
  lemma ResumeStmtsAre(cfg: Config, req: RegisterRequest, t: Token, p: Peer, now: Instant, alive: set<int>)
    ensures var rest := [Reactivate(t, RowFor(req, p.peerId, now))] + [UpsertSession(RequestKey(req), t)];
            ResumeStmts(cfg, req, t, p, now, alive) == if Crashed(cfg, p, alive) then [SetDormant(t)] + rest else rest
  {
    var rest := [Reactivate(t, RowFor(req, p.peerId, now))] + [UpsertSession(RequestKey(req), t)];
    assert [] + [Reactivate(t, RowFor(req, p.peerId, now))] + [UpsertSession(RequestKey(req), t)] == rest;
    assert [SetDormant(t)] + [Reactivate(t, RowFor(req, p.peerId, now))] + [UpsertSession(RequestKey(req), t)]
        == [SetDormant(t)] + rest;
  }

  lemma ResumeGuarded(cfg: Config, db: Db, req: RegisterRequest, now: Instant, alive: set<int>)
    requires Inv(db) && RequestKey(req) in db.sessions
    ensures var t := db.sessions[RequestKey(req)].token;
            && t in db.peers
            && Guarded(db, ResumeStmts(cfg, req, t, db.peers[t], now, alive))
            && Exec(db, ResumeStmts(cfg, req, t, db.peers[t], now, alive)).ok
  {
    var k := RequestKey(req);
    SessionResolves(db, k);
    var t := db.sessions[k].token;
    var p := db.peers[t];
    var row := RowFor(req, p.peerId, now);
    var rest := [Reactivate(t, row)] + [UpsertSession(k, t)];
    assert KeyOf(row) == k;
    RowStays(db, SetDormant(t), t);
    hide Apply, Inv, ResumeStmts, Exec;
    ResumeStmtsAre(cfg, req, t, p, now, alive);
    if Crashed(cfg, p, alive) {
      SafeKeepsInv(db, SetDormant(t));
      ReactivationGuarded(Apply(db, SetDormant(t)), t, row);
      Unfold(db, SetDormant(t), rest);
    } else {
      ReactivationGuarded(db, t, row);
    }
  }

  predicate Resumes(cfg: Config, db: Db, req: RegisterRequest, alive: set<int>) {
    var k := RequestKey(req);
    k in db.sessions && db.sessions[k].token in db.peers &&
    var p := db.peers[db.sessions[k].token]; p.status == Dormant || Crashed(cfg, p, alive)
  }

  lemma IdentityGuarded(cfg: Config, db: Db, req: RegisterRequest, minted: Token, now: Instant, stamp: nat,
                        alive: set<int>)
    requires Inv(db) && minted !in db.issued && req.groupId in db.groups
    requires Authorised(db, req.groupId, req.secretHash)
    ensures var p := IdentityPlan(cfg, db, req, minted, now, stamp, alive);
            && Guarded(db, p.stmts)
            && (Exec(db, p.stmts).ok <==> !NamesExhausted(cfg, db, req, stamp, alive))
  {
    if RequestKey(req) in db.sessions {
      SessionResolves(db, RequestKey(req));
    }
    if Resumes(cfg, db, req, alive) {
      ResumeGuarded(cfg, db, req, now, alive);
    } else {
      NameTakenIffExhausted(cfg, db, req, stamp);
      NewRowGuarded(db, req, minted, NewName(cfg, db, req, stamp), now);
    }
  }

  lemma NewRowGuarded(db: Db, req: RegisterRequest, minted: Token, name: string, now: Instant)
    requires Inv(db) && minted !in db.issued && req.groupId in db.groups
    ensures var insert, upsert := InsertPeer(minted, RowFor(req, name, now)), UpsertSession(RequestKey(req), minted);
            && Guarded(db, [insert]) && Guarded(db, [insert] + [upsert])
            && (Exec(db, [insert]).ok <==> name !in TakenNames(db, req.groupId))
            && (Exec(db, [insert] + [upsert]).ok <==> name !in TakenNames(db, req.groupId))
  {
    var row := RowFor(req, name, now);
    assert KeyOf(row) == RequestKey(req);
    InsertionGuarded(db, minted, row, []);
    assert [InsertPeer(minted, row)] + [] == [InsertPeer(minted, row)];
    InsertionGuarded(db, minted, row, [UpsertSession(RequestKey(req), minted)]);
  }

  lemma NameTakenIffExhausted(cfg: Config, db: Db, req: RegisterRequest, stamp: nat)
    ensures var base := DefaultId.BaseId(cfg.lower, req.host, req.cwd);
            var taken := TakenNames(db, req.groupId);
            (NewName(cfg, db, req, stamp) in taken) <==>
              (DefaultId.AllTaken(taken, base) && DefaultId.Fallback(base, stamp) in taken)
  {
    DefaultId.DerivedIdTakenIff(TakenNames(db, req.groupId), DefaultId.BaseId(cfg.lower, req.host, req.cwd), stamp);
  }

  // Planting a group changes nothing a registration reads afterwards.
  lemma GroupStmtsFrame(cfg: Config, db: Db, req: RegisterRequest, minted: Token, now: Instant, stamp: nat,
                        alive: set<int>)
    requires Inv(db) && Authorised(db, req.groupId, req.secretHash)
    ensures var e := Exec(db, GroupStmts(db, req));
            && e.ok && Guarded(db, GroupStmts(db, req)) && Inv(e.db)
            && e.db == db.(groups := e.db.groups) && req.groupId in e.db.groups
            && (req.groupId != DEFAULT_GROUP ==> e.db.groups[req.groupId] == req.secretHash)
            && (forall g :: g in db.groups ==> g in e.db.groups && e.db.groups[g] == db.groups[g])
            && Authorised(e.db, req.groupId, req.secretHash)
            && IdentityPlan(cfg, e.db, req, minted, now, stamp, alive) ==
              IdentityPlan(cfg, db, req, minted, now, stamp, alive)
            && (NamesExhausted(cfg, e.db, req, stamp, alive) <==> NamesExhausted(cfg, db, req, stamp, alive))
  {
    hide TextLess, Iso, Sql;
    if req.groupId != DEFAULT_GROUP && req.groupId !in db.groups {
      var s := InsertGroup(req.groupId, req.secretHash);
      Unfold(db, s, []);
      assert GroupStmts(db, req) == [s] + [];
      SafeKeepsInv(db, s);
      assert TakenNames(Apply(db, s), req.groupId) == TakenNames(db, req.groupId);
    }
  }

  // The kinds of statement a registration issues; rows are stamped with its own clock reading.
  predicate IsRegisterStmt(s: Stmt, now: Instant) {
    || s.InsertGroup? || s.SetDormant? || s.UpsertSession?
    || (s.InsertPeer? && s.peer.lastSeen == now) || (s.Reactivate? && s.row.lastSeen == now)
  }

  predicate AreRegisterStmts(ss: seq<Stmt>, now: Instant) {
    forall s | s in ss :: IsRegisterStmt(s, now)
  }

  lemma ResumeKinds(cfg: Config, req: RegisterRequest, t: Token, p: Peer, now: Instant, alive: set<int>)
    ensures AreRegisterStmts(ResumeStmts(cfg, req, t, p, now, alive), now)
  {
  }

  lemma NewRowKinds(req: RegisterRequest, t: Token, name: string, now: Instant)
    ensures AreRegisterStmts([InsertPeer(t, RowFor(req, name, now))], now)
    ensures AreRegisterStmts([InsertPeer(t, RowFor(req, name, now))] + [UpsertSession(RequestKey(req), t)], now)
  {
  }

  lemma IdentityKinds(cfg: Config, db: Db, req: RegisterRequest, minted: Token, name: string, now: Instant,
                      alive: set<int>)
    ensures AreRegisterStmts(PlanUnder(cfg, db, req, minted, name, now, alive).stmts, now)
  {
    var k := RequestKey(req);
    NewRowKinds(req, minted, name, now);
    if k in db.sessions {
      var t := db.sessions[k].token;
      NewRowKinds(req, t, name, now);
      if t in db.peers {
        ResumeKinds(cfg, req, t, db.peers[t], now, alive);
      }
    }
  }

  lemma RegisterKinds(cfg: Config, db: Db, req: RegisterRequest, minted: Token, now: Instant, stamp: nat,
                      alive: set<int>)
    ensures AreRegisterStmts(RegisterPlan(cfg, db, req, minted, now, stamp, alive).stmts, now)
  {
    if Authorised(db, req.groupId, req.secretHash) {
      IdentityKinds(cfg, db, req, minted, NewName(cfg, db, req, stamp), now, alive);
      KindsAppend(GroupStmts(db, req), IdentityPlan(cfg, db, req, minted, now, stamp, alive).stmts, now);
    }
  }

  lemma KindsAppend(a: seq<Stmt>, b: seq<Stmt>, now: Instant)
    requires AreRegisterStmts(a, now) && AreRegisterStmts(b, now)
    ensures AreRegisterStmts(a + b, now)
  {
  }

  lemma RegisterGuarded(cfg: Config, db: Db, req: RegisterRequest, minted: Token, now: Instant, stamp: nat,
                        alive: set<int>)
    requires Inv(db) && minted !in db.issued
    ensures var p := RegisterPlan(cfg, db, req, minted, now, stamp, alive);
            && Guarded(db, p.stmts)
            && (Exec(db, p.stmts).ok <==> !NamesExhausted(cfg, db, req, stamp, alive))
  {
    if Authorised(db, req.groupId, req.secretHash) {
      GroupStmtsFrame(cfg, db, req, minted, now, stamp, alive);
      var gs := GroupStmts(db, req);
      var e := Exec(db, gs).db;
      var p := IdentityPlan(cfg, db, req, minted, now, stamp, alive);
      IdentityGuarded(cfg, e, req, minted, now, stamp, alive);
      GuardedAppend(db, gs, p.stmts);
      ExecAppend(db, gs, p.stmts);
    }
  }

  // The state a send leaves, and the states on the way.
  lemma SendRuns(db: Db, from: Token, to: Token, g: GroupId, text: string, now: Instant)
    requires from in db.peers && to in db.peers
    ensures var d1 := Apply(db, InsertMessage(from, to, g, text, now));
            var d2 := Apply(d1, SetActivity(from, now));
            var d3 := Apply(d2, SetActivity(to, now));
            && Exec(db, SendStmts(from, to, g, text, now)) == Outcome(Apply(d3, AckPrior(from, g, now)), true)
            && (Guarded(db, SendStmts(from, to, g, text, now)) <==> Safe(db, InsertMessage(from, to, g, text, now)))
  {
    hide TextLess, Iso, Sql;
    var a, b, c, d := InsertMessage(from, to, g, text, now), SetActivity(from, now), SetActivity(to, now),
        AckPrior(from, g, now);
    var d1 := Apply(db, a);
    var d2 := Apply(d1, b);
    Unfold(db, a, [b] + [c] + [d]);
    Unfold(d1, b, [c] + [d]);
    Unfold(d2, c, [d]);
    Unfold(Apply(d2, c), d, []);
    assert [d] == [d] + [];
    assert [b] + [c] + [d] == [b] + ([c] + [d]);
    assert SendStmts(from, to, g, text, now) == [a] + ([b] + [c] + [d]);
  }

  lemma SendGuarded(db: Db, from: Token, to: Token, toId: string, text: string, now: Instant)
    requires Inv(db) && from in db.peers && IsTarget(db, to, toId, db.peers[from].groupId)
    ensures Guarded(db, SendStmts(from, to, db.peers[from].groupId, text, now))
    ensures Exec(db, SendStmts(from, to, db.peers[from].groupId, text, now)).ok
  {
    assert PeerOk(db, to);
    SendRuns(db, from, to, db.peers[from].groupId, text, now);
  }

  predicate AreMembers(db: Db, ts: seq<Token>, g: GroupId) {
    forall t | t in ts :: t in db.peers && t != DECK_TOKEN && db.peers[t].groupId == g
  }

  // One announcement written: the others are still members.
  lemma AnnounceOne(db: Db, t: Token, rest: seq<Token>, g: GroupId, text: string, now: Instant)
    requires Inv(db) && DECK_TOKEN in db.peers && AreMembers(db, [t] + rest, g)
    ensures var a, b := InsertMessage(DECK_TOKEN, t, g, text, now), SetActivity(t, now);
            var d := Apply(Apply(db, a), b);
            && Safe(db, a) && Accepts(db, a)
            && Inv(d) && DECK_TOKEN in d.peers && AreMembers(d, rest, g)
  {
    hide TextLess, Iso, Sql;
    var a, b := InsertMessage(DECK_TOKEN, t, g, text, now), SetActivity(t, now);
    assert t in [t] + rest;
    SafeKeepsInv(db, a);
    SafeKeepsInv(Apply(db, a), b);
    RowUpdateKeepsGroups(Apply(db, a), b);
    assert forall u :: u in rest ==> u in [t] + rest;
  }

  lemma {:induction false} AnnounceGuarded(db: Db, targets: seq<Token>, g: GroupId, text: string, now: Instant)
    requires Inv(db) && AreMembers(db, targets, g)
    ensures Guarded(db, AnnounceStmts(targets, g, text, now))
    ensures Exec(db, AnnounceStmts(targets, g, text, now)).ok <==> targets == [] || DECK_TOKEN in db.peers
    decreases targets
  {
    if targets != [] {
      var t, rest := targets[0], AnnounceStmts(targets[1..], g, text, now);
      assert targets == [t] + targets[1..];
      var a, b := InsertMessage(DECK_TOKEN, t, g, text, now), SetActivity(t, now);
      Unfold(db, a, [b] + rest);
      if DECK_TOKEN in db.peers {
        AnnounceOne(db, t, targets[1..], g, text, now);
        Unfold(Apply(db, a), b, rest);
        AnnounceGuarded(Apply(Apply(db, a), b), targets[1..], g, text, now);
      }
    }
  }

  lemma {:induction false} MarkGuarded(db: Db, rows: seq<nat>)
    ensures Guarded(db, MarkStmts(rows)) && Exec(db, MarkStmts(rows)).ok
    decreases rows
  {
    if rows != [] {
      var s := MarkDelivered(rows[0]);
      Unfold(db, s, MarkStmts(rows[1..]));
      MarkGuarded(Apply(db, s), rows[1..]);
    }
  }

  lemma {:induction false} DemoteGuarded(db: Db, ts: seq<Token>)
    ensures Guarded(db, DemoteStmts(ts)) && Exec(db, DemoteStmts(ts)).ok
    decreases ts
  {
    if ts != [] {
      var s := SetDormant(ts[0]);
      Unfold(db, s, DemoteStmts(ts[1..]));
      DemoteGuarded(Apply(db, s), ts[1..]);
    }
  }

  // The database without a peer and everything that refers to it.
  ghost function Without(db: Db, t: Token): Db {
    db.(peers := db.peers - {t},
        messages := map id | id in db.messages && !Mentions(db.messages[id], t) :: db.messages[id],
        sessions := map k | k in db.sessions && db.sessions[k].token != t :: db.sessions[k])
  }

  lemma EraseSteps(db: Db, t: Token)
    ensures var d1 := Apply(db, DeleteMessagesOf(t));
            var d2 := Apply(d1, DeleteSessionsOf(t));
            Accepts(d2, DeletePeer(t)) && Apply(d2, DeletePeer(t)) == Without(db, t)
  {
  }

  lemma EraseGuarded(db: Db, t: Token)
    ensures Guarded(db, EraseStmts(t)) && Exec(db, EraseStmts(t)) == Outcome(Without(db, t), true)
  {
    hide Apply, Without;
    var a, b, c := DeleteMessagesOf(t), DeleteSessionsOf(t), DeletePeer(t);
    EraseSteps(db, t);
    Unfold(db, a, [b] + [c]);
    Unfold(Apply(db, a), b, [c]);
    Unfold(Apply(Apply(db, a), b), c, []);
    assert [c] == [c] + [];
    assert EraseStmts(t) == [a] + ([b] + [c]);
  }

  lemma {:induction false} EraseAllGuarded(db: Db, ts: seq<Token>)
    ensures Guarded(db, EraseAllStmts(ts)) && Exec(db, EraseAllStmts(ts)).ok
    decreases ts
  {
    if ts != [] {
      EraseGuarded(db, ts[0]);
      EraseAllGuarded(Without(db, ts[0]), ts[1..]);
      GuardedAppend(db, EraseStmts(ts[0]), EraseAllStmts(ts[1..]));
      ExecAppend(db, EraseStmts(ts[0]), EraseAllStmts(ts[1..]));
    }
  }

  lemma SendPlanGuarded(db: Db, from: Token, toId: string, text: string, now: Instant)
    requires Inv(db)
    ensures Guarded(db, SendPlan(db, from, toId, text, now).stmts) &&
        Exec(db, SendPlan(db, from, toId, text, now).stmts).ok
  {
    if from in db.peers && exists t :: IsTarget(db, t, toId, db.peers[from].groupId) {
      var g := db.peers[from].groupId;
      var to :| IsTarget(db, to, toId, g) &&
          SendPlan(db, from, toId, text, now).stmts == SendStmts(from, to, g, text, now);
      SendGuarded(db, from, to, toId, text, now);
    }
  }

  lemma CleanGuarded(db: Db, dead: seq<Token>, expired: seq<Token>)
    ensures Guarded(db, DemoteStmts(dead) + EraseAllStmts(expired)) &&
        Exec(db, DemoteStmts(dead) + EraseAllStmts(expired)).ok
  {
    DemoteGuarded(db, dead);
    EraseAllGuarded(Exec(db, DemoteStmts(dead)).db, expired);
    GuardedAppend(db, DemoteStmts(dead), EraseAllStmts(expired));
    ExecAppend(db, DemoteStmts(dead), EraseAllStmts(expired));
  }

  // A single statement that needs nothing.
  lemma LoneGuarded(db: Db, s: Stmt)
    requires Safe(db, s) && Accepts(db, s)
    ensures Guarded(db, [s]) && Exec(db, [s]) == Outcome(Apply(db, s), true)
  {
    assert [s] == [s] + [];
    Unfold(db, s, []);
  }

  lemma SetIdGuarded(db: Db, t: Token, name: string)
    ensures Guarded(db, SetIdPlan(db, t, name).stmts) && Exec(db, SetIdPlan(db, t, name).stmts).ok
  {
    if SetIdPlan(db, t, name).stmts != [] {
      LoneGuarded(db, SetPeerId(t, name));
    }
  }

  // 500 is nobody's intended answer.
  lemma PlanNeverFails(cfg: Config, db: Db, ev: Event)
    requires Enabled(cfg, db, ev)
    ensures EventPlan(cfg, db, ev).reply != Failed(500)
  {
    hide TextLess, Iso, Sql, GroupStmts, ResumeStmts, SendStmts, AnnounceStmts, EraseStmts, DemoteStmts, EraseAllStmts;
  }

  // A handler runs into a constraint exactly in the two cases of Refusable, and every statement it
  // gets to run is safe.
  lemma EventGuarded(cfg: Config, db: Db, ev: Event)
    requires Inv(db) && Enabled(cfg, db, ev)
    ensures Guarded(db, EventPlan(cfg, db, ev).stmts)
    ensures Exec(db, EventPlan(cfg, db, ev).stmts).ok <==> !Refusable(cfg, db, ev)
  {
    hide Inv, NamesExhausted, RegisterPlan, SendPlan, SetIdPlan, Safe;
    match ev {
      case Register(req, minted, now, stamp, alive) => RegisterGuarded(cfg, db, req, minted, now, stamp, alive);
      case Unregister(t) => EraseGuarded(db, t);
      case Send(from, toId, text, now) => SendPlanGuarded(db, from, toId, text, now);
      case Announce(g, _, text, _, targets, now) => AnnounceGuarded(db, targets, g, text, now);
      case Poll(_, rows) => MarkGuarded(db, rows);
      case Clean(_, _, dead, expired) => CleanGuarded(db, dead, expired);
      case SetId(t, name) => SetIdGuarded(db, t, name);
      case _ => LoneGuarded(db, EventPlan(cfg, db, ev).stmts[0]);
    }
  }

  lemma PurgeNext(cfg: Config, db: Db, now: Instant)
    requires Enabled(cfg, db, Purge(now))
    ensures Next(cfg, db, Purge(now)) == Apply(db, PurgeMessages(now - cfg.messageTtl))
  {
    LoneGuarded(db, PurgeMessages(now - cfg.messageTtl));
  }

  lemma SweepNext(cfg: Config, db: Db, now: Instant)
    requires Enabled(cfg, db, Sweep(now))
    ensures Next(cfg, db, Sweep(now)) == Apply(db, SweepDormant(now - cfg.activeStale))
  {
    LoneGuarded(db, SweepDormant(now - cfg.activeStale));
  }
}
