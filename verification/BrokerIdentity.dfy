// Who gets which token back.
module BrokerIdentity {
  import opened Options
  import opened Timestamps
  import opened BrokerDb
  import opened BrokerHandlers
  import opened BrokerIntegrity
  import opened BrokerIsolation

  predicate IsDormant(db: Db, t: Token) { t in db.peers && db.peers[t].status == Dormant }

  predicate IsActive(db: Db, t: Token) { t in db.peers && db.peers[t].status == Active }

  ghost predicate Holds(db: Db, t: Token, k: Key) {
    k in db.sessions && db.sessions[k].token == t
  }

  ghost predicate Returns(cfg: Config, db: Db, ev: Event, t: Token)
    requires Enabled(cfg, db, ev)
  {
    ev.Register? && ReplyTo(cfg, db, ev).Registered? && ReplyTo(cfg, db, ev).token == t
  }

  lemma RegisterExec(cfg: Config, db: Db, ev: Event) returns (e: Db, p: Plan)
    requires Inv(db) && Enabled(cfg, db, ev) && ev.Register? && Authorised(db, ev.req.groupId, ev.req.secretHash)
    ensures Inv(e) && e == db.(groups := e.groups) && ev.req.groupId in e.groups
    ensures p == IdentityPlan(cfg, e, ev.req, ev.minted, ev.now, ev.stamp, ev.alive)
    ensures p == IdentityPlan(cfg, db, ev.req, ev.minted, ev.now, ev.stamp, ev.alive)
    ensures Exec(db, EventPlan(cfg, db, ev).stmts) == Exec(e, p.stmts)
    ensures EventPlan(cfg, db, ev).stmts == GroupStmts(db, ev.req) + p.stmts &&
        Exec(db, GroupStmts(db, ev.req)) == Outcome(e, true)
  {
    var Register(req, minted, now, stamp, alive) := ev;
    GroupStmtsFrame(cfg, db, req, minted, now, stamp, alive);
    e := Exec(db, GroupStmts(db, req)).db;
    p := IdentityPlan(cfg, db, req, minted, now, stamp, alive);
    ExecAppend(db, GroupStmts(db, req), p.stmts);
  }

  lemma {:induction false} StatesAppend(db: Db, a: seq<Stmt>, b: seq<Stmt>, d: Db)
    requires Exec(db, a).ok && d in States(Exec(db, a).db, b)
    ensures d in States(db, a + b)
    decreases a
  {
    if a == [] {
      assert a + b == b;
    } else {
      assert (a + b)[0] == a[0] && (a + b)[1..] == a[1..] + b;
      StatesAppend(Apply(db, a[0]), a[1..], b, d);
    }
  }

  // The row a registration leaves under the token it returns, column by column.
  ghost predicate Describes(p: Peer, req: RegisterRequest, name: string, now: Instant) {
    && p.pid == req.pid && p.cwd == req.cwd && p.gitRoot == req.gitRoot && p.summary == req.summary
    && p.host == req.host && p.projectKey == req.projectKey && p.groupId == req.groupId
    && p.peerId == name && p.lastSeen == now && p.lastActivity == Some(now) && p.status == Active
  }

  lemma OnlyRowFor(p: Peer, req: RegisterRequest, name: string, now: Instant)
    ensures Describes(p, req, name, now) <==> p == RowFor(req, name, now)
  {
  }

  ghost predicate JustRegistered(after: Db, t: Token, req: RegisterRequest, name: string, now: Instant) {
    t in after.peers && t in after.issued && Describes(after.peers[t], req, name, now)
  }

  // After a successful registration the token it returned is an active row of the requested group,
  // from the requested host and directory, under the returned name.
  lemma RegistrationActivates(cfg: Config, db: Db, ev: Event, t: Token)
    requires Inv(db) && Enabled(cfg, db, ev) && Returns(cfg, db, ev, t)
    ensures JustRegistered(Next(cfg, db, ev), t, ev.req, ReplyTo(cfg, db, ev).peerId, ev.now)
  {
    var e, p := RegisterExec(cfg, db, ev);
    IdentityActivates(cfg, e, ev.req, ev.minted, NewName(cfg, e, ev.req, ev.stamp), ev.now, ev.alive);
  }

  lemma IdentityActivates(cfg: Config, db: Db, req: RegisterRequest, minted: Token, name: string, now: Instant,
                          alive: set<int>)
    requires Inv(db)
    ensures var p := PlanUnder(cfg, db, req, minted, name, now, alive);
            && p.reply.Registered?
            && (Exec(db, p.stmts).ok ==> JustRegistered(Exec(db, p.stmts).db, p.reply.token, req, p.reply.peerId, now))
  {
    var k := RequestKey(req);
    var row := RowFor(req, name, now);
    if k in db.sessions {
      SessionResolves(db, k);
      var u := db.sessions[k].token;
      assert PeerOk(db, u);
      if db.peers[u].status == Dormant || Crashed(cfg, db.peers[u], alive) {
        ResumeEffect(cfg, db, req, now, alive);
      } else {
        InsertEffect(db, minted, row, []);
        assert [InsertPeer(minted, row)] == [InsertPeer(minted, row)] + [];
      }
    } else {
      InsertEffect(db, minted, row, [UpsertSession(k, minted)]);
    }
  }

  lemma InsertEffect(db: Db, t: Token, row: Peer, tail: seq<Stmt>)
    requires tail == [] || (|tail| == 1 && tail[0].UpsertSession?)
    ensures var o := Exec(db, [InsertPeer(t, row)] + tail);
            o.ok ==> t in o.db.peers && t in o.db.issued && o.db.peers[t] == row
  {
    var s := InsertPeer(t, row);
    Unfold(db, s, tail);
    if tail != [] {
      Unfold(Apply(db, s), tail[0], []);
      assert tail == [tail[0]] + [];
    }
  }

  lemma ResumeUnfolds(cfg: Config, db: Db, req: RegisterRequest, t: Token, p: Peer, now: Instant, alive: set<int>)
    requires t in db.peers
    ensures var d := if Crashed(cfg, p, alive) then Apply(db, SetDormant(t)) else db;
            var ss := ResumeStmts(cfg, req, t, p, now, alive);
            && Exec(db, ss) ==
               Outcome(Apply(Apply(d, Reactivate(t, RowFor(req, p.peerId, now))), UpsertSession(RequestKey(req), t)),
                       true)
            && d in States(db, ss)
  {
    var reactivate, upsert := Reactivate(t, RowFor(req, p.peerId, now)), UpsertSession(RequestKey(req), t);
    var d := if Crashed(cfg, p, alive) then Apply(db, SetDormant(t)) else db;
    RowStays(db, SetDormant(t), t);
    RowStays(d, reactivate, t);
    hide Apply, ResumeStmts, Exec, States;
    ResumeStmtsAre(cfg, req, t, p, now, alive);
    TwoRun(d, reactivate, upsert);
    if Crashed(cfg, p, alive) {
      Unfold(db, SetDormant(t), [reactivate] + [upsert]);
    }
  }

  lemma TwoRun(d: Db, a: Stmt, b: Stmt)
    requires Accepts(d, a) && Accepts(Apply(d, a), b)
    ensures Exec(d, [a] + [b]) == Outcome(Apply(Apply(d, a), b), true)
    ensures d in States(d, [a] + [b])
  {
    hide Apply, Accepts;
    Unfold(d, a, [b]);
    Unfold(Apply(d, a), b, []);
    assert [b] == [b] + [];
    assert States(d, [a] + [b])[0] == d;
  }

  // Resuming rewrites the one row, and nothing else: it keeps the name, the group and the session.
  lemma ResumeEffect(cfg: Config, db: Db, req: RegisterRequest, now: Instant, alive: set<int>)
    requires Inv(db) && RequestKey(req) in db.sessions && db.sessions[RequestKey(req)].token in db.peers
    ensures var t := db.sessions[RequestKey(req)].token;
            var p := db.peers[t];
            && Exec(db, ResumeStmts(cfg, req, t, p, now, alive)) ==
               Outcome(db.(peers := db.peers[t := RowFor(req, p.peerId, now)]), true)
            && Describes(RowFor(req, p.peerId, now), req, p.peerId, now)
  {
    var k := RequestKey(req);
    SessionResolves(db, k);
    var t := db.sessions[k].token;
    var p := db.peers[t];
    var row := RowFor(req, p.peerId, now);
    ResumeUnfolds(cfg, db, req, t, p, now, alive);
    RowRevived(db, db, t, row);
    RowRevived(db, Apply(db, SetDormant(t)), t, row);
    SessionRewritten(db, t, row, k);
  }

  lemma RowRevived(db: Db, d: Db, t: Token, row: Peer)
    requires t in db.peers && row.status == Active
    requires row.peerId == db.peers[t].peerId && row.groupId == db.peers[t].groupId
    requires d == db || d == Apply(db, SetDormant(t))
    ensures Apply(d, Reactivate(t, row)) == db.(peers := db.peers[t := row])
  {
    assert Resumed(d.peers[t], row) == row;
    assert d.peers[t := row] == db.peers[t := row];
  }

  lemma SessionRewritten(db: Db, t: Token, row: Peer, k: Key)
    requires Holds(db, t, k)
    ensures Apply(db.(peers := db.peers[t := row]), UpsertSession(k, t)) == db.(peers := db.peers[t := row])
  {
    assert db.sessions[k := Session(t, db.sessions[k].groupId)] == db.sessions;
  }

  // A registration that returns a token issued before finds its row dormant at that point: either on
  // arrival, or because the row's process is dead and the handler has just demoted it.
  lemma ReissuedTokenIsDormant(cfg: Config, db: Db, ev: Event, t: Token)
    requires Inv(db) && Enabled(cfg, db, ev) && Returns(cfg, db, ev, t) && t in db.issued
    ensures exists d :: d in During(cfg, db, ev) && IsDormant(d, t)
    ensures IsDormant(db, t) || (IsActive(db, t) && Crashed(cfg, db.peers[t], ev.alive))
  {
    var e, p := RegisterExec(cfg, db, ev);
    SessionOfReissued(cfg, e, ev.req, ev.minted, NewName(cfg, e, ev.req, ev.stamp), ev.now, ev.alive, t);
    var q := e.peers[t];
    ResumeUnfolds(cfg, e, ev.req, t, q, ev.now, ev.alive);
    var d := if Crashed(cfg, q, ev.alive) then Apply(e, SetDormant(t)) else e;
    StatesAppend(db, GroupStmts(db, ev.req), p.stmts, d);
    DormantOnceDemoted(cfg, e, t, ev.alive);
    assert d in During(cfg, db, ev);
  }

  lemma DormantOnceDemoted(cfg: Config, db: Db, t: Token, alive: set<int>)
    requires t in db.peers && (db.peers[t].status == Dormant || Crashed(cfg, db.peers[t], alive))
    ensures IsDormant(if Crashed(cfg, db.peers[t], alive) then Apply(db, SetDormant(t)) else db, t)
  {
  }

  // Only the resume branch can return an old token.
  lemma SessionOfReissued(cfg: Config, db: Db, req: RegisterRequest, minted: Token, name: string, now: Instant,
                          alive: set<int>, t: Token)
    requires Inv(db) && minted !in db.issued && t in db.issued
    requires PlanUnder(cfg, db, req, minted, name, now, alive).reply.Registered?
    requires PlanUnder(cfg, db, req, minted, name, now, alive).reply.token == t
    ensures var k := RequestKey(req);
            && k in db.sessions && db.sessions[k].token == t && t in db.peers
            && (db.peers[t].status == Dormant || Crashed(cfg, db.peers[t], alive))
            && PlanUnder(cfg, db, req, minted, name, now, alive).stmts ==
              ResumeStmts(cfg, req, t, db.peers[t], now, alive)
  {
    var k := RequestKey(req);
    if k in db.sessions {
      SessionResolves(db, k);
    }
  }

  // Two registrations returning one token: the row is active after the first, and some step before
  // the second reactivates it has made it dormant.
  lemma ReissueNeedsDormancy(cfg: Config, db: Db, first: Event, between: seq<Event>, second: Event, t: Token)
    requires Inv(db) && Enabled(cfg, db, first) && IsRun(cfg, Next(cfg, db, first), between)
    requires Enabled(cfg, After(cfg, Next(cfg, db, first), between), second)
    requires Returns(cfg, db, first, t) && Returns(cfg, After(cfg, Next(cfg, db, first), between), second, t)
    ensures IsActive(Next(cfg, db, first), t)
    ensures exists d :: d in During(cfg, After(cfg, Next(cfg, db, first), between), second) && IsDormant(d, t)
  {
    var d1 := Next(cfg, db, first);
    EventKeepsInv(cfg, db, first);
    RegistrationActivates(cfg, db, first, t);
    RunKeepsInv(cfg, d1, between);
    GroupsAndHashesNeverChange(cfg, d1, d1, between);
    ReissuedTokenIsDormant(cfg, After(cfg, d1, between), second, t);
  }

  // ----- a disconnected peer comes back -----

  // Dormant, from the host, directory and group of k.
  ghost predicate Parked(db: Db, t: Token, k: Key) {
    IsDormant(db, t) && KeyOf(db.peers[t]) == k
  }

  // The statement neither revives, removes nor re-homes t.
  predicate LeavesParked(s: Stmt, t: Token, k: Key) {
    && !((s.InsertPeer? || s.Reactivate? || s.DeletePeer? || s.DeleteSessionsOf?) && s.token == t)
    && !(s.UpsertSession? && s.key == k)
  }

  lemma StatementLeavesParked(db: Db, s: Stmt, t: Token, k: Key)
    requires Parked(db, t, k) && LeavesParked(s, t, k)
    ensures Parked(Apply(db, s), t, k) && (Holds(Apply(db, s), t, k) <==> Holds(db, t, k))
  {
    hide TextLess, Iso, Sql;
    var e := Apply(db, s);
    if s.UpsertSession? || s.DeleteSessionsOf? {
      assert e.peers == db.peers;
    } else {
      assert e.sessions == db.sessions;
      RowStaysParked(db, s, t, k);
    }
  }

  lemma RowStaysParked(db: Db, s: Stmt, t: Token, k: Key)
    requires Parked(db, t, k) && LeavesParked(s, t, k)
    ensures Parked(Apply(db, s), t, k)
  {
    hide TextLess, Iso, Sql;
  }

  lemma {:induction false} StatementsLeaveParked(db: Db, ss: seq<Stmt>, t: Token, k: Key)
    requires Parked(db, t, k) && forall s :: s in ss ==> LeavesParked(s, t, k)
    ensures Parked(Exec(db, ss).db, t, k) && (Holds(Exec(db, ss).db, t, k) <==> Holds(db, t, k))
    decreases ss
  {
    if ss != [] && Accepts(db, ss[0]) {
      assert ss[0] in ss;
      StatementLeavesParked(db, ss[0], t, k);
      StatementsLeaveParked(Apply(db, ss[0]), ss[1..], t, k);
    }
  }

  // No unregister or purge of t, and no registration on k.
  ghost predicate Quiet(ev: Event, t: Token, k: Key) {
    match ev
    case Unregister(u) => u != t
    case Clean(_, _, _, expired) => t !in expired
    case Register(req, _, _, _, _) => RequestKey(req) != k
    case _ => true
  }

  lemma {:induction false} ErasuresSpare(ts: seq<Token>, t: Token, k: Key)
    requires t !in ts
    ensures forall s :: s in EraseAllStmts(ts) ==> LeavesParked(s, t, k)
  {
    if ts != [] {
      ErasuresSpare(ts[1..], t, k);
    }
  }

  lemma {:induction false} DemotionsSpare(ts: seq<Token>, t: Token, k: Key)
    ensures forall s :: s in DemoteStmts(ts) ==> LeavesParked(s, t, k)
  {
    if ts != [] {
      DemotionsSpare(ts[1..], t, k);
    }
  }

  lemma {:induction false} MarksSpare(rows: seq<nat>, t: Token, k: Key)
    ensures forall s :: s in MarkStmts(rows) ==> LeavesParked(s, t, k)
  {
    if rows != [] {
      MarksSpare(rows[1..], t, k);
    }
  }

  lemma {:induction false} AnnouncesSpare(targets: seq<Token>, g: GroupId, text: string, now: Instant, t: Token, k: Key)
    ensures forall s :: s in AnnounceStmts(targets, g, text, now) ==> LeavesParked(s, t, k)
  {
    if targets != [] {
      AnnouncesSpare(targets[1..], g, text, now, t, k);
    }
  }

  // A registration on another key touches another row: rows and sessions agree on their keys.
  lemma RegisterSpares(cfg: Config, db: Db, req: RegisterRequest, minted: Token, now: Instant, stamp: nat,
                       alive: set<int>, t: Token, k: Key)
    requires Inv(db) && minted !in db.issued && t in db.issued && RequestKey(req) != k
    requires t in db.peers ==> KeyOf(db.peers[t]) == k
    ensures forall s :: s in RegisterPlan(cfg, db, req, minted, now, stamp, alive).stmts ==> LeavesParked(s, t, k)
  {
    if Authorised(db, req.groupId, req.secretHash) {
      GroupAndPlanSpare(cfg, db, req, minted, NewName(cfg, db, req, stamp), now, alive, t, k);
    }
  }

  lemma GroupAndPlanSpare(cfg: Config, db: Db, req: RegisterRequest, minted: Token, name: string, now: Instant,
                          alive: set<int>, t: Token, k: Key)
    requires Inv(db) && minted !in db.issued && t in db.issued && RequestKey(req) != k
    requires t in db.peers ==> KeyOf(db.peers[t]) == k
    ensures AllLeaveParked(GroupStmts(db, req) + PlanUnder(cfg, db, req, minted, name, now, alive).stmts, t, k)
  {
    IdentitySpares(cfg, db, req, minted, name, now, alive, t, k);
    SparesAppend(GroupStmts(db, req), PlanUnder(cfg, db, req, minted, name, now, alive).stmts, t, k);
  }

  lemma IdentitySpares(cfg: Config, db: Db, req: RegisterRequest, minted: Token, name: string, now: Instant,
                       alive: set<int>, t: Token, k: Key)
    requires Inv(db) && minted !in db.issued && t in db.issued && RequestKey(req) != k
    requires t in db.peers ==> KeyOf(db.peers[t]) == k
    ensures AllLeaveParked(PlanUnder(cfg, db, req, minted, name, now, alive).stmts, t, k)
  {
    var mine := RequestKey(req);
    NewRowSpares(req, minted, name, now, t, k);
    if mine in db.sessions {
      SessionResolves(db, mine);
      ResumeSpares(cfg, req, db.sessions[mine].token, db.peers[db.sessions[mine].token], now, alive, t, k);
    }
  }

  lemma SparesAppend(a: seq<Stmt>, b: seq<Stmt>, t: Token, k: Key)
    requires AllLeaveParked(a, t, k) && AllLeaveParked(b, t, k)
    ensures AllLeaveParked(a + b, t, k)
  {
  }

  predicate AllLeaveParked(ss: seq<Stmt>, t: Token, k: Key) {
    forall s | s in ss :: LeavesParked(s, t, k)
  }

  lemma NewRowSpares(req: RegisterRequest, minted: Token, name: string, now: Instant, t: Token, k: Key)
    requires minted != t && RequestKey(req) != k
    ensures var insert, upsert := InsertPeer(minted, RowFor(req, name, now)), UpsertSession(RequestKey(req), minted);
            AllLeaveParked([insert], t, k) && AllLeaveParked([insert] + [upsert], t, k)
  {
  }

  lemma ResumeSpares(cfg: Config, req: RegisterRequest, u: Token, p: Peer, now: Instant, alive: set<int>, t: Token,
                     k: Key)
    requires u != t && RequestKey(req) != k
    ensures AllLeaveParked(ResumeStmts(cfg, req, u, p, now, alive), t, k)
  {
  }

  lemma QuietPlan(cfg: Config, db: Db, ev: Event, t: Token, k: Key)
    requires Inv(db) && Enabled(cfg, db, ev) && Quiet(ev, t, k) && Parked(db, t, k)
    ensures AllLeaveParked(EventPlan(cfg, db, ev).stmts, t, k)
  {
    hide TextLess, Iso, Sql;
    if ev.Register? {
      assert PeerOk(db, t);
      RegisterSpares(cfg, db, ev.req, ev.minted, ev.now, ev.stamp, ev.alive, t, k);
    } else if ev.Clean? {
      DemotionsSpare(ev.dead, t, k);
      ErasuresSpare(ev.expired, t, k);
      SparesAppend(DemoteStmts(ev.dead), EraseAllStmts(ev.expired), t, k);
    } else if ev.Poll? {
      MarksSpare(ev.rows, t, k);
    } else if ev.Announce? {
      AnnouncesSpare(ev.targets, ev.groupId, ev.text, ev.now, t, k);
    } else {
      PlainPlanSpares(cfg, db, ev, t, k);
    }
  }

  // The events whose statements are few and fixed.
  lemma PlainPlanSpares(cfg: Config, db: Db, ev: Event, t: Token, k: Key)
    requires Enabled(cfg, db, ev) && Quiet(ev, t, k)
    requires !ev.Register? && !ev.Clean? && !ev.Poll? && !ev.Announce?
    ensures AllLeaveParked(EventPlan(cfg, db, ev).stmts, t, k)
  {
  }

  lemma QuietEventLeavesParked(cfg: Config, db: Db, ev: Event, t: Token, k: Key)
    requires Inv(db) && Enabled(cfg, db, ev) && Quiet(ev, t, k) && Parked(db, t, k)
    ensures Parked(Next(cfg, db, ev), t, k) && (Holds(Next(cfg, db, ev), t, k) <==> Holds(db, t, k))
  {
    hide TextLess, Iso, Sql;
    QuietPlan(cfg, db, ev, t, k);
    StatementsLeaveParked(db, EventPlan(cfg, db, ev).stmts, t, k);
  }

  lemma {:induction false} QuietRunLeavesParked(cfg: Config, db: Db, evs: seq<Event>, t: Token, k: Key)
    requires Inv(db) && IsRun(cfg, db, evs) && Parked(db, t, k)
    requires forall ev :: ev in evs ==> Quiet(ev, t, k)
    ensures Parked(After(cfg, db, evs), t, k) && (Holds(After(cfg, db, evs), t, k) <==> Holds(db, t, k))
    decreases evs
  {
    if evs != [] {
      assert evs[0] in evs;
      QuietEventLeavesParked(cfg, db, evs[0], t, k);
      EventKeepsInv(cfg, db, evs[0]);
      QuietRunLeavesParked(cfg, Next(cfg, db, evs[0]), evs[1..], t, k);
    }
  }

  lemma DisconnectParks(cfg: Config, db: Db, t: Token, k: Key, now: Instant) returns (d: Db)
    requires Inv(db) && t in db.peers && KeyOf(db.peers[t]) == k && Printable(now)
    ensures Enabled(cfg, db, Disconnect(t, now)) && d == Next(cfg, db, Disconnect(t, now))
    ensures Inv(d) && Parked(d, t, k) && d == db.(peers := d.peers)
  {
    hide TextLess, Iso, Sql;
    LoneGuarded(db, DemoteAt(t, now));
    d := Next(cfg, db, Disconnect(t, now));
    EventKeepsInv(cfg, db, Disconnect(t, now));
  }

  // Who registers on a parked row's key gets the row back exactly if it holds the session.
  lemma ParkedReturnsIff(cfg: Config, db: Db, t: Token, k: Key, back: Event)
    requires Inv(db) && Parked(db, t, k) && Enabled(cfg, db, back)
    requires back.Register? && RequestKey(back.req) == k && Authorised(db, back.req.groupId, back.req.secretHash)
    ensures Holds(db, t, k) <==> Returns(cfg, db, back, t)
    ensures Holds(db, t, k) ==> ReplyTo(cfg, db, back) == Registered(db.peers[t].peerId, t)
  {
    var exhausted := NamesExhausted(cfg, db, back.req, back.stamp, back.alive);
    RegisterReply(cfg, db, back);
    ParkedReply(cfg, db, t, k, back.req, back.minted, NewName(cfg, db, back.req, back.stamp), back.now, back.alive,
                ReplyTo(cfg, db, back), exhausted);
  }

  lemma RegisterReply(cfg: Config, db: Db, ev: Event)
    requires Inv(db) && Enabled(cfg, db, ev) && ev.Register? && Authorised(db, ev.req.groupId, ev.req.secretHash)
    ensures ReplyTo(cfg, db, ev) ==
              if NamesExhausted(cfg, db, ev.req, ev.stamp, ev.alive) then Failed(500)
              else PlanUnder(cfg, db, ev.req, ev.minted, NewName(cfg, db, ev.req, ev.stamp), ev.now, ev.alive).reply
    ensures NamesExhausted(cfg, db, ev.req, ev.stamp, ev.alive) ==> !Resumes(cfg, db, ev.req, ev.alive)
  {
    EventGuarded(cfg, db, ev);
  }

  lemma ParkedReply(cfg: Config, db: Db, t: Token, k: Key, req: RegisterRequest, minted: Token, name: string,
                    now: Instant, alive: set<int>, reply: Reply, exhausted: bool)
    requires Inv(db) && Parked(db, t, k) && RequestKey(req) == k && minted !in db.issued
    requires reply == if exhausted then Failed(500) else PlanUnder(cfg, db, req, minted, name, now, alive).reply
    requires exhausted ==> !Resumes(cfg, db, req, alive)
    ensures Holds(db, t, k) <==> reply.Registered? && reply.token == t
    ensures Holds(db, t, k) ==> reply == Registered(db.peers[t].peerId, t)
  {
    ParkedPlan(cfg, db, t, k, req, minted, name, now, alive);
  }

  lemma ParkedPlan(cfg: Config, db: Db, t: Token, k: Key, req: RegisterRequest, minted: Token, name: string,
                   now: Instant, alive: set<int>)
    requires Inv(db) && Parked(db, t, k) && RequestKey(req) == k && minted !in db.issued
    ensures var reply := PlanUnder(cfg, db, req, minted, name, now, alive).reply;
            && reply.Registered? && (Holds(db, t, k) <==> reply.token == t)
            && (Holds(db, t, k) ==> reply == Registered(db.peers[t].peerId, t))
  {
    assert PeerOk(db, t);
    if !Holds(db, t, k) && k in db.sessions {
      SessionResolves(db, k);
    }
  }

  // A peer that disconnects and is left alone gets its token and its current name back from the next
  // authorised registration on its host, directory and group, exactly if it held their session: a
  // peer minted in a collision does not.
  lemma ReconnectReturnsSameToken(cfg: Config, db: Db, t: Token, now: Instant, evs: seq<Event>, back: Event)
    requires Inv(db) && t in db.peers && Printable(now)
    requires IsRun(cfg, Next(cfg, db, Disconnect(t, now)), evs)
    requires forall ev :: ev in evs ==> Quiet(ev, t, KeyOf(db.peers[t]))
    requires back.Register? && RequestKey(back.req) == KeyOf(db.peers[t])
    requires Enabled(cfg, After(cfg, Next(cfg, db, Disconnect(t, now)), evs), back)
    requires Authorised(After(cfg, Next(cfg, db, Disconnect(t, now)), evs), back.req.groupId, back.req.secretHash)
    ensures var later := After(cfg, Next(cfg, db, Disconnect(t, now)), evs);
            && (Holds(db, t, KeyOf(db.peers[t])) <==> Returns(cfg, later, back, t))
            && (Holds(db, t, KeyOf(db.peers[t])) ==>
                  t in later.peers && ReplyTo(cfg, later, back) == Registered(later.peers[t].peerId, t))
  {
    var k := KeyOf(db.peers[t]);
    var d := DisconnectParks(cfg, db, t, k, now);
    QuietRunLeavesParked(cfg, d, evs, t, k);
    RunKeepsInv(cfg, d, evs);
    ParkedReturnsIff(cfg, After(cfg, d, evs), t, k, back);
  }

  // ----- renaming -----

  // A rename succeeds exactly for a well-formed, unreserved name that no other row of the group has,
  // active or dormant; then that one column changes, and otherwise nothing does.
  lemma RenameSucceedsIff(cfg: Config, db: Db, t: Token, name: string)
    requires Inv(db)
    ensures var reply, after := ReplyTo(cfg, db, SetId(t, name)), Next(cfg, db, SetId(t, name));
            && (reply.Renamed? <==>
                  ValidPeerId(name) && !Reserved(name) && t in db.peers
                  && forall u :: u in db.peers && u != t && db.peers[u].groupId == db.peers[t].groupId ==>
                    db.peers[u].peerId != name)
            && (reply.Renamed? ==> reply == Renamed(name, db.peers[t].peerId))
            && after == if reply.Renamed? then db.(peers := db.peers[t := db.peers[t].(peerId := name)]) else db
  {
    hide TextLess, Iso, Sql;
    SetIdGuarded(db, t, name);
    if t in db.peers {
      OwnNameIsFree(db, t);
      if SetIdPlan(db, t, name).stmts == [] {
        assert db.peers[t].peerId == name ==> db.peers[t := db.peers[t].(peerId := name)] == db.peers;
      } else {
        LoneGuarded(db, SetPeerId(t, name));
      }
    }
  }
}
