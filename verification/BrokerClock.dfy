// What the broker's timers remove and demote, in time rather than in text.
module BrokerClock {
  import opened Timestamps
  import opened BrokerDb
  import opened BrokerHandlers
  import opened Ranking
  import opened BrokerIntegrity
  import opened BrokerIdentity

  // ----- the message TTL -----

  // What the purge at `now` may make of a message: every delivered one and every one of age at most
  // the TTL stays, every undelivered one of age at least the TTL plus a day goes, and in between it
  // goes by the date.
  ghost predicate PurgedInBounds(m: Message, id: nat, after: map<nat, Message>, now: Instant, ttl: nat)
    requires ttl <= now
  {
    && (m.delivered || now - m.sentAt <= ttl ==> id in after)
    && (!m.delivered && now - m.sentAt >= ttl + MS_PER_DAY ==> id !in after)
    && (id in after <==> m.delivered || Day(m.sentAt) >= Day(now - ttl))
    && (id in after ==> after[id] == m)
  }

  lemma PurgeStatementBounds(db: Db, after: Db, now: Instant, ttl: nat, id: nat)
    requires ttl <= now && Printable(now) && id in db.messages && db.messages[id].sentAt <= now
    requires after == Apply(db, PurgeMessages(now - ttl))
    ensures PurgedInBounds(db.messages[id], id, after.messages, now, ttl)
  {
    var sent := db.messages[id].sentAt;
    PrintableDown(sent, now);
    PrintableDown(now - ttl, now);
    PurgeByDate(db, now - ttl, id);
    DaySlack(sent, now, ttl);
  }

  lemma PurgeBounds(cfg: Config, db: Db, now: Instant, id: nat)
    requires Enabled(cfg, db, Purge(now)) && id in db.messages && db.messages[id].sentAt <= now
    ensures PurgedInBounds(db.messages[id], id, Next(cfg, db, Purge(now)).messages, now, cfg.messageTtl)
  {
    PurgeNext(cfg, db, now);
    PurgeStatementBounds(db, Next(cfg, db, Purge(now)), now, cfg.messageTtl, id);
  }

  // ----- the dormant TTL -----

  lemma {:induction false} EraseAllPeers(db: Db, ts: seq<Token>, t: Token)
    ensures var e := Exec(db, EraseAllStmts(ts)).db;
            && (t in e.peers <==> t in db.peers && t !in ts)
            && (t in e.peers ==> e.peers[t] == db.peers[t])
    decreases ts
  {
    if ts != [] {
      EraseGuarded(db, ts[0]);
      ExecAppend(db, EraseStmts(ts[0]), EraseAllStmts(ts[1..]));
      EraseAllPeers(Without(db, ts[0]), ts[1..], t);
    }
  }

  lemma {:induction false} DemoteEffect(db: Db, ts: seq<Token>, t: Token)
    ensures var e := Exec(db, DemoteStmts(ts)).db;
            && e.peers.Keys == db.peers.Keys
            && (t in db.peers ==> e.peers[t] == if t in ts then db.peers[t].(status := Dormant) else db.peers[t])
    decreases ts
  {
    hide TextLess, Iso, Sql;
    if ts != [] {
      var s := SetDormant(ts[0]);
      Unfold(db, s, DemoteStmts(ts[1..]));
      assert t in ts <==> t == ts[0] || t in ts[1..];
      assert Apply(db, s).peers.Keys == db.peers.Keys;
      DemoteEffect(Apply(db, s), ts[1..], t);
    }
  }

  predicate IsDown(cfg: Config, p: Peer, alive: set<int>) {
    p.status == Dormant || (p.host == cfg.host && p.pid !in alive)
  }

  lemma CleanEffect(cfg: Config, db: Db, ev: Event, t: Token)
    requires Enabled(cfg, db, ev) && ev.Clean? && t in db.peers && db.peers[t].lastSeen <= ev.now
    ensures var p, after := db.peers[t], Next(cfg, db, ev);
            var down := IsDown(cfg, p, ev.alive);
            && (t in after.peers <==> t == DECK_TOKEN || !down || Day(p.lastSeen) >= Day(ev.now - cfg.dormantTtl))
            && (t in after.peers ==> after.peers[t] == if down then p.(status := Dormant) else p)
  {
    hide TextLess, Iso, Sql;
    var mid := Exec(db, DemoteStmts(ev.dead)).db;
    DemoteGuarded(db, ev.dead);
    ExecAppend(db, DemoteStmts(ev.dead), EraseAllStmts(ev.expired));
    DemoteEffect(db, ev.dead, t);
    EraseAllPeers(mid, ev.expired, t);
    DeadIff(cfg, db, ev, t);
    Listed(ev.expired, ExpiredPeers(cfg, mid, ev.now), t);
    ExpiredByDate(cfg, mid, ev.now, t);
    assert Next(cfg, db, ev) == Exec(mid, EraseAllStmts(ev.expired)).db;
  }

  lemma DeadIff(cfg: Config, db: Db, ev: Event, t: Token)
    requires Enabled(cfg, db, ev) && ev.Clean? && t in db.peers
    ensures t in ev.dead <==> Crashed(cfg, db.peers[t], ev.alive)
  {
    Listed(ev.dead, DeadPeers(cfg, db, ev.alive), t);
  }

  lemma Listed(s: seq<Token>, ts: set<Token>, t: Token)
    requires Enumerates(s, ts)
    ensures t in s <==> t in ts
  {
  }

  lemma ExpiredByDate(cfg: Config, db: Db, now: Instant, t: Token)
    requires cfg.dormantTtl <= now && t in db.peers && db.peers[t].lastSeen <= now && Printable(now)
    ensures t in ExpiredPeers(cfg, db, now)
        <==> db.peers[t].status == Dormant && t != DECK_TOKEN && Day(db.peers[t].lastSeen) < Day(now - cfg.dormantTtl)
  {
    hide TextLess, Iso, Sql;
    var seen, cutoff := db.peers[t].lastSeen, now - cfg.dormantTtl;
    PrintableDown(seen, now);
    PrintableDown(cutoff, now);
    MixedOrder(seen, cutoff);
    ExpiredIff(cfg, db, now, t);
  }

  lemma ExpiredIff(cfg: Config, db: Db, now: Instant, t: Token)
    requires cfg.dormantTtl <= now && t in db.peers
    ensures t in ExpiredPeers(cfg, db, now)
        <==> db.peers[t].status == Dormant && t != DECK_TOKEN
             && BeforeCutoff(db.peers[t].lastSeen, now - cfg.dormantTtl)
  {
  }

  // A stale clean removes a peer exactly when it is dormant, or just found dead, and was last seen on
  // an earlier date than the cutoff's: never within the TTL, always a day after it, and never the
  // deck. A peer it keeps is dormant afterwards if it was, or if its process here is gone.
  lemma CleanBounds(cfg: Config, db: Db, ev: Event, t: Token)
    requires Enabled(cfg, db, ev) && ev.Clean? && t in db.peers && db.peers[t].lastSeen <= ev.now
    ensures var p, after := db.peers[t], Next(cfg, db, ev);
            var down := IsDown(cfg, p, ev.alive);
            && (t in after.peers <==> t == DECK_TOKEN || !down || Day(p.lastSeen) >= Day(ev.now - cfg.dormantTtl))
            && (ev.now - p.lastSeen <= cfg.dormantTtl ==> t in after.peers)
            && (down && t != DECK_TOKEN && ev.now - p.lastSeen >= cfg.dormantTtl + MS_PER_DAY ==> t !in after.peers)
            && (t in after.peers ==> after.peers[t] == if down then p.(status := Dormant) else p)
  {
    CleanEffect(cfg, db, ev, t);
    DaySlack(db.peers[t].lastSeen, ev.now, cfg.dormantTtl);
  }

  // ----- the inactivity sweep -----

  lemma DemotedIff(p: Peer, now: Instant, stale: nat)
    requires stale <= now && Printable(now) && Printable(p.lastSeen)
    ensures Demoted(p, now - stale) == Swept(p, now, stale)
  {
    hide TextLess, Iso, Sql;
    PrintableDown(now - stale, now);
    IsoOrder(p.lastSeen, now - stale);
  }

  // What the sweep at `now` makes of a row: it demotes exactly the active ones silent for longer than
  // ACTIVE_STALE_SEC.
  function Swept(p: Peer, now: Instant, stale: nat): Peer {
    if p.status == Active && p.lastSeen + stale < now then p.(status := Dormant) else p
  }

  lemma SweepTable(db: Db, after: Db, c: Instant, t: Token)
    requires t in db.peers && after == Apply(db, SweepDormant(c))
    ensures t in after.peers && after.peers[t] == Demoted(db.peers[t], c)
  {
  }

  lemma SweepNextRow(cfg: Config, db: Db, now: Instant, t: Token) returns (q: Peer)
    requires Enabled(cfg, db, Sweep(now)) && t in db.peers
    ensures t in Next(cfg, db, Sweep(now)).peers && q == Next(cfg, db, Sweep(now)).peers[t]
    ensures q == Demoted(db.peers[t], now - cfg.activeStale)
  {
    hide Next, Apply, Demoted;
    SweepNext(cfg, db, now);
    SweepTable(db, Next(cfg, db, Sweep(now)), now - cfg.activeStale, t);
    q := Next(cfg, db, Sweep(now)).peers[t];
  }

  lemma SweepEffect(cfg: Config, db: Db, now: Instant, t: Token)
    requires Enabled(cfg, db, Sweep(now)) && t in db.peers && Printable(db.peers[t].lastSeen)
    ensures t in Next(cfg, db, Sweep(now)).peers
    ensures Next(cfg, db, Sweep(now)).peers[t] == Swept(db.peers[t], now, cfg.activeStale)
  {
    hide TextLess, Iso, Sql;
    DemotedIff(db.peers[t], now, cfg.activeStale);
    var q := SweepNextRow(cfg, db, now, t);
  }

  // Statements that set t's last_seen, or its whole row, and the time they write.
  predicate MayStamp(s: Stmt, t: Token) {
    (s.SetLastSeen? || s.DemoteAt? || s.Reactivate? || s.InsertPeer?) && s.token == t
  }

  function StampOf(s: Stmt): Instant
    requires s.InsertPeer? || s.Reactivate? || s.SetLastSeen? || s.DemoteAt?
  {
    if s.InsertPeer? then s.peer.lastSeen else if s.Reactivate? then s.row.lastSeen else s.at
  }

  // Seen no earlier than `since`.
  ghost predicate SeenSince(db: Db, t: Token, since: Instant) {
    t in db.peers ==> Printable(db.peers[t].lastSeen) && db.peers[t].lastSeen >= since
  }

  lemma {:induction false} StampsKeepSeen(db: Db, ss: seq<Stmt>, t: Token, since: Instant)
    requires SeenSince(db, t, since)
    requires forall s :: s in ss && MayStamp(s, t) ==> Printable(StampOf(s)) && StampOf(s) >= since
    ensures SeenSince(Exec(db, ss).db, t, since)
    decreases ss
  {
    if ss != [] && Accepts(db, ss[0]) {
      assert ss[0] in ss;
      StampKeepsSeen(db, ss[0], t, since);
      StampsKeepSeen(Apply(db, ss[0]), ss[1..], t, since);
    }
  }

  lemma UpdateKeepsSeen(db: Db, s: Stmt, t: Token, since: Instant)
    requires SeenSince(db, t, since) && IsRowUpdate(s)
    requires MayStamp(s, t) ==> Printable(StampOf(s)) && StampOf(s) >= since
    ensures SeenSince(Apply(db, s), t, since)
  {
    assert Apply(db, s) == UpdatePeer(db, s);
    hide Apply, Printable;
  }

  lemma StampKeepsSeen(db: Db, s: Stmt, t: Token, since: Instant)
    requires SeenSince(db, t, since)
    requires MayStamp(s, t) ==> Printable(StampOf(s)) && StampOf(s) >= since
    ensures SeenSince(Apply(db, s), t, since)
  {
    hide TextLess, Iso, Acked, Printable;
    if IsRowUpdate(s) {
      UpdateKeepsSeen(db, s, t, since);
    }
  }

  lemma RegisterStamps(cfg: Config, db: Db, ev: Event, t: Token)
    requires ev.Register?
    ensures forall s :: s in EventPlan(cfg, db, ev).stmts && MayStamp(s, t) ==> Timed(ev) && StampOf(s) == ev.now
  {
    hide RegisterPlan;
    RegisterKinds(cfg, db, ev.req, ev.minted, ev.now, ev.stamp, ev.alive);
  }

  lemma PlainStamps(cfg: Config, db: Db, ev: Event, t: Token)
    requires Enabled(cfg, db, ev) && !(ev.Register? || ev.Clean? || ev.Poll? || ev.Announce?)
    ensures forall s :: s in EventPlan(cfg, db, ev).stmts && MayStamp(s, t) ==> Timed(ev) && StampOf(s) == ev.now
  {
    hide TextLess, Iso, Sql;
  }

  // An event stamps rows with its own clock reading only.
  lemma EventStamps(cfg: Config, db: Db, ev: Event, t: Token)
    requires Enabled(cfg, db, ev)
    ensures forall s :: s in EventPlan(cfg, db, ev).stmts && MayStamp(s, t) ==> Timed(ev) && StampOf(s) == ev.now
  {
    hide MayStamp, RegisterPlan, SendPlan, SetIdPlan;
    if ev.Register? {
      RegisterStamps(cfg, db, ev, t);
    } else if ev.Clean? {
      DemotesStampNone(ev.dead, t);
      ErasesStampNone(ev.expired, t);
    } else if ev.Poll? {
      MarksStampNone(ev.rows, t);
    } else if ev.Announce? {
      AnnouncesStampNone(ev.targets, ev.groupId, ev.text, ev.now, t);
    } else {
      PlainStamps(cfg, db, ev, t);
    }
  }

  lemma {:induction false} DemotesStampNone(ts: seq<Token>, t: Token)
    ensures forall s :: s in DemoteStmts(ts) ==> !MayStamp(s, t)
  {
    if ts != [] { DemotesStampNone(ts[1..], t); }
  }

  lemma {:induction false} ErasesStampNone(ts: seq<Token>, t: Token)
    ensures forall s :: s in EraseAllStmts(ts) ==> !MayStamp(s, t)
  {
    if ts != [] { ErasesStampNone(ts[1..], t); }
  }

  lemma {:induction false} MarksStampNone(rows: seq<nat>, t: Token)
    ensures forall s :: s in MarkStmts(rows) ==> !MayStamp(s, t)
  {
    if rows != [] { MarksStampNone(rows[1..], t); }
  }

  lemma {:induction false} AnnouncesStampNone(targets: seq<Token>, g: GroupId, text: string, now: Instant, t: Token)
    ensures forall s :: s in AnnounceStmts(targets, g, text, now) ==> !MayStamp(s, t)
  {
    if targets != [] { AnnouncesStampNone(targets[1..], g, text, now, t); }
  }

  // Nothing happens later than `gap` after t's last beat before the next one, and the clock never
  // reads earlier than that beat.
  ghost predicate KeepsBeating(evs: seq<Event>, t: Token, last: Instant, gap: nat)
    decreases evs
  {
    evs == [] ||
    var ev := evs[0];
    && (Timed(ev) ==> last <= ev.now <= last + gap)
    && KeepsBeating(evs[1..], t, if ev.Heartbeat? && ev.token == t then ev.now else last, gap)
  }

  // No sweep of the run demotes t.
  ghost predicate SweepsSpare(cfg: Config, db: Db, evs: seq<Event>, t: Token)
    requires IsRun(cfg, db, evs)
    decreases evs
  {
    evs == [] ||
    (&& (evs[0].Sweep? && IsActive(db, t) ==> IsActive(Next(cfg, db, evs[0]), t))
     && SweepsSpare(cfg, Next(cfg, db, evs[0]), evs[1..], t))
  }

  lemma BeatStep(cfg: Config, db: Db, ev: Event, t: Token, last: Instant)
    requires Enabled(cfg, db, ev) && SeenSince(db, t, last) && (Timed(ev) ==> last <= ev.now <= last + cfg.activeStale)
    ensures SeenSince(Next(cfg, db, ev), t, if ev.Heartbeat? && ev.token == t then ev.now else last)
    ensures ev.Sweep? && IsActive(db, t) ==> IsActive(Next(cfg, db, ev), t)
  {
    hide TextLess, Iso, Sql;
    if ev.Heartbeat? && ev.token == t {
      LoneGuarded(db, SetLastSeen(t, ev.now));
    } else {
      EventStamps(cfg, db, ev, t);
      StampsKeepSeen(db, EventPlan(cfg, db, ev).stmts, t, last);
      if ev.Sweep? && t in db.peers {
        SweepEffect(cfg, db, ev.now, t);
      }
    }
  }

  // A peer whose heartbeats come at gaps of at most ACTIVE_STALE_SEC is never demoted by the sweep.
  lemma {:induction false} BeatingPeerIsNeverSwept(cfg: Config, db: Db, evs: seq<Event>, t: Token, last: Instant)
    requires IsRun(cfg, db, evs) && SeenSince(db, t, last) && KeepsBeating(evs, t, last, cfg.activeStale)
    ensures SweepsSpare(cfg, db, evs, t)
    decreases evs
  {
    if evs != [] {
      BeatStep(cfg, db, evs[0], t, last);
      BeatingPeerIsNeverSwept(cfg, Next(cfg, db, evs[0]), evs[1..], t,
                              if evs[0].Heartbeat? && evs[0].token == t then evs[0].now else last);
    }
  }

  // ----- silence -----

  // Not active: dormant, or purged.
  predicate Down(db: Db, t: Token) { t !in db.peers || db.peers[t].status == Dormant }

  // Unless down, the row is still the one last seen at `seen`, from k's host and directory.
  ghost predicate Unseen(db: Db, t: Token, k: Key, seen: Instant) {
    t in db.issued && (t in db.peers ==>
      KeyOf(db.peers[t]) == k && (db.peers[t].status == Dormant || db.peers[t].lastSeen == seen))
  }

  predicate Silent(ev: Event, t: Token, k: Key) {
    !(ev.Heartbeat? && ev.token == t) && !(ev.Register? && RequestKey(ev.req) == k)
  }

  predicate SilentStmt(s: Stmt, t: Token) {
    !((s.InsertPeer? || s.Reactivate? || s.SetLastSeen?) && s.token == t)
  }

  lemma {:induction false} SilentStatements(db: Db, ss: seq<Stmt>, t: Token, k: Key, seen: Instant)
    requires Unseen(db, t, k, seen) && forall s :: s in ss ==> SilentStmt(s, t)
    ensures Unseen(Exec(db, ss).db, t, k, seen) && (Down(db, t) ==> Down(Exec(db, ss).db, t))
    decreases ss
  {
    if ss != [] && Accepts(db, ss[0]) {
      assert ss[0] in ss;
      SilentStatement(db, ss[0], t, k, seen);
      SilentStatements(Apply(db, ss[0]), ss[1..], t, k, seen);
    }
  }

  // What such a statement can make of the row.
  ghost predicate Dims(p: Peer, q: Peer) {
    KeyOf(q) == KeyOf(p) && (q.status == Dormant || (q.status == p.status && q.lastSeen == p.lastSeen))
  }

  lemma SilentUpdate(db: Db, s: Stmt, t: Token)
    requires IsRowUpdate(s) && SilentStmt(s, t)
    ensures Apply(db, s).issued == db.issued
    ensures t in Apply(db, s).peers ==> t in db.peers && Dims(db.peers[t], Apply(db, s).peers[t])
  {
    assert Apply(db, s) == UpdatePeer(db, s);
    hide Apply;
  }

  lemma SilentRest(db: Db, s: Stmt, t: Token)
    requires !IsRowUpdate(s) && SilentStmt(s, t)
    ensures db.issued <= Apply(db, s).issued
    ensures t in Apply(db, s).peers ==> t in db.peers && Dims(db.peers[t], Apply(db, s).peers[t])
  {
    hide TextLess, Iso, Acked, Expires, Mentions;
  }

  lemma SilentStatement(db: Db, s: Stmt, t: Token, k: Key, seen: Instant)
    requires Unseen(db, t, k, seen) && SilentStmt(s, t)
    ensures Unseen(Apply(db, s), t, k, seen) && (Down(db, t) ==> Down(Apply(db, s), t))
  {
    hide Apply;
    if IsRowUpdate(s) {
      SilentUpdate(db, s, t);
    } else {
      SilentRest(db, s, t);
    }
  }

  lemma SilentStep(cfg: Config, db: Db, ev: Event, t: Token, k: Key, seen: Instant)
    requires Inv(db) && Enabled(cfg, db, ev) && Silent(ev, t, k) && Unseen(db, t, k, seen)
    ensures Unseen(Next(cfg, db, ev), t, k, seen) && (Down(db, t) ==> Down(Next(cfg, db, ev), t))
  {
    hide TextLess, Iso, Sql;
    var ss := EventPlan(cfg, db, ev).stmts;
    if ev.Register? {
      RegisterSpares(cfg, db, ev.req, ev.minted, ev.now, ev.stamp, ev.alive, t, k);
      RegisterKinds(cfg, db, ev.req, ev.minted, ev.now, ev.stamp, ev.alive);
      forall s | s in ss ensures SilentStmt(s, t) { assert LeavesParked(s, t, k); }
    } else if ev.Clean? {
      DemotesStampNone(ev.dead, t);
      ErasesStampNone(ev.expired, t);
    } else if ev.Poll? {
      MarksStampNone(ev.rows, t);
    } else if ev.Announce? {
      AnnouncesStampNone(ev.targets, ev.groupId, ev.text, ev.now, t);
    }
    SilentStatements(db, ss, t, k, seen);
  }

  lemma {:induction false} SilentRun(cfg: Config, db: Db, evs: seq<Event>, t: Token, k: Key, seen: Instant)
    requires Inv(db) && IsRun(cfg, db, evs) && Unseen(db, t, k, seen) && Printable(seen)
    requires forall ev :: ev in evs ==> Silent(ev, t, k)
    ensures Down(db, t) || (exists ev :: ev in evs && ev.Sweep? && ev.now > seen + cfg.activeStale) ==>
        Down(After(cfg, db, evs), t)
    decreases evs
  {
    hide TextLess, Iso, Sql;
    if evs != [] {
      var ev := evs[0];
      assert ev in evs;
      SilentStep(cfg, db, ev, t, k, seen);
      EventKeepsInv(cfg, db, ev);
      if ev.Sweep? && ev.now > seen + cfg.activeStale && t in db.peers && db.peers[t].status == Active {
        SweepEffect(cfg, db, ev.now, t);
      }
      SilentRun(cfg, Next(cfg, db, ev), evs[1..], t, k, seen);
    }
  }

  ghost predicate SweptWithin(evs: seq<Event>, u: Instant, interval: nat) {
    exists ev :: ev in evs && ev.Sweep? && u < ev.now <= u + interval
  }

  // The sweep timer fires in every window (u, u + interval] of the time span.
  ghost predicate SweptEvery(evs: seq<Event>, from: Instant, until: Instant, interval: nat) {
    forall u :: from <= u && u + interval <= until ==> SweptWithin(evs, u, interval)
  }

  // A peer silent since `seen` is down once ACTIVE_STALE_SEC and one sweep interval have passed: with
  // the defaults, after 180 seconds.
  lemma SilentPeerGoesDown(cfg: Config, db: Db, evs: seq<Event>, t: Token, from: Instant, until: Instant, interval: nat)
    requires Inv(db) && IsRun(cfg, db, evs) && t in db.peers && Printable(db.peers[t].lastSeen)
    requires forall ev :: ev in evs ==> Silent(ev, t, KeyOf(db.peers[t]))
    requires SweptEvery(evs, from, until, interval)
    requires from <= db.peers[t].lastSeen + cfg.activeStale &&
        db.peers[t].lastSeen + cfg.activeStale + interval <= until
    ensures Down(After(cfg, db, evs), t)
  {
    var seen := db.peers[t].lastSeen;
    assert PeerOk(db, t);
    var u := seen + cfg.activeStale;
    assert SweptWithin(evs, u, interval);
    SilentRun(cfg, db, evs, t, KeyOf(db.peers[t]), seen);
  }
}
