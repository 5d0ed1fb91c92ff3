// The broker as a running program: handlers that read the tables, issue statements one by one and
// stop at the first one SQLite refuses. Each is proved against its plan, and joins the run recorded
// in the object, so that what holds of runs is a fact about the object between any two calls.
module BrokerService {
  import opened Options
  import opened Timestamps
  import opened BrokerDb
  import opened BrokerHandlers
  import opened Ranking
  import opened BrokerIntegrity
  import Isolation = BrokerIsolation
  import Ledger = BrokerLedger
  import Identity = BrokerIdentity
  import Effects = BrokerEffects
  import DefaultId
  import JsText

  datatype Frame = Frame(id: nat, fromPeerId: string, fromSummary: string, fromHost: string, fromCwd: string,
                         text: string, sentAt: Instant)

  // ----- the capped replay -----

  function WindowFor(db: Db, t: Token, cutoff: Instant): set<nat> {
    set id | id in PendingFor(db, t) && AfterCutoff(db.messages[id].sentAt, cutoff)
  }

  // A possible result of selectUndeliveredCapped.
  ghost predicate IsCapped(db: Db, t: Token, cutoff: Instant, max: nat, rows: seq<nat>) {
    IsNewest(BySentAt(db), WindowFor(db, t, cutoff), max, rows)
  }

  // The capped replay is part of what a peek returns, oldest first, no more than the cap and nothing
  // a day older than the window.
  lemma CappedRefinesBacklog(cfg: Config, db: Db, t: Token, now: Instant, rows: seq<nat>, all: seq<nat>)
    requires cfg.flushAge <= now && Printable(now)
    requires forall id :: id in PendingFor(db, t) ==> db.messages[id].sentAt <= now
    requires IsCapped(db, t, now - cfg.flushAge, cfg.flushMax, rows) && IsBacklog(db, t, all)
    ensures |rows| <= cfg.flushMax
    ensures forall id :: id in rows ==> id in all && now - db.messages[id].sentAt < cfg.flushAge + MS_PER_DAY
    ensures forall i, j :: 0 <= i < j < |rows| ==> db.messages[rows[i]].sentAt <= db.messages[rows[j]].sentAt
  {
    hide TextLess, Iso, Sql;
    forall id | id in rows ensures id in all && now - db.messages[id].sentAt < cfg.flushAge + MS_PER_DAY {
      assert id in WindowFor(db, t, now - cfg.flushAge);
      WindowSlack(db, t, now, cfg.flushAge, id);
    }
    SentInOrder(db, now, rows);
  }

  // Below the cap nothing within the window is left out.
  lemma ShortReplayIsComplete(cfg: Config, db: Db, t: Token, now: Instant, rows: seq<nat>, all: seq<nat>, id: nat)
    requires cfg.flushAge <= now && Printable(now)
    requires IsCapped(db, t, now - cfg.flushAge, cfg.flushMax, rows) && IsBacklog(db, t, all)
    requires |rows| < cfg.flushMax && id in all && db.messages[id].sentAt <= now
    requires now - db.messages[id].sentAt <= cfg.flushAge
    ensures id in rows
  {
    hide TextLess, Iso, Sql;
    ShortIsAll(BySentAt(db), WindowFor(db, t, now - cfg.flushAge), cfg.flushMax, rows);
    WindowSlack(db, t, now, cfg.flushAge, id);
  }

  // At the cap, what is left out of the window is no newer than anything kept.
  lemma ReplayKeepsTheNewest(cfg: Config, db: Db, t: Token, now: Instant, rows: seq<nat>, all: seq<nat>,
                             out: nat, kept: nat)
    requires cfg.flushAge <= now && Printable(now)
    requires IsCapped(db, t, now - cfg.flushAge, cfg.flushMax, rows) && IsBacklog(db, t, all)
    requires out in all && out !in rows && kept in rows
    requires now - cfg.flushAge <= db.messages[out].sentAt <= now && db.messages[kept].sentAt <= now
    ensures db.messages[out].sentAt <= db.messages[kept].sentAt
  {
    hide TextLess, Iso, Sql;
    WindowSlack(db, t, now, cfg.flushAge, out);
    assert BySentAt(db)(out, kept);
    SentOrder(db, now, out, kept);
  }

  lemma SentOrder(db: Db, now: Instant, a: nat, b: nat)
    requires SentNoLater(db, a, b)
    requires db.messages[a].sentAt <= now && db.messages[b].sentAt <= now && Printable(now)
    ensures db.messages[a].sentAt <= db.messages[b].sentAt
  {
    PrintableDown(db.messages[a].sentAt, now);
    PrintableDown(db.messages[b].sentAt, now);
    IsoOrder(db.messages[b].sentAt, db.messages[a].sentAt);
  }

  lemma SentInOrder(db: Db, now: Instant, rows: seq<nat>)
    requires Ascending(db, rows) && Printable(now) && forall id :: id in rows ==> db.messages[id].sentAt <= now
    ensures forall i, j :: 0 <= i < j < |rows| ==> db.messages[rows[i]].sentAt <= db.messages[rows[j]].sentAt
  {
    forall i, j | 0 <= i < j < |rows| ensures db.messages[rows[i]].sentAt <= db.messages[rows[j]].sentAt {
      assert rows[i] in rows && rows[j] in rows && BySentAt(db)(rows[i], rows[j]);
      SentOrder(db, now, rows[i], rows[j]);
    }
  }

  lemma WindowSlack(db: Db, t: Token, now: Instant, age: nat, id: nat)
    requires age <= now && Printable(now) && id in PendingFor(db, t) && db.messages[id].sentAt <= now
    ensures now - db.messages[id].sentAt <= age ==> id in WindowFor(db, t, now - age)
    ensures id in WindowFor(db, t, now - age) ==> now - db.messages[id].sentAt < age + MS_PER_DAY
  {
    CutoffSlack(db.messages[id].sentAt, now, age);
  }

  class Broker {
    const cfg: Config
    ghost const boot: Instant
    var db: Db
    ghost var run: seq<Event>

    // The tables are what the recorded run from the fresh database makes of them.
    ghost predicate Valid()
      reads this
    {
      IsRun(cfg, InitDb(boot), run) && db == After(cfg, InitDb(boot), run) && Inv(db)
    }

    constructor (cfg: Config, boot: Instant)
      ensures this.cfg == cfg && this.boot == boot && db == InitDb(boot)
      ensures Valid() && run == []
    {
      this.cfg, this.boot := cfg, boot;
      db, run := InitDb(boot), [];
      new;
      InitEstablishesInv(boot);
    }

    // The call just made joins the run.
    ghost method Record(before: Db, ev: Event)
      requires IsRun(cfg, InitDb(boot), run) && before == After(cfg, InitDb(boot), run) && Inv(before)
      requires Enabled(cfg, before, ev) && db == Next(cfg, before, ev)
      modifies this`run
      ensures Valid() && run == old(run) + [ev]
    {
      hide Enabled, Next, Inv;
      EventKeepsInv(cfg, before, ev);
      RunSnoc(cfg, InitDb(boot), run, ev);
      run := run + [ev];
    }

    // One statement through SQLite.
    method Execute(s: Stmt) returns (ok: bool)
      modifies this`db
      ensures ok == Accepts(old(db), s)
      ensures db == if ok then Apply(old(db), s) else old(db)
    {
      ok := Accepts(db, s);
      if ok {
        db := Apply(db, s);
      }
    }

    // ----- registration -----

    // The first of base, base-2, ..., base-1000 that nobody in the group has, active or dormant; a
    // clock-stamped name when there is none.
    method DeriveDefaultId(host: string, cwd: string, g: GroupId, stamp: nat) returns (id: string)
      ensures id == DefaultId.DeriveId(TakenNames(db, g), DefaultId.BaseId(cfg.lower, host, cwd), stamp)
    {
      var base := DefaultId.BaseId(cfg.lower, host, cwd);
      var candidate := base;
      var suffix := 1;
      while candidate in TakenNames(db, g)
        invariant 1 <= suffix <= DefaultId.MAX_SUFFIX && candidate == DefaultId.Candidate(base, suffix)
        invariant DefaultId.FirstFree(TakenNames(db, g), base, stamp, suffix) ==
            DefaultId.DeriveId(TakenNames(db, g), base, stamp)
        decreases DefaultId.MAX_SUFFIX - suffix
      {
        suffix := suffix + 1;
        if suffix > DefaultId.MAX_SUFFIX {
          return DefaultId.Fallback(base, stamp);
        }
        candidate := DefaultId.Candidate(base, suffix);
      }
      return candidate;
    }

    // A success puts the group's hash on record and the returned token's row in place, active.
    method Register(req: RegisterRequest, minted: Token, now: Instant, stamp: nat, alive: set<int>)
      returns (reply: Reply)
      requires Valid() && Enabled(cfg, db, Event.Register(req, minted, now, stamp, alive))
      modifies this
      ensures Valid() && run == old(run) + [Event.Register(req, minted, now, stamp, alive)]
      ensures var p := RegisterPlan(cfg, old(db), req, minted, now, stamp, alive);
              var o := Exec(old(db), p.stmts);
              db == o.db && reply == if o.ok then p.reply else Failed(500)
      ensures reply.Registered? && req.groupId != DEFAULT_GROUP ==>
                req.groupId in db.groups && db.groups[req.groupId] == req.secretHash
      ensures reply.Registered? ==> Identity.JustRegistered(db, reply.token, req, reply.peerId, now)
      ensures Effects.Registers(cfg, old(db), db, reply, req, minted, now, stamp, alive)
    {
      ghost var before, ev := db, Event.Register(req, minted, now, stamp, alive);
      reply := Registration(req, minted, now, stamp, alive);
      Record(before, ev);
      Effects.RegistrationIs(cfg, before, ev);
      if reply.Registered? {
        Identity.RegistrationActivates(cfg, before, ev, reply.token);
        if req.groupId != DEFAULT_GROUP {
          Isolation.RegistrationPresentedTheHash(cfg, before, ev);
        }
      }
    }

    method Registration(req: RegisterRequest, minted: Token, now: Instant, stamp: nat, alive: set<int>)
      returns (reply: Reply)
      requires Inv(db) && minted !in db.issued
      modifies this`db
      ensures Inv(db)
      ensures var p := RegisterPlan(cfg, old(db), req, minted, now, stamp, alive);
              var o := Exec(old(db), p.stmts);
              db == o.db && reply == if o.ok then p.reply else Failed(500)
    {
      hide TextLess, Iso, Sql;
      ghost var before := db;
      RegisterGuarded(cfg, db, req, minted, now, stamp, alive);
      GuardedKeepsInv(db, RegisterPlan(cfg, db, req, minted, now, stamp, alive).stmts);
      if req.groupId != DEFAULT_GROUP {
        if req.groupId in db.groups {
          if db.groups[req.groupId] != req.secretHash {
            return Failed(401);
          }
        } else {
          Unfold(db, InsertGroup(req.groupId, req.secretHash), []);
          assert GroupStmts(db, req) == [InsertGroup(req.groupId, req.secretHash)] + [];
          var planted := Execute(InsertGroup(req.groupId, req.secretHash));
          assert planted;
        }
      }
      GroupStmtsFrame(cfg, before, req, minted, now, stamp, alive);
      ExecAppend(before, GroupStmts(before, req), IdentityPlan(cfg, before, req, minted, now, stamp, alive).stmts);
      assert db == Exec(before, GroupStmts(before, req)).db;
      reply := ResolveIdentity(req, minted, now, stamp, alive);
    }

    // The part of a registration after the group check.
    method ResolveIdentity(req: RegisterRequest, minted: Token, now: Instant, stamp: nat, alive: set<int>)
      returns (reply: Reply)
      requires Inv(db)
      modifies this`db
      ensures var p := IdentityPlan(cfg, old(db), req, minted, now, stamp, alive);
              var o := Exec(old(db), p.stmts);
              db == o.db && reply == if o.ok then p.reply else Failed(500)
    {
      hide Inv, TakenNames, DefaultId.DeriveId, DefaultId.BaseId;
      var k := RequestKey(req);
      if k in db.sessions {
        var t := db.sessions[k].token;
        if t in db.peers {
          var p := db.peers[t];
          var status := p.status;
          if status == Active && p.host == cfg.host && p.pid !in alive {
            var demoted := Execute(SetDormant(t));
            status := Dormant;
          }
          if status == Dormant {
            ResumeRuns(cfg, old(db), req, t, p, now, alive);
            reply := Resume(req, t, p.peerId, now);
            return;
          }
          var name := DeriveDefaultId(req.host, req.cwd, req.groupId, stamp);
          reply := InsertBeside(req, minted, name, now);
        } else {
          reply := Insert(req, t, now, stamp);
        }
      } else {
        reply := Insert(req, minted, now, stamp);
      }
    }

    method Resume(req: RegisterRequest, t: Token, name: string, now: Instant) returns (reply: Reply)
      modifies this`db
      ensures var o := Exec(old(db), [Reactivate(t, RowFor(req, name, now))] + [UpsertSession(RequestKey(req), t)]);
              db == o.db && reply == if o.ok then Registered(name, t) else Failed(500)
    {
      Unfold(db, Reactivate(t, RowFor(req, name, now)), [UpsertSession(RequestKey(req), t)]);
      var revived := Execute(Reactivate(t, RowFor(req, name, now)));
      Unfold(db, UpsertSession(RequestKey(req), t), []);
      assert [UpsertSession(RequestKey(req), t)] + [] == [UpsertSession(RequestKey(req), t)];
      var stored := Execute(UpsertSession(RequestKey(req), t));
      return if stored then Registered(name, t) else Failed(500);
    }

    method Insert(req: RegisterRequest, t: Token, now: Instant, stamp: nat) returns (reply: Reply)
      modifies this`db
      ensures var name := NewName(cfg, old(db), req, stamp);
              var o := Exec(old(db), [InsertPeer(t, RowFor(req, name, now))] + [UpsertSession(RequestKey(req), t)]);
              db == o.db && reply == if o.ok then Registered(name, t) else Failed(500)
    {
      var name := DeriveDefaultId(req.host, req.cwd, req.groupId, stamp);
      reply := InsertAs(req, t, name, now);
    }

    method InsertAs(req: RegisterRequest, t: Token, name: string, now: Instant) returns (reply: Reply)
      modifies this`db
      ensures var o := Exec(old(db), [InsertPeer(t, RowFor(req, name, now))] + [UpsertSession(RequestKey(req), t)]);
              db == o.db && reply == if o.ok then Registered(name, t) else Failed(500)
    {
      Unfold(db, InsertPeer(t, RowFor(req, name, now)), [UpsertSession(RequestKey(req), t)]);
      var inserted := Execute(InsertPeer(t, RowFor(req, name, now)));
      if !inserted { return Failed(500); }
      Unfold(db, UpsertSession(RequestKey(req), t), []);
      assert [UpsertSession(RequestKey(req), t)] + [] == [UpsertSession(RequestKey(req), t)];
      var stored := Execute(UpsertSession(RequestKey(req), t));
      return if stored then Registered(name, t) else Failed(500);
    }

    // An active collision: the existing row keeps the session.
    method InsertBeside(req: RegisterRequest, minted: Token, name: string, now: Instant) returns (reply: Reply)
      modifies this`db
      ensures var o := Exec(old(db), [InsertPeer(minted, RowFor(req, name, now))]);
              db == o.db && reply == if o.ok then Registered(name, minted) else Failed(500)
    {
      var s := InsertPeer(minted, RowFor(req, name, now));
      Unfold(db, s, []);
      assert [s] + [] == [s];
      var inserted := Execute(s);
      return if inserted then Registered(name, minted) else Failed(500);
    }

    // ----- messages -----

    method FindTarget(name: string, g: GroupId) returns (found: Option<Token>)
      ensures found.Some? ==> IsTarget(db, found.value, name, g)
      ensures found.None? ==> forall t :: !IsTarget(db, t, name, g)
    {
      if exists t | t in db.peers :: IsTarget(db, t, name, g) {
        var t :| t in db.peers && IsTarget(db, t, name, g);
        return Some(t);
      }
      return None;
    }

    // A message that is sent is pending, whoever it is for.
    method SendMessage(from: Token, toId: string, text: string, now: Instant) returns (reply: Reply)
      requires Valid() && Enabled(cfg, db, Event.Send(from, toId, text, now))
      modifies this
      ensures Valid() && run == old(run) + [Event.Send(from, toId, text, now)]
      ensures var p := SendPlan(old(db), from, toId, text, now);
              db == Exec(old(db), p.stmts).db && reply == p.reply
      ensures reply == Ok ==> IsPending(db, old(db).nextId)
      ensures Effects.Sends(old(db), db, reply, from, toId, text, now)
    {
      ghost var before, ev := db, Event.Send(from, toId, text, now);
      reply := Sending(from, toId, text, now);
      EventGuarded(cfg, before, ev);
      Record(before, ev);
      Effects.SendIs(cfg, before, ev);
      if reply == Ok {
        Ledger.SendLeavesOwnMessagePending(cfg, before, ev);
      }
    }

    method Sending(from: Token, toId: string, text: string, now: Instant) returns (reply: Reply)
      requires Inv(db)
      modifies this`db
      ensures Inv(db)
      ensures var p := SendPlan(old(db), from, toId, text, now);
              db == Exec(old(db), p.stmts).db && reply == p.reply
    {
      hide Apply, Inv, Guarded;
      if from !in db.peers { return NotSent; }
      var g := db.peers[from].groupId;
      var target := FindTarget(toId, g);
      if target.None? { return NotSent; }
      var to := target.value;
      ghost var before := db;
      OneTarget(before, from, to, toId, text, now);
      SendGuarded(before, from, to, toId, text, now);
      GuardedKeepsInv(before, SendStmts(from, to, g, text, now));
      SendRuns(before, from, to, g, text, now);
      var inserted := Execute(InsertMessage(from, to, g, text, now));
      var noted := Execute(SetActivity(from, now));
      noted := Execute(SetActivity(to, now));
      var acked := Execute(AckPrior(from, g, now));
      return Ok;
    }

    method Announce(g: GroupId, hash: Option<Hash>, text: string, exclude: Option<string>, now: Instant)
      returns (reply: Reply, targets: seq<Token>)
      requires Valid() && Printable(now)
      modifies this
      ensures Valid() && run == old(run) + [Event.Announce(g, hash, text, exclude, targets, now)]
      ensures Enumerates(targets, AnnounceTargets(old(db), g, exclude))
      ensures var p := AnnouncePlan(old(db), g, hash, text, targets, now);
              var o := Exec(old(db), p.stmts);
              db == o.db && reply == if o.ok then p.reply else Failed(500)
      ensures Effects.Announces(old(db), db, reply, g, hash, text, exclude, now)
    {
      hide Effects.Announces;
      hide Inv, IsRun, After, Next, Enabled, AnnouncePlan, AnnounceTargets, Exec;
      ghost var before := db;
      reply, targets := Announcing(g, hash, text, exclude, now);
      AnnouncesNext(cfg, before, g, hash, text, exclude, targets, now);
      Effects.AnnouncementIs(cfg, before, Event.Announce(g, hash, text, exclude, targets, now));
      Record(before, Event.Announce(g, hash, text, exclude, targets, now));
    }

    method Announcing(g: GroupId, hash: Option<Hash>, text: string, exclude: Option<string>, now: Instant)
      returns (reply: Reply, targets: seq<Token>)
      requires Inv(db)
      modifies this`db
      ensures Inv(db)
      ensures Enumerates(targets, AnnounceTargets(old(db), g, exclude))
      ensures var p := AnnouncePlan(old(db), g, hash, text, targets, now);
              var o := Exec(old(db), p.stmts);
              db == o.db && reply == if o.ok then p.reply else Failed(500)
    {
      targets := ListTokens(AnnounceTargets(db, g, exclude));
      if JsText.Trim(text) == [] { return SentTo(0), targets; }
      if g != DEFAULT_GROUP && g in db.groups && db.groups[g] != hash { return Failed(401), targets; }
      AnnounceGuarded(db, targets, g, text, now);
      GuardedKeepsInv(db, AnnounceStmts(targets, g, text, now));
      var all := WriteAnnouncements(targets, g, text, now);
      return if all then SentTo(|targets|) else Failed(500), targets;
    }

    method WriteAnnouncements(targets: seq<Token>, g: GroupId, text: string, now: Instant) returns (all: bool)
      modifies this`db
      ensures Outcome(db, all) == Exec(old(db), AnnounceStmts(targets, g, text, now))
    {
      var sent := 0;
      while sent < |targets|
        invariant 0 <= sent <= |targets|
        invariant Exec(old(db), AnnounceStmts(targets, g, text, now)) ==
            Exec(db, AnnounceStmts(targets[sent..], g, text, now))
      {
        var t := targets[sent];
        ghost var rest := AnnounceStmts(targets[sent + 1..], g, text, now);
        assert targets[sent..][1..] == targets[sent + 1..];
        Unfold(db, InsertMessage(DECK_TOKEN, t, g, text, now), [SetActivity(t, now)] + rest);
        var inserted := Execute(InsertMessage(DECK_TOKEN, t, g, text, now));
        if !inserted { return false; }
        Unfold(db, SetActivity(t, now), rest);
        var noted := Execute(SetActivity(t, now));
        sent := sent + 1;
      }
      return true;
    }

    // The rows of a query without ORDER BY, in some order.
    method ListTokens(ts: set<Token>) returns (rows: seq<Token>)
      ensures Enumerates(rows, ts)
    {
      rows := [];
      var todo := ts;
      while todo != {}
        invariant todo <= ts && Enumerates(rows, ts - todo)
        decreases todo
      {
        var t :| t in todo;
        rows := rows + [t];
        todo := todo - {t};
      }
    }

    // SELECT ... ORDER BY sent_at ASC.
    method OrderBySentAt(ids: set<nat>) returns (rows: seq<nat>)
      requires forall id :: id in ids ==> id in db.messages
      ensures Enumerates(rows, ids) && Ascending(db, rows)
    {
      rows := [];
      var todo := ids;
      while todo != {}
        invariant todo <= ids && Enumerates(rows, ids - todo) && Ascending(db, rows)
        decreases todo
      {
        var id :| id in todo;
        var at := PlaceFor(rows, id);
        InsertOrdered(BySentAt(db), rows, at, id);
        InsertEnumerates(rows, ids - todo, at, id);
        rows := rows[..at] + [id] + rows[at..];
        todo := todo - {id};
        assert ids - todo == (ids - (todo + {id})) + {id};
      }
      assert ids - todo == ids;
    }

    // Behind every row sent no later.
    method PlaceFor(rows: seq<nat>, id: nat) returns (at: nat)
      requires Ascending(db, rows) && id in db.messages
      ensures at <= |rows| && forall i :: 0 <= i < at ==> BySentAt(db)(rows[i], id)
      ensures forall j :: at <= j < |rows| ==> BySentAt(db)(id, rows[j])
    {
      hide TextLess, Iso;
      at := |rows|;
      while at > 0 && !SentNoLater(db, rows[at - 1], id)
        invariant 0 <= at <= |rows|
        invariant forall j :: at <= j < |rows| ==> BySentAt(db)(id, rows[j])
      {
        EitherWayRound(db, rows[at - 1], id);
        at := at - 1;
      }
      AllNoLater(db, rows, at, id);
    }

    method SelectUndelivered(token: Token) returns (rows: seq<nat>)
      ensures IsBacklog(db, token, rows)
    {
      rows := OrderBySentAt(PendingFor(db, token));
    }

    // Newest first, cut at the limit, then oldest first again.
    method SelectUndeliveredCapped(token: Token, cutoff: Instant, max: nat) returns (rows: seq<nat>)
      ensures IsCapped(db, token, cutoff, max, rows)
      ensures forall id :: id in rows ==> id in db.messages
    {
      var ascending := OrderBySentAt(WindowFor(db, token, cutoff));
      var newestFirst := Reverse(ascending);
      var newest := newestFirst[..Min(max, |newestFirst|)];
      rows := Reverse(newest);
      assert rows == ascending[|ascending| - |newest|..];
      SuffixIsNewest(BySentAt(db), WindowFor(db, token, cutoff), max, ascending, |ascending| - |newest|);
    }

    // Nothing that any earlier poll has returned, and only what is for the caller in its own group.
    method PollMessages(token: Token) returns (rows: seq<nat>, messages: seq<Message>)
      requires Valid()
      modifies this
      ensures Valid() && run == old(run) + [Event.Poll(token, rows)]
      ensures IsBacklog(old(db), token, rows)
      ensures |messages| == |rows| && forall i :: 0 <= i < |rows| ==> messages[i] == old(db).messages[rows[i]]
      ensures db == Exec(old(db), MarkStmts(rows)).db
      ensures forall id :: id in rows <==>
                id in old(db).messages && old(db).messages[id].to == token && IsPending(old(db), id)
      ensures db == old(db).(messages := db.messages) && db.messages.Keys == old(db).messages.Keys
      ensures forall id :: id in db.messages ==>
                var m := old(db).messages[id]; db.messages[id] == if id in rows then m.(delivered := true) else m
      ensures forall id :: id in rows ==> Ledger.TimesReturned(old(run), id) == 0
      ensures forall m :: m in messages ==>
                m.to == token && token in old(db).peers && m.groupId == old(db).peers[token].groupId
    {
      hide TextLess, Iso, Exec, MarkStmts, Inv, IsRun, After, Ascending;
      ghost var before := db;
      rows, messages := Polling(token);
      PollsNext(cfg, before, token, rows);
      Effects.PollIs(cfg, before, Event.Poll(token, rows));
      Record(before, Event.Poll(token, rows));
      forall id | id in rows ensures Ledger.TimesReturned(old(run), id) == 0 {
        ReturnedFirstNow(old(run), token, rows, id);
      }
      forall m | m in messages
        ensures m.to == token && token in before.peers && m.groupId == before.peers[token].groupId
      {
        var i :| 0 <= i < |rows| && messages[i] == m;
        assert rows[i] in rows;
        Isolation.BacklogStaysInGroup(before, token, rows[i]);
      }
    }

    // The ledger of the recorded run: no id is returned twice.
    lemma ReturnedFirstNow(earlier: seq<Event>, token: Token, rows: seq<nat>, id: nat)
      requires Valid() && run == earlier + [Event.Poll(token, rows)] && id in rows
      ensures Ledger.TimesReturned(earlier, id) == 0
    {
      InitEstablishesInv(boot);
      Ledger.ReturnedByOnePoll(cfg, InitDb(boot), run, id);
      Ledger.ReturnedOnceMore(earlier, Event.Poll(token, rows), id);
    }

    method Polling(token: Token) returns (rows: seq<nat>, messages: seq<Message>)
      modifies this`db
      ensures IsBacklog(old(db), token, rows)
      ensures |messages| == |rows| && forall i :: 0 <= i < |rows| ==> messages[i] == old(db).messages[rows[i]]
      ensures db == Exec(old(db), MarkStmts(rows)).db
    {
      rows := SelectUndelivered(token);
      var before := db;
      messages := seq(|rows|, i requires 0 <= i < |rows| && rows[i] in before.messages => before.messages[rows[i]]);
      MarkAll(rows);
    }

    method MarkAll(rows: seq<nat>)
      modifies this`db
      ensures db == Exec(old(db), MarkStmts(rows)).db
    {
      for i := 0 to |rows|
        invariant Exec(old(db), MarkStmts(rows)) == Exec(db, MarkStmts(rows[i..]))
      {
        assert rows[i..][1..] == rows[i + 1..];
        Unfold(db, MarkDelivered(rows[i]), MarkStmts(rows[i + 1..]));
        var marked := Execute(MarkDelivered(rows[i]));
      }
    }

    // Reads only: nothing is marked.
    method PeekMessages(token: Token) returns (rows: seq<nat>)
      ensures IsBacklog(db, token, rows)
    {
      rows := SelectUndelivered(token);
    }

    // The replay on (re)connection: nothing without an open socket, otherwise a frame for each row of
    // the capped selection until the socket stops accepting (after `capacity` frames). No row is
    // skipped for want of its sender, and nothing is marked.
    method FlushPending(token: Token, open: bool, capacity: nat, now: Instant) returns (frames: seq<Frame>)
      requires Valid() && cfg.flushAge <= now
      ensures !open ==> frames == []
      ensures open ==> IsReplay(cfg, db, token, now, capacity, frames)
      ensures forall f :: f in frames ==> Tells(db, token, f)
    {
      hide IsRun, After, TextLess, Iso, Sql, IsReplay, Tells, AreFramesOf;
      if !open { return []; }
      var rows := SelectUndeliveredCapped(token, now - cfg.flushAge, cfg.flushMax);
      frames := SendFrames(rows, capacity);
      ReplayWitness(cfg, db, token, now, capacity, rows, frames);
      FramesTell(db, token, now - cfg.flushAge, cfg.flushMax, capacity, rows, frames);
    }

    method SendFrames(rows: seq<nat>, capacity: nat) returns (frames: seq<Frame>)
      requires Inv(db) && forall id :: id in rows ==> id in db.messages
      ensures AreFramesOf(db, frames, rows, capacity)
    {
      frames := [];
      for i := 0 to |rows|
        invariant |frames| == i <= capacity
        invariant forall j :: 0 <= j < i ==> IsFrameOf(db, frames[j], rows[j])
      {
        SenderPresent(db, rows[i]);
        var m := db.messages[rows[i]];
        if m.from in db.peers {
          if i == capacity { return; }
          var sender := db.peers[m.from];
          frames := frames + [Frame(rows[i], sender.peerId, sender.summary, sender.host, sender.cwd, m.text, m.sentAt)];
        }
      }
    }

    // ----- listings -----

    // All colleagues within the scope, each once.
    method ListPeers(caller: Token, scope: Isolation.Scope, cwd: string, gitRoot: Option<string>,
                     projectKey: Option<string>)
      returns (listed: seq<Token>)
      ensures Enumerates(listed, Isolation.ListPeers(db, caller, scope, cwd, gitRoot, projectKey))
      ensures forall t :: t in listed <==>
                Isolation.IsColleague(db, caller, t) && Isolation.InScope(db.peers[t], scope, cwd, gitRoot, projectKey)
    {
      if caller !in db.peers { return []; }
      var rows := QueryPeers(db.peers[caller].groupId, scope, cwd, gitRoot, projectKey);
      listed := WithoutCaller(rows, caller);
      forall t ensures t in listed <==> t in Isolation.ListPeers(db, caller, scope, cwd, gitRoot, projectKey) {
        Isolation.ListedIff(db, caller, t, cwd, gitRoot, projectKey);
      }
    }

    method QueryPeers(g: GroupId, scope: Isolation.Scope, cwd: string, gitRoot: Option<string>,
                      projectKey: Option<string>)
      returns (rows: seq<Token>)
      ensures Enumerates(rows, set t | t in db.peers && db.peers[t].groupId == g && db.peers[t].status == Active
                                       && Isolation.InScope(db.peers[t], scope, cwd, gitRoot, projectKey))
    {
      var members := set t | t in db.peers && db.peers[t].groupId == g && db.peers[t].status == Active;
      match scope {
        case Machine => rows := ListTokens(members);
        case Directory => rows := ListTokens(set t | t in members && db.peers[t].cwd == cwd);
        case Repo =>
          if projectKey.Some? && projectKey.value != "" {
            rows := ListTokens(set t | t in members && db.peers[t].projectKey == projectKey);
          } else if gitRoot.Some? && gitRoot.value != "" {
            rows := ListTokens(set t | t in members && db.peers[t].gitRoot == gitRoot);
          } else {
            rows := ListTokens(set t | t in members && db.peers[t].cwd == cwd);
          }
        case Unknown => rows := [];
      }
    }

    method WithoutCaller(rows: seq<Token>, caller: Token) returns (listed: seq<Token>)
      requires forall i, j :: 0 <= i < j < |rows| ==> rows[i] != rows[j]
      ensures forall i, j :: 0 <= i < j < |listed| ==> listed[i] != listed[j]
      ensures forall t :: t in listed <==> t in rows && t != caller
    {
      listed := [];
      for i := 0 to |rows|
        invariant forall t :: t in listed <==> t in rows[..i] && t != caller
        invariant forall a, b :: 0 <= a < b < |listed| ==> listed[a] != listed[b]
      {
        assert rows[i] !in rows[..i];
        if rows[i] != caller {
          listed := listed + [rows[i]];
        }
      }
    }

    // ----- timers -----

    method CleanStalePeers(now: Instant, alive: set<int>) returns (dead: seq<Token>, expired: seq<Token>)
      requires Valid() && Printable(now) && cfg.dormantTtl <= now
      modifies this
      ensures Valid() && run == old(run) + [Event.Clean(now, alive, dead, expired)]
      ensures Enumerates(dead, DeadPeers(cfg, old(db), alive))
      ensures Enumerates(expired, ExpiredPeers(cfg, Exec(old(db), DemoteStmts(dead)).db, now))
      ensures db == Exec(old(db), DemoteStmts(dead) + EraseAllStmts(expired)).db
    {
      hide Inv, IsRun, After, Next, Enabled, EraseAllStmts, DemoteStmts, ExpiredPeers, DeadPeers, Exec;
      ghost var before := db;
      dead, expired := Cleaning(now, alive);
      CleansNext(cfg, before, now, alive, dead, expired);
      Record(before, Event.Clean(now, alive, dead, expired));
    }

    method Cleaning(now: Instant, alive: set<int>) returns (dead: seq<Token>, expired: seq<Token>)
      requires Inv(db) && cfg.dormantTtl <= now
      modifies this`db
      ensures Inv(db)
      ensures Enumerates(dead, DeadPeers(cfg, old(db), alive))
      ensures Enumerates(expired, ExpiredPeers(cfg, Exec(old(db), DemoteStmts(dead)).db, now))
      ensures db == Exec(old(db), DemoteStmts(dead) + EraseAllStmts(expired)).db
    {
      ghost var before := db;
      dead := ListTokens(DeadPeers(cfg, db, alive));
      DemoteGuarded(before, dead);
      GuardedKeepsInv(before, DemoteStmts(dead));
      for i := 0 to |dead|
        invariant Exec(before, DemoteStmts(dead)) == Exec(db, DemoteStmts(dead[i..]))
      {
        assert dead[i..][1..] == dead[i + 1..];
        Unfold(db, SetDormant(dead[i]), DemoteStmts(dead[i + 1..]));
        var demoted := Execute(SetDormant(dead[i]));
      }
      ghost var mid := db;
      expired := ListTokens(ExpiredPeers(cfg, db, now));
      EraseAllGuarded(mid, expired);
      for i := 0 to |expired|
        invariant Inv(db)
        invariant Exec(mid, EraseAllStmts(expired)) == Exec(db, EraseAllStmts(expired[i..]))
      {
        assert expired[i..][1..] == expired[i + 1..];
        ExecAppend(db, EraseStmts(expired[i]), EraseAllStmts(expired[i + 1..]));
        Erase(expired[i]);
      }
      ExecAppend(before, DemoteStmts(dead), EraseAllStmts(expired));
      GuardedAppend(before, DemoteStmts(dead), EraseAllStmts(expired));
      GuardedKeepsInv(before, DemoteStmts(dead) + EraseAllStmts(expired));
    }

    method PurgeOldMessages(now: Instant) returns (purged: nat)
      requires Valid() && Enabled(cfg, db, Event.Purge(now))
      modifies this
      ensures Valid() && run == old(run) + [Event.Purge(now)]
      ensures db == Apply(old(db), PurgeMessages(now - cfg.messageTtl))
      ensures purged == |old(db).messages| - |db.messages|
    {
      hide TextLess, Iso, Sql, Inv, IsRun, After, Next;
      ghost var start := db;
      var before := db.messages;
      PurgeNext(cfg, db, now);
      var ok := Execute(PurgeMessages(now - cfg.messageTtl));
      assert db.messages.Keys <= before.Keys;
      DefaultId.SubsetSize(db.messages.Keys, before.Keys);
      assert |db.messages| == |db.messages.Keys| && |before| == |before.Keys|;
      purged := |before| - |db.messages|;
      Record(start, Event.Purge(now));
    }

    method SweepInactivePeers(now: Instant)
      requires Valid() && Enabled(cfg, db, Event.Sweep(now))
      modifies this
      ensures Valid() && run == old(run) + [Event.Sweep(now)]
      ensures db == Apply(old(db), SweepDormant(now - cfg.activeStale))
    {
      hide TextLess, Iso, Inv, IsRun, After, Next;
      ghost var before := db;
      SweepNext(cfg, db, now);
      var ok := Execute(SweepDormant(now - cfg.activeStale));
      Record(before, Event.Sweep(now));
    }

    method Heartbeat(token: Token, now: Instant)
      requires Valid() && Enabled(cfg, db, Event.Heartbeat(token, now))
      modifies this
      ensures Valid() && run == old(run) + [Event.Heartbeat(token, now)]
      ensures db == Apply(old(db), SetLastSeen(token, now))
      ensures token !in old(db).peers ==> db == old(db)
      ensures token in old(db).peers ==>
                db == old(db).(peers := old(db).peers[token := old(db).peers[token].(lastSeen := now)])
    {
      ghost var before := db;
      LoneGuarded(db, SetLastSeen(token, now));
      var ok := Execute(SetLastSeen(token, now));
      Record(before, Event.Heartbeat(token, now));
    }

    method Disconnect(token: Token, now: Instant)
      requires Valid() && Enabled(cfg, db, Event.Disconnect(token, now))
      modifies this
      ensures Valid() && run == old(run) + [Event.Disconnect(token, now)]
      ensures db == Apply(old(db), DemoteAt(token, now))
      ensures token !in old(db).peers ==> db == old(db)
      ensures token in old(db).peers ==>
                var row := old(db).peers[token].(lastSeen := now, status := Dormant);
                db == old(db).(peers := old(db).peers[token := row])
    {
      ghost var before := db;
      LoneGuarded(db, DemoteAt(token, now));
      var ok := Execute(DemoteAt(token, now));
      Record(before, Event.Disconnect(token, now));
    }

    method SetSummary(token: Token, text: string)
      requires Valid() && Enabled(cfg, db, Event.SetSummary(token, text))
      modifies this
      ensures Valid() && run == old(run) + [Event.SetSummary(token, text)]
      ensures db == Apply(old(db), UpdateSummary(token, text))
      ensures token !in old(db).peers ==> db == old(db)
      ensures token in old(db).peers ==>
                db == old(db).(peers := old(db).peers[token := old(db).peers[token].(summary := text)])
    {
      ghost var before := db;
      LoneGuarded(db, UpdateSummary(token, text));
      var ok := Execute(UpdateSummary(token, text));
      Record(before, Event.SetSummary(token, text));
    }

    // Everything that mentions the token is gone.
    method Unregister(token: Token)
      requires Valid()
      modifies this
      ensures Valid() && run == old(run) + [Event.Unregister(token)]
      ensures db == Without(old(db), token)
    {
      hide Inv, IsRun, After, Next, Enabled, EraseStmts, Without, Exec;
      ghost var before := db;
      Erase(token);
      ErasesNext(cfg, before, token);
      Record(before, Event.Unregister(token));
    }

    // Both foreign-key directions first, then the row.
    method Erase(token: Token)
      requires Inv(db)
      modifies this`db
      ensures Inv(db) && db == Without(old(db), token)
      ensures Exec(old(db), EraseStmts(token)) == Outcome(db, true)
    {
      hide Apply, Without, Inv;
      EraseSteps(db, token);
      EraseGuarded(db, token);
      GuardedKeepsInv(db, EraseStmts(token));
      var ok := Execute(DeleteMessagesOf(token));
      ok := Execute(DeleteSessionsOf(token));
      ok := Execute(DeletePeer(token));
    }

    method SetId(token: Token, name: string) returns (reply: Reply)
      requires Valid()
      modifies this
      ensures Valid() && run == old(run) + [Event.SetId(token, name)]
      ensures var p := SetIdPlan(old(db), token, name);
              db == Exec(old(db), p.stmts).db && reply == p.reply
      ensures reply.Renamed? <==> (ValidPeerId(name) && !Reserved(name) && token in old(db).peers
                                   && !NameTaken(old(db), name, old(db).peers[token].groupId, token))
      ensures reply.Renamed? ==> db == old(db).(peers := old(db).peers[token := old(db).peers[token].(peerId := name)])
      ensures Effects.Renames(old(db), db, reply, token, name)
    {
      hide Effects.Renames;
      ghost var before := db;
      SetIdGuarded(db, token, name);
      Effects.RenameIs(cfg, db, Event.SetId(token, name));
      reply := Rename(token, name);
      Record(before, Event.SetId(token, name));
    }

    method Rename(token: Token, name: string) returns (reply: Reply)
      requires Inv(db)
      modifies this`db
      ensures var p := SetIdPlan(old(db), token, name);
              db == Exec(old(db), p.stmts).db && reply == p.reply
      ensures reply.Renamed? <==> (ValidPeerId(name) && !Reserved(name) && token in old(db).peers
                                   && !NameTaken(old(db), name, old(db).peers[token].groupId, token))
      ensures reply.Renamed? ==> db == old(db).(peers := old(db).peers[token := old(db).peers[token].(peerId := name)])
    {
      if !ValidPeerId(name) { return Failed(400); }
      if Reserved(name) { return Failed(400); }
      if token !in db.peers { return Failed(404); }
      var me := db.peers[token];
      OwnNameIsFree(db, token);
      if me.peerId == name { return Renamed(name, name); }
      if NameTaken(db, name, me.groupId, token) { return Failed(409); }
      Unfold(db, SetPeerId(token, name), []);
      assert [SetPeerId(token, name)] + [] == [SetPeerId(token, name)];
      var ok := Execute(SetPeerId(token, name));
      return Renamed(name, me.peerId);
    }
  }

  // A frame shows one undelivered message of the token's, and its sender as the sender is now.
  ghost predicate Tells(db: Db, t: Token, f: Frame) {
    f.id in db.messages && db.messages[f.id].from in db.peers &&
    var m, s := db.messages[f.id], db.peers[db.messages[f.id].from];
    && m.to == t && !m.delivered && f.text == m.text && f.sentAt == m.sentAt
    && f.fromPeerId == s.peerId && f.fromSummary == s.summary && f.fromHost == s.host && f.fromCwd == s.cwd
  }

  ghost predicate AreFramesOf(db: Db, frames: seq<Frame>, rows: seq<nat>, capacity: nat) {
    |frames| == Min(capacity, |rows|) && forall i :: 0 <= i < |frames| ==> IsFrameOf(db, frames[i], rows[i])
  }

  ghost predicate IsReplay(cfg: Config, db: Db, t: Token, now: Instant, capacity: nat, frames: seq<Frame>)
    requires cfg.flushAge <= now
  {
    exists rows :: IsCapped(db, t, now - cfg.flushAge, cfg.flushMax, rows) && AreFramesOf(db, frames, rows, capacity)
  }

  lemma ReplayWitness(cfg: Config, db: Db, t: Token, now: Instant, capacity: nat, rows: seq<nat>, frames: seq<Frame>)
    requires cfg.flushAge <= now && IsCapped(db, t, now - cfg.flushAge, cfg.flushMax, rows)
    requires AreFramesOf(db, frames, rows, capacity)
    ensures IsReplay(cfg, db, t, now, capacity, frames)
  {
  }

  lemma FramesTell(db: Db, t: Token, cutoff: Instant, max: nat, capacity: nat, rows: seq<nat>, frames: seq<Frame>)
    requires IsCapped(db, t, cutoff, max, rows) && AreFramesOf(db, frames, rows, capacity)
    ensures forall f :: f in frames ==> Tells(db, t, f)
  {
    hide TextLess, Iso, Sql;
    forall f | f in frames ensures Tells(db, t, f) {
      var i :| 0 <= i < |frames| && frames[i] == f;
      assert IsFrameOf(db, f, rows[i]) && rows[i] in rows;
    }
  }

  lemma SenderPresent(db: Db, id: nat)
    requires Inv(db) && id in db.messages
    ensures db.messages[id].from in db.peers
  {
    assert MessageOk(db, id);
  }

  predicate IsFrameOf(db: Db, f: Frame, id: nat) {
    id in db.messages && db.messages[id].from in db.peers &&
    var m, s := db.messages[id], db.peers[db.messages[id].from];
    f == Frame(id, s.peerId, s.summary, s.host, s.cwd, m.text, m.sentAt)
  }

  // Names are unique in a group, so the addressee is.
  lemma OneTarget(db: Db, from: Token, to: Token, toId: string, text: string, now: Instant)
    requires Inv(db) && from in db.peers && IsTarget(db, to, toId, db.peers[from].groupId)
    ensures SendPlan(db, from, toId, text, now) == Plan(SendStmts(from, to, db.peers[from].groupId, text, now), Ok)
  {
    forall u | IsTarget(db, u, toId, db.peers[from].groupId) ensures u == to {
    }
  }

  lemma ResumeRuns(cfg: Config, db: Db, req: RegisterRequest, t: Token, p: Peer, now: Instant, alive: set<int>)
    ensures var rest := [Reactivate(t, RowFor(req, p.peerId, now))] + [UpsertSession(RequestKey(req), t)];
            Exec(db, ResumeStmts(cfg, req, t, p, now, alive))
              == Exec(if Crashed(cfg, p, alive) then Apply(db, SetDormant(t)) else db, rest)
  {
    ResumeStmtsAre(cfg, req, t, p, now, alive);
    Unfold(db, SetDormant(t), [Reactivate(t, RowFor(req, p.peerId, now))] + [UpsertSession(RequestKey(req), t)]);
  }

  lemma PollsNext(cfg: Config, db: Db, token: Token, rows: seq<nat>)
    requires IsBacklog(db, token, rows)
    ensures var ev := Event.Poll(token, rows); Enabled(cfg, db, ev) && Next(cfg, db, ev) == Exec(db, MarkStmts(rows)).db
  {
    hide TextLess, Iso, IsBacklog, MarkStmts, Exec;
  }

  lemma ErasesNext(cfg: Config, db: Db, token: Token)
    ensures var ev := Event.Unregister(token);
            Enabled(cfg, db, ev) && Next(cfg, db, ev) == Exec(db, EraseStmts(token)).db
  {
    hide EraseStmts, Exec;
  }

  lemma AnnouncesNext(cfg: Config, db: Db, g: GroupId, hash: Option<Hash>, text: string, exclude: Option<string>,
                      targets: seq<Token>, now: Instant)
    requires Printable(now) && Enumerates(targets, AnnounceTargets(db, g, exclude))
    ensures var ev := Event.Announce(g, hash, text, exclude, targets, now);
            && Enabled(cfg, db, ev)
            && Next(cfg, db, ev) == Exec(db, AnnouncePlan(db, g, hash, text, targets, now).stmts).db
  {
    hide AnnouncePlan, AnnounceTargets, Exec;
  }

  lemma CleansNext(cfg: Config, db: Db, now: Instant, alive: set<int>, dead: seq<Token>, expired: seq<Token>)
    requires Printable(now) && cfg.dormantTtl <= now && Enumerates(dead, DeadPeers(cfg, db, alive))
    requires Enumerates(expired, ExpiredPeers(cfg, Exec(db, DemoteStmts(dead)).db, now))
    ensures var ev := Event.Clean(now, alive, dead, expired);
            Enabled(cfg, db, ev) && Next(cfg, db, ev) == Exec(db, DemoteStmts(dead) + EraseAllStmts(expired)).db
  {
    hide EraseAllStmts, DemoteStmts, ExpiredPeers, DeadPeers, Exec;
  }

  lemma EitherWayRound(db: Db, a: nat, b: nat)
    requires a in db.messages && b in db.messages
    ensures SentNoLater(db, a, b) || SentNoLater(db, b, a)
  {
    var s, t := Iso(db.messages[a].sentAt), Iso(db.messages[b].sentAt);
    if TextLess(s, t) {
      TextAsymmetric(s, t);
    }
  }

  lemma NoLaterTransitive(db: Db, a: nat, b: nat, c: nat)
    requires SentNoLater(db, a, b) && SentNoLater(db, b, c)
    ensures SentNoLater(db, a, c)
  {
    TextNotLessTransitive(Iso(db.messages[a].sentAt), Iso(db.messages[b].sentAt), Iso(db.messages[c].sentAt));
  }

  lemma AllNoLater(db: Db, rows: seq<nat>, at: nat, id: nat)
    requires Ascending(db, rows) && at <= |rows| && (at > 0 ==> SentNoLater(db, rows[at - 1], id))
    ensures forall i :: 0 <= i < at ==> BySentAt(db)(rows[i], id)
  {
    hide TextLess, Iso;
    forall i | 0 <= i < at ensures BySentAt(db)(rows[i], id) {
      if i < at - 1 {
        assert BySentAt(db)(rows[i], rows[at - 1]);
        NoLaterTransitive(db, rows[i], rows[at - 1], id);
      }
    }
  }

  // What the ledger and integrity theorems say of a broker, between any two calls: every reference
  // resolves, and over all its calls so far each id has left pending at most once and been returned
  // by at most one poll.
  lemma BrokerKeepsItsWord(b: Broker, id: nat)
    requires b.Valid()
    ensures SchemaHolds(b.db)
    ensures Ledger.Departures(Ledger.Trail(b.cfg, InitDb(b.boot), b.run), id) <= 1
    ensures Ledger.TimesReturned(b.run, id) <= 1
  {
    InitEstablishesInv(b.boot);
    InvImpliesSchema(b.db);
    Ledger.LeavesPendingOnce(b.cfg, InitDb(b.boot), b.run, id);
    Ledger.ReturnedByOnePoll(b.cfg, InitDb(b.boot), b.run, id);
  }
}
