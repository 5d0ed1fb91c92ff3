// The message ledger: what can happen to a message id over a whole run.
module BrokerLedger {
  import opened Options
  import opened Timestamps
  import opened BrokerDb
  import opened BrokerHandlers
  import opened BrokerIntegrity

  datatype Fate = Unissued | Pending | Delivered | Gone

  function FateOf(db: Db, id: nat): Fate {
    if id in db.messages then (if db.messages[id].delivered then Delivered else Pending)
    else if 0 < id < db.nextId then Gone
    else Unissued
  }

  function Rank(f: Fate): nat {
    match f case Unissued => 0 case Pending => 1 case Delivered => 2 case Gone => 3
  }

  // A message aside from its delivered flag.
  function Content(m: Message): Message { m.(delivered := false) }

  // Forward only, and never rewritten: e comes later than d.
  ghost predicate LedgerStep(d: Db, e: Db, id: nat) {
    && d.nextId <= e.nextId
    && Rank(FateOf(d, id)) <= Rank(FateOf(e, id))
    && (FateOf(d, id) != Unissued && id in e.messages ==>
      id in d.messages && Content(e.messages[id]) == Content(d.messages[id]))
  }

  predicate TouchesMessages(s: Stmt) {
    s.InsertMessage? || s.MarkDelivered? || s.AckPrior? || s.PurgeMessages? || s.DeleteMessagesOf?
  }

  lemma UntouchedByOne(db: Db, s: Stmt)
    requires !TouchesMessages(s)
    ensures Apply(db, s).messages == db.messages && Apply(db, s).nextId == db.nextId
  {
  }

  lemma AlteredLedger(db: Db, e: Db, id: nat)
    requires e.nextId == db.nextId && (id in db.messages ==> 0 < id < db.nextId)
    requires id in e.messages ==> id in db.messages && Content(e.messages[id]) == Content(db.messages[id])
    requires id in e.messages && db.messages[id].delivered ==> e.messages[id].delivered
    ensures LedgerStep(db, e, id)
  {
  }

  lemma DeliveredStays(db: Db, s: Stmt, id: nat)
    requires !s.InsertMessage? && id in db.messages && db.messages[id].delivered && id in Apply(db, s).messages
    ensures Apply(db, s).messages[id].delivered
  {
    if !TouchesMessages(s) {
      UntouchedByOne(db, s);
    }
  }

  lemma StatementLedger(db: Db, s: Stmt, id: nat)
    requires Inv(db)
    ensures LedgerStep(db, Apply(db, s), id)
  {
    assert id in db.messages ==> MessageOk(db, id);
    if s.InsertMessage? {
      InsertLedger(db, s, id);
    } else {
      var e := Apply(db, s);
      if TouchesMessages(s) { MessagesOnly(db, s); } else { UntouchedByOne(db, s); }
      if id in e.messages && db.messages[id].delivered {
        DeliveredStays(db, s, id);
      }
      AlteredLedger(db, e, id);
    }
  }

  // A new row takes the next id; every other id keeps its row.
  lemma InsertLedger(db: Db, s: Stmt, id: nat)
    requires s.InsertMessage? && (id in db.messages ==> 0 < id < db.nextId)
    ensures LedgerStep(db, Apply(db, s), id)
  {
    var e := Apply(db, s);
    assert id != db.nextId ==> (id in e.messages <==> id in db.messages);
  }

  lemma {:induction false} StatementsLedger(db: Db, ss: seq<Stmt>, id: nat)
    requires Inv(db) && Guarded(db, ss)
    ensures forall d :: d in States(db, ss) ==> LedgerStep(db, d, id)
    ensures LedgerStep(db, Exec(db, ss).db, id)
    decreases ss
  {
    hide TextLess, Iso, Sql;
    assert id in db.messages ==> MessageOk(db, id);
    if ss != [] && Accepts(db, ss[0]) {
      var e := Apply(db, ss[0]);
      SafeKeepsInv(db, ss[0]);
      StatementLedger(db, ss[0], id);
      StatementsLedger(e, ss[1..], id);
    }
  }

  lemma LedgerTransitive(a: Db, b: Db, c: Db, id: nat)
    requires LedgerStep(a, b, id) && LedgerStep(b, c, id)
    ensures LedgerStep(a, c, id)
  {
  }

  lemma EventLedger(cfg: Config, db: Db, ev: Event, id: nat)
    requires Inv(db) && Enabled(cfg, db, ev)
    ensures forall d :: d in During(cfg, db, ev) ==> LedgerStep(db, d, id)
    ensures LedgerStep(db, Next(cfg, db, ev), id)
  {
    EventGuarded(cfg, db, ev);
    StatementsLedger(db, EventPlan(cfg, db, ev).stmts, id);
  }

  // Delivered never reverts, ids are never reused and contents never change, from any earlier point
  // of a run to any state after it.
  lemma {:induction false} LedgerOnlyMovesForward(cfg: Config, start: Db, db: Db, evs: seq<Event>, id: nat)
    requires Inv(db) && IsRun(cfg, db, evs) && LedgerStep(start, db, id)
    ensures Throughout(cfg, db, evs, d => LedgerStep(start, d, id))
    decreases evs
  {
    if evs != [] {
      EventKeepsInv(cfg, db, evs[0]);
      EventLedger(cfg, db, evs[0], id);
      forall d | d in During(cfg, db, evs[0]) ensures LedgerStep(start, d, id) {
        LedgerTransitive(start, db, d, id);
      }
      LedgerTransitive(start, db, Next(cfg, db, evs[0]), id);
      LedgerOnlyMovesForward(cfg, start, Next(cfg, db, evs[0]), evs[1..], id);
    }
  }

  // ----- why a message stops being pending -----

  datatype Cause = PolledByAddressee | AckedByAddresseesSend | Expired | EndpointDeleted

  ghost function CauseOf(cfg: Config, db: Db, ev: Event, id: nat): Option<Cause>
    requires IsPending(db, id) && Enabled(cfg, db, ev)
  {
    var m := db.messages[id];
    match ev
    case Poll(t, _) => if t == m.to then Some(PolledByAddressee) else None
    case Send(from, toId, _, now) =>
      if && from == m.to && from in db.peers && (exists t :: IsTarget(db, t, toId, db.peers[from].groupId))
         && TextLess(Iso(m.sentAt), Iso(now))
      then Some(AckedByAddresseesSend) else None
    case Purge(now) => if BeforeCutoff(m.sentAt, now - cfg.messageTtl) then Some(Expired) else None
    case Unregister(t) => if t in {m.from, m.to} then Some(EndpointDeleted) else None
    case Clean(_, _, _, expired) => if m.from in expired || m.to in expired then Some(EndpointDeleted) else None
    case _ => None
  }

  lemma {:induction false} UntouchedMessages(db: Db, ss: seq<Stmt>)
    requires forall s :: s in ss ==> !TouchesMessages(s)
    ensures Exec(db, ss).db.messages == db.messages && Exec(db, ss).db.nextId == db.nextId
    decreases ss
  {
    if ss != [] && Accepts(db, ss[0]) {
      assert ss[0] in ss;
      UntouchedByOne(db, ss[0]);
      UntouchedMessages(Apply(db, ss[0]), ss[1..]);
    }
  }

  lemma {:induction false} MarkEffect(db: Db, rows: seq<nat>, id: nat)
    ensures var e := Exec(db, MarkStmts(rows)).db;
            && (IsPending(e, id) <==> IsPending(db, id) && id !in rows)
            && e.messages.Keys == db.messages.Keys
    decreases rows
  {
    hide TextLess, Iso, Sql;
    if rows != [] {
      var s := MarkDelivered(rows[0]);
      Unfold(db, s, MarkStmts(rows[1..]));
      MarkEffect(Apply(db, s), rows[1..], id);
    }
  }

  lemma {:induction false} AnnounceEffect(db: Db, targets: seq<Token>, g: GroupId, text: string, now: Instant, id: nat)
    requires id in db.messages && id < db.nextId
    ensures var e := Exec(db, AnnounceStmts(targets, g, text, now)).db;
            id in e.messages && e.messages[id] == db.messages[id]
    decreases targets
  {
    if targets != [] {
      var a, b, rest := InsertMessage(DECK_TOKEN, targets[0], g, text, now), SetActivity(targets[0], now),
          AnnounceStmts(targets[1..], g, text, now);
      Unfold(db, a, [b] + rest);
      if Accepts(db, a) {
        Unfold(Apply(db, a), b, rest);
        AnnounceEffect(Apply(Apply(db, a), b), targets[1..], g, text, now, id);
      }
    }
  }

  lemma {:induction false} EraseAllEffect(db: Db, ts: seq<Token>, id: nat)
    requires id in db.messages
    ensures var e := Exec(db, EraseAllStmts(ts)).db;
            && (id in e.messages <==> db.messages[id].from !in ts && db.messages[id].to !in ts)
            && (id in e.messages ==> e.messages[id] == db.messages[id])
    decreases ts
  {
    if ts != [] {
      EraseGuarded(db, ts[0]);
      ExecAppend(db, EraseStmts(ts[0]), EraseAllStmts(ts[1..]));
      var d := Without(db, ts[0]);
      if id in d.messages {
        EraseAllEffect(d, ts[1..], id);
      } else {
        EraseAllAbsent(d, ts[1..], id);
      }
    }
  }

  lemma {:induction false} EraseAllAbsent(db: Db, ts: seq<Token>, id: nat)
    requires id !in db.messages
    ensures id !in Exec(db, EraseAllStmts(ts)).db.messages
    decreases ts
  {
    if ts != [] {
      EraseGuarded(db, ts[0]);
      ExecAppend(db, EraseStmts(ts[0]), EraseAllStmts(ts[1..]));
      EraseAllAbsent(Without(db, ts[0]), ts[1..], id);
    }
  }

  // After a send: the new message is pending, and the sender's earlier pending ones are acked.
  lemma SendEffect(db: Db, from: Token, to: Token, g: GroupId, text: string, now: Instant, id: nat)
    requires from in db.peers && to in db.peers && db.nextId !in db.messages && (id == db.nextId || id in db.messages)
    ensures var e := Exec(db, SendStmts(from, to, g, text, now)).db;
            && db.nextId in e.messages && e.messages[db.nextId] == Message(from, to, g, text, now, false)
            && (id in db.messages ==> id in e.messages && e.messages[id] == Acked(db.messages[id], from, g, now))
  {
    SendRuns(db, from, to, g, text, now);
    var d1 := Apply(db, InsertMessage(from, to, g, text, now));
    var d2 := Apply(d1, SetActivity(from, now));
    var d3 := Apply(d2, SetActivity(to, now));
    assert d3.messages == d2.messages == d1.messages ==
        db.messages[db.nextId := Message(from, to, g, text, now, false)];
    AckEffect(d3, from, g, now, db.nextId);
    AckEffect(d3, from, g, now, id);
    TextIrreflexive(Iso(now));
  }

  lemma AckEffect(db: Db, to: Token, g: GroupId, before: Instant, id: nat)
    requires id in db.messages
    ensures var e := Apply(db, AckPrior(to, g, before));
            id in e.messages && e.messages[id] == Acked(db.messages[id], to, g, before)
  {
  }

  // A send never acks the message it has just inserted, not even one to oneself.
  lemma SendLeavesOwnMessagePending(cfg: Config, db: Db, ev: Event)
    requires Inv(db) && Enabled(cfg, db, ev) && ev.Send? && ReplyTo(cfg, db, ev) == Ok
    ensures FateOf(db, db.nextId) == Unissued && FateOf(Next(cfg, db, ev), db.nextId) == Pending
  {
    InvImpliesSchema(db);
    var to := SendTarget(cfg, db, ev);
    SendEffect(db, ev.from, to, db.peers[ev.from].groupId, ev.text, ev.now, db.nextId);
  }

  ghost function SendTarget(cfg: Config, db: Db, ev: Event): (to: Token)
    requires ev.Send? && ev.from in db.peers && exists t :: IsTarget(db, t, ev.toId, db.peers[ev.from].groupId)
    ensures IsTarget(db, to, ev.toId, db.peers[ev.from].groupId)
    ensures EventPlan(cfg, db, ev).stmts == SendStmts(ev.from, to, db.peers[ev.from].groupId, ev.text, ev.now)
  {
    SendPlan(db, ev.from, ev.toId, ev.text, ev.now).stmts[0].to
  }

  // A pending message stops being pending in an event exactly when that event is one of its four causes.
  lemma DepartsIffCaused(cfg: Config, db: Db, ev: Event, id: nat)
    requires Inv(db) && Enabled(cfg, db, ev) && IsPending(db, id)
    ensures !IsPending(Next(cfg, db, ev), id) <==> CauseOf(cfg, db, ev, id).Some?
  {
    if ev.Poll? {
      PollDeparts(cfg, db, ev, id);
    } else if ev.Send? {
      SendDeparts(cfg, db, ev, id);
    } else if ev.Purge? {
      PurgeDeparts(cfg, db, ev, id);
    } else if ev.Unregister? || ev.Clean? {
      EraseDeparts(cfg, db, ev, id);
    } else if ev.Announce? {
      AnnounceKeeps(cfg, db, ev, id);
    } else {
      NobodyDeparts(cfg, db, ev);
    }
  }

  lemma PollDeparts(cfg: Config, db: Db, ev: Event, id: nat)
    requires Enabled(cfg, db, ev) && IsPending(db, id) && ev.Poll?
    ensures !IsPending(Next(cfg, db, ev), id) <==> CauseOf(cfg, db, ev, id).Some?
  {
    MarkEffect(db, ev.rows, id);
  }

  lemma EraseDeparts(cfg: Config, db: Db, ev: Event, id: nat)
    requires Enabled(cfg, db, ev) && IsPending(db, id) && (ev.Unregister? || ev.Clean?)
    ensures !IsPending(Next(cfg, db, ev), id) <==> CauseOf(cfg, db, ev, id).Some?
  {
    if ev.Unregister? {
      EraseGuarded(db, ev.token);
    } else {
      CleanDeparts(db, ev.dead, ev.expired, id);
    }
  }

  lemma AnnounceKeeps(cfg: Config, db: Db, ev: Event, id: nat)
    requires Inv(db) && Enabled(cfg, db, ev) && IsPending(db, id) && ev.Announce?
    ensures IsPending(Next(cfg, db, ev), id)
  {
    hide TextLess, Iso, Sql;
    assert MessageOk(db, id);
    AnnounceEffect(db, ev.targets, ev.groupId, ev.text, ev.now, id);
  }

  lemma PurgeDeparts(cfg: Config, db: Db, ev: Event, id: nat)
    requires Enabled(cfg, db, ev) && IsPending(db, id) && ev.Purge?
    ensures !IsPending(Next(cfg, db, ev), id) <==> CauseOf(cfg, db, ev, id).Some?
  {
    hide TextLess, Iso, Sql;
    PurgeNext(cfg, db, ev.now);
    PurgeEffect(db, ev.now - cfg.messageTtl, id);
  }

  lemma NobodyDeparts(cfg: Config, db: Db, ev: Event)
    requires Enabled(cfg, db, ev)
    requires ev.Register? || ev.Heartbeat? || ev.SetSummary? || ev.Disconnect? || ev.SetId? || ev.Sweep?
    ensures Next(cfg, db, ev).messages == db.messages
  {
    if ev.Register? {
      RegisterTouchesNone(cfg, db, ev.req, ev.minted, ev.now, ev.stamp, ev.alive);
    }
    UntouchedMessages(db, EventPlan(cfg, db, ev).stmts);
  }

  lemma RegisterTouchesNone(cfg: Config, db: Db, req: RegisterRequest, minted: Token, now: Instant, stamp: nat,
                            alive: set<int>)
    ensures forall s :: s in RegisterPlan(cfg, db, req, minted, now, stamp, alive).stmts ==> !TouchesMessages(s)
  {
    RegisterKinds(cfg, db, req, minted, now, stamp, alive);
  }

  // The ack takes exactly the addressee's earlier pending messages in the group.
  lemma AckedIff(m: Message, q: Message, from: Token, g: GroupId, now: Instant)
    requires !m.delivered && q == Acked(m, from, g, now)
    ensures q.delivered <==> m.to == from && m.groupId == g && TextLess(Iso(m.sentAt), Iso(now))
  {
  }

  lemma SentAcks(db: Db, from: Token, to: Token, g: GroupId, text: string, now: Instant, id: nat)
    requires from in db.peers && to in db.peers && db.nextId !in db.messages && IsPending(db, id)
    ensures var m := db.messages[id];
            !IsPending(Exec(db, SendStmts(from, to, g, text, now)).db, id) <==>
              m.to == from && m.groupId == g && TextLess(Iso(m.sentAt), Iso(now))
  {
    hide TextLess, Iso, SendStmts;
    SendEffect(db, from, to, g, text, now, id);
    AckedIff(db.messages[id], Exec(db, SendStmts(from, to, g, text, now)).db.messages[id], from, g, now);
  }

  lemma SendDeparts(cfg: Config, db: Db, ev: Event, id: nat)
    requires Inv(db) && Enabled(cfg, db, ev) && IsPending(db, id) && ev.Send?
    ensures !IsPending(Next(cfg, db, ev), id) <==> CauseOf(cfg, db, ev, id).Some?
  {
    hide TextLess, Iso, SchemaHolds, SendStmts, Acked;
    InvImpliesSchema(db);
    assert MessageOk(db, id);
    if ev.from in db.peers && exists t :: IsTarget(db, t, ev.toId, db.peers[ev.from].groupId) {
      var g := db.peers[ev.from].groupId;
      var to := SendTarget(cfg, db, ev);
      SentAcks(db, ev.from, to, g, ev.text, ev.now, id);
    }
  }

  lemma CleanDeparts(db: Db, dead: seq<Token>, expired: seq<Token>, id: nat)
    requires IsPending(db, id)
    ensures IsPending(Exec(db, DemoteStmts(dead) + EraseAllStmts(expired)).db, id)
        <==> db.messages[id].from !in expired && db.messages[id].to !in expired
  {
    DemoteGuarded(db, dead);
    ExecAppend(db, DemoteStmts(dead), EraseAllStmts(expired));
    NoneTouch(dead);
    UntouchedMessages(db, DemoteStmts(dead));
    EraseAllEffect(Exec(db, DemoteStmts(dead)).db, expired, id);
  }

  lemma {:induction false} NoneTouch(ts: seq<Token>)
    ensures forall s :: s in DemoteStmts(ts) ==> !TouchesMessages(s)
  {
    if ts != [] {
      NoneTouch(ts[1..]);
    }
  }

  // ----- counting over a run -----

  // The tables after each event of the run, the starting ones first.
  ghost function Trail(cfg: Config, db: Db, evs: seq<Event>): (trail: seq<Db>)
    requires IsRun(cfg, db, evs)
    ensures |trail| == |evs| + 1
    decreases evs
  {
    [db] + if evs == [] then [] else Trail(cfg, Next(cfg, db, evs[0]), evs[1..])
  }

  lemma {:induction false} TrailEnds(cfg: Config, db: Db, evs: seq<Event>)
    requires IsRun(cfg, db, evs)
    ensures var t := Trail(cfg, db, evs); t[0] == db && t[|evs|] == After(cfg, db, evs)
    decreases evs
  {
    if evs != [] {
      TrailEnds(cfg, Next(cfg, db, evs[0]), evs[1..]);
    }
  }

  ghost predicate Forward(trail: seq<Db>, id: nat) {
    forall i :: 0 <= i < |trail| - 1 ==> LedgerStep(trail[i], trail[i + 1], id)
  }

  lemma {:induction false} TrailMovesForward(cfg: Config, db: Db, evs: seq<Event>, id: nat)
    requires Inv(db) && IsRun(cfg, db, evs)
    ensures Forward(Trail(cfg, db, evs), id)
    decreases evs
  {
    if evs != [] {
      var e := Next(cfg, db, evs[0]);
      EventKeepsInv(cfg, db, evs[0]);
      EventLedger(cfg, db, evs[0], id);
      TrailEnds(cfg, e, evs[1..]);
      TrailMovesForward(cfg, e, evs[1..], id);
      var rest := Trail(cfg, e, evs[1..]);
      forall i | 0 <= i < |evs| ensures LedgerStep(([db] + rest)[i], ([db] + rest)[i + 1], id) {
        assert i > 0 ==> LedgerStep(rest[i - 1], rest[i], id);
      }
    }
  }

  // How often the message goes from pending to not pending along the trail.
  function Departures(trail: seq<Db>, id: nat): nat {
    if |trail| < 2 then 0
    else (if IsPending(trail[0], id) && !IsPending(trail[1], id) then 1 else 0) + Departures(trail[1..], id)
  }

  lemma {:induction false} ForwardDepartsOnce(trail: seq<Db>, id: nat)
    requires trail != [] && Forward(trail, id)
    ensures Departures(trail, id) <= 1
    ensures FateOf(trail[0], id) == Pending ==>
        Departures(trail, id) == if FateOf(trail[|trail| - 1], id) == Pending then 0 else 1
    ensures Rank(FateOf(trail[0], id)) > Rank(Pending) ==> Departures(trail, id) == 0
    ensures Rank(FateOf(trail[0], id)) <= Rank(FateOf(trail[|trail| - 1], id))
  {
    if |trail| >= 2 {
      assert trail[1..][|trail| - 2] == trail[|trail| - 1];
      assert LedgerStep(trail[0], trail[1], id);
      assert Forward(trail[1..], id) by {
        forall i | 0 <= i < |trail| - 2 ensures LedgerStep(trail[1..][i], trail[1..][i + 1], id) {
          assert LedgerStep(trail[i + 1], trail[i + 2], id);
        }
      }
      ForwardDepartsOnce(trail[1..], id);
    }
  }

  // A message leaves the pending state at most once in any run; one pending at the start has left
  // exactly if it is not pending at the end; one past pending never leaves it again.
  lemma LeavesPendingOnce(cfg: Config, db: Db, evs: seq<Event>, id: nat)
    requires Inv(db) && IsRun(cfg, db, evs)
    ensures Departures(Trail(cfg, db, evs), id) <= 1
    ensures FateOf(db, id) == Pending ==>
              Departures(Trail(cfg, db, evs), id) == if FateOf(After(cfg, db, evs), id) == Pending then 0 else 1
    ensures Rank(FateOf(db, id)) > Rank(Pending) ==> Departures(Trail(cfg, db, evs), id) == 0
  {
    TrailEnds(cfg, db, evs);
    TrailMovesForward(cfg, db, evs, id);
    ForwardDepartsOnce(Trail(cfg, db, evs), id);
  }

  // How many polls of the run returned this id.
  function TimesReturned(evs: seq<Event>, id: nat): nat {
    if evs == [] then 0
    else (if evs[0].Poll? && id in evs[0].rows then 1 else 0) + TimesReturned(evs[1..], id)
  }

  lemma {:induction false} ReturnedOnceMore(evs: seq<Event>, ev: Event, id: nat)
    ensures TimesReturned(evs + [ev], id) == TimesReturned(evs, id) + if ev.Poll? && id in ev.rows then 1 else 0
  {
    if evs == [] {
      assert [] + [ev] == [ev] && [ev][1..] == [];
    } else {
      assert (evs + [ev])[0] == evs[0] && (evs + [ev])[1..] == evs[1..] + [ev];
      ReturnedOnceMore(evs[1..], ev, id);
    }
  }

  lemma PolledLeaves(cfg: Config, db: Db, ev: Event, id: nat)
    requires Enabled(cfg, db, ev) && ev.Poll? && id in ev.rows
    ensures IsPending(db, id) && !IsPending(Next(cfg, db, ev), id)
  {
    assert id in PendingFor(db, ev.token);
    MarkEffect(db, ev.rows, id);
  }

  lemma {:induction false} ReturnsAreDepartures(cfg: Config, db: Db, evs: seq<Event>, id: nat)
    requires Inv(db) && IsRun(cfg, db, evs)
    ensures TimesReturned(evs, id) <= Departures(Trail(cfg, db, evs), id)
    decreases evs
  {
    hide TextLess, Iso, Sql;
    if evs != [] {
      var e := Next(cfg, db, evs[0]);
      var rest := Trail(cfg, e, evs[1..]);
      EventKeepsInv(cfg, db, evs[0]);
      TrailEnds(cfg, e, evs[1..]);
      assert ([db] + rest)[1..] == rest;
      if evs[0].Poll? && id in evs[0].rows {
        PolledLeaves(cfg, db, evs[0], id);
      }
      ReturnsAreDepartures(cfg, e, evs[1..], id);
    }
  }

  // No id is returned by two polls of a run, and one that has left pending by any cause by none.
  lemma ReturnedByOnePoll(cfg: Config, db: Db, evs: seq<Event>, id: nat)
    requires Inv(db) && IsRun(cfg, db, evs)
    ensures TimesReturned(evs, id) <= 1
    ensures Rank(FateOf(db, id)) > Rank(Pending) ==> TimesReturned(evs, id) == 0
  {
    LeavesPendingOnce(cfg, db, evs, id);
    ReturnsAreDepartures(cfg, db, evs, id);
  }
}
