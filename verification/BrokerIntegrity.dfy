// Referential integrity over whole runs, statement by statement.
module BrokerIntegrity {
  import opened Timestamps
  import opened BrokerDb
  import opened BrokerHandlers
  import DefaultId

  // p holds at the start, between any two statements of the run, and at the end.
  ghost predicate Throughout(cfg: Config, db: Db, evs: seq<Event>, p: Db -> bool)
    requires IsRun(cfg, db, evs)
    decreases evs
  {
    p(db) && (evs != [] ==>
      && (forall d :: d in During(cfg, db, evs[0]) ==> p(d))
      && Throughout(cfg, Next(cfg, db, evs[0]), evs[1..], p))
  }

  lemma EventKeepsInv(cfg: Config, db: Db, ev: Event)
    requires Inv(db) && Enabled(cfg, db, ev)
    ensures forall d :: d in During(cfg, db, ev) ==> Inv(d)
    ensures Inv(Next(cfg, db, ev))
  {
    EventGuarded(cfg, db, ev);
    GuardedKeepsInv(db, EventPlan(cfg, db, ev).stmts);
  }

  lemma {:induction false} RunKeepsInv(cfg: Config, db: Db, evs: seq<Event>)
    requires Inv(db) && IsRun(cfg, db, evs)
    ensures Inv(After(cfg, db, evs))
    ensures Throughout(cfg, db, evs, d => Inv(d))
    decreases evs
  {
    if evs != [] {
      EventKeepsInv(cfg, db, evs[0]);
      RunKeepsInv(cfg, Next(cfg, db, evs[0]), evs[1..]);
    }
  }

  // ----- runs, one event more -----

  lemma {:induction false} RunSnoc(cfg: Config, db: Db, evs: seq<Event>, ev: Event)
    requires IsRun(cfg, db, evs) && Enabled(cfg, After(cfg, db, evs), ev)
    ensures IsRun(cfg, db, evs + [ev]) && After(cfg, db, evs + [ev]) == Next(cfg, After(cfg, db, evs), ev)
    decreases evs
  {
    hide Enabled, Next;
    if evs == [] {
      assert [] + [ev] == [ev] && [ev][1..] == [];
      assert IsRun(cfg, Next(cfg, db, ev), []);
    } else {
      assert (evs + [ev])[0] == evs[0] && (evs + [ev])[1..] == evs[1..] + [ev];
      RunSnoc(cfg, Next(cfg, db, evs[0]), evs[1..], ev);
    }
  }

  // ----- integrity from the fresh database on -----

  // From the freshly created database on, the schema's constraints and the rest of the invariant hold
  // in every state the tables ever go through.
  lemma EveryStatementKeepsIntegrity(cfg: Config, boot: Instant, evs: seq<Event>)
    requires IsRun(cfg, InitDb(boot), evs)
    ensures Throughout(cfg, InitDb(boot), evs, d => Inv(d) && SchemaHolds(d))
  {
    InitEstablishesInv(boot);
    RunKeepsInv(cfg, InitDb(boot), evs);
    AlsoSchema(cfg, InitDb(boot), evs);
  }

  lemma {:induction false} AlsoSchema(cfg: Config, db: Db, evs: seq<Event>)
    requires IsRun(cfg, db, evs) && Throughout(cfg, db, evs, d => Inv(d))
    ensures Throughout(cfg, db, evs, d => Inv(d) && SchemaHolds(d))
    decreases evs
  {
    InvImpliesSchema(db);
    if evs != [] {
      forall d | d in During(cfg, db, evs[0]) ensures SchemaHolds(d) {
        InvImpliesSchema(d);
      }
      AlsoSchema(cfg, Next(cfg, db, evs[0]), evs[1..]);
    }
  }

  // The broker answers 500 exactly when a registration has run out of names or an announcement has
  // targets but no deck row to come from.
  lemma ServerErrorIff(cfg: Config, db: Db, ev: Event)
    requires Inv(db) && Enabled(cfg, db, ev)
    ensures ReplyTo(cfg, db, ev) == Failed(500) <==> Refusable(cfg, db, ev)
  {
    hide EventPlan, Refusable;
    PlanNeverFails(cfg, db, ev);
    EventGuarded(cfg, db, ev);
  }

  lemma {:induction false} ImageSize(ts: set<Token>, f: Token -> string) returns (names: set<string>)
    ensures |names| <= |ts|
    ensures forall t :: t in ts ==> f(t) in names
  {
    if ts == {} {
      names := {};
    } else {
      var t :| t in ts;
      var rest := ImageSize(ts - {t}, f);
      names := rest + {f(t)};
    }
  }

  lemma NamesAtMostRows(db: Db, g: GroupId)
    ensures |TakenNames(db, g)| <= |GroupRows(db, g)|
  {
    var names := ImageSize(GroupRows(db, g), t => if t in db.peers then db.peers[t].peerId else "");
    assert TakenNames(db, g) <= names by {
      forall n | n in TakenNames(db, g) ensures n in names {
        var t :| t in db.peers && db.peers[t].groupId == g && db.peers[t].peerId == n;
        assert t in GroupRows(db, g);
      }
    }
    DefaultId.SubsetSize(TakenNames(db, g), names);
  }

  // A group of fewer than 1000 rows, active or dormant, always has a name left: the registration is
  // never refused and the derived name is nobody's.
  lemma SmallGroupsAlwaysRegister(cfg: Config, db: Db, ev: Event)
    requires Inv(db) && Enabled(cfg, db, ev) && ev.Register?
    requires |GroupRows(db, ev.req.groupId)| < DefaultId.MAX_SUFFIX
    ensures ReplyTo(cfg, db, ev) != Failed(500)
    ensures !NameTaken(db, NewName(cfg, db, ev.req, ev.stamp), ev.req.groupId, ev.minted)
  {
    ServerErrorIff(cfg, db, ev);
    AllIssued(db);
    var taken, base := TakenNames(db, ev.req.groupId), DefaultId.BaseId(cfg.lower, ev.req.host, ev.req.cwd);
    NamesAtMostRows(db, ev.req.groupId);
    DefaultId.FewNamesLeaveOneFree(taken, base, ev.stamp);
    DefaultId.DerivedIdTakenIff(taken, base, ev.stamp);
    TakenIffNameTaken(db, NewName(cfg, db, ev.req, ev.stamp), ev.req.groupId, ev.minted);
  }

  // Two branches of the source are unreachable: a remembered session whose peer row is gone, and a
  // stored message whose sender is missing.
  lemma NoDanglingReference(cfg: Config, boot: Instant, evs: seq<Event>)
    requires IsRun(cfg, InitDb(boot), evs)
    ensures var db := After(cfg, InitDb(boot), evs);
            && (forall k :: k in db.sessions ==> db.sessions[k].token in db.peers)
            && (forall id :: id in db.messages ==> db.messages[id].from in db.peers)
  {
    InitEstablishesInv(boot);
    RunKeepsInv(cfg, InitDb(boot), evs);
    InvImpliesSchema(After(cfg, InitDb(boot), evs));
  }
}
