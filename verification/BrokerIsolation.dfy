// Group isolation over whole runs.
module BrokerIsolation {
  import opened Options
  import opened Timestamps
  import opened BrokerDb
  import opened BrokerHandlers
  import opened BrokerIntegrity

  // What later states keep of earlier ones: no row changes group, no token comes back once its row is
  // gone, and a planted group keeps its hash.
  ghost predicate Keeps(d: Db, e: Db) {
    && d.issued <= e.issued
    && (forall t :: t in d.issued && t in e.peers ==> t in d.peers && e.peers[t].groupId == d.peers[t].groupId)
    && (forall g :: g in d.groups ==> g in e.groups && e.groups[g] == d.groups[g])
  }

  lemma IssuedAndGroupsGrow(db: Db, s: Stmt)
    requires Safe(db, s)
    ensures db.issued <= Apply(db, s).issued
    ensures forall g :: g in db.groups ==> g in Apply(db, s).groups && Apply(db, s).groups[g] == db.groups[g]
  {
    hide TextLess, Iso, NameTaken;
    assert Apply(db, s).groups == db.groups || s.InsertGroup?;
  }

  lemma StatementKeeps(db: Db, s: Stmt)
    requires Safe(db, s)
    ensures Keeps(db, Apply(db, s))
  {
    hide Apply, Safe;
    IssuedAndGroupsGrow(db, s);
    forall t | t in db.issued && t in Apply(db, s).peers
      ensures t in db.peers && Apply(db, s).peers[t].groupId == db.peers[t].groupId
    {
      RowKeepsGroup(db, s, t);
    }
  }

  lemma RowKeepsGroup(db: Db, s: Stmt, t: Token)
    requires Safe(db, s) && t in db.issued && t in Apply(db, s).peers
    ensures t in db.peers && Apply(db, s).peers[t].groupId == db.peers[t].groupId
  {
    hide TextLess, Iso, NameTaken;
    if IsRowUpdate(s) {
      RowUpdateKeepsGroups(db, s);
      hide Apply;
    }
  }

  lemma KeepsTransitive(a: Db, b: Db, c: Db)
    requires Keeps(a, b) && Keeps(b, c)
    ensures Keeps(a, c)
  {
  }

  lemma {:induction false} StatementsKeep(db: Db, ss: seq<Stmt>)
    requires Inv(db) && Guarded(db, ss)
    ensures forall d :: d in States(db, ss) ==> Keeps(db, d)
    ensures Keeps(db, Exec(db, ss).db)
    decreases ss
  {
    hide TextLess, Iso, Sql;
    if ss != [] && Accepts(db, ss[0]) {
      var e := Apply(db, ss[0]);
      SafeKeepsInv(db, ss[0]);
      StatementKeeps(db, ss[0]);
      StatementsKeep(e, ss[1..]);
      forall d | d in States(e, ss[1..]) ensures Keeps(db, d) {
        KeepsTransitive(db, e, d);
      }
      KeepsTransitive(db, e, Exec(e, ss[1..]).db);
    }
  }

  lemma EventKeeps(cfg: Config, db: Db, ev: Event)
    requires Inv(db) && Enabled(cfg, db, ev)
    ensures forall d :: d in During(cfg, db, ev) ==> Keeps(db, d)
    ensures Keeps(db, Next(cfg, db, ev))
  {
    EventGuarded(cfg, db, ev);
    StatementsKeep(db, EventPlan(cfg, db, ev).stmts);
  }

  lemma {:induction false} GroupsAndHashesNeverChange(cfg: Config, start: Db, db: Db, evs: seq<Event>)
    requires Inv(db) && IsRun(cfg, db, evs) && Keeps(start, db)
    ensures Throughout(cfg, db, evs, d => Keeps(start, d))
    ensures Keeps(start, After(cfg, db, evs))
    decreases evs
  {
    if evs != [] {
      EventKeepsInv(cfg, db, evs[0]);
      EventKeeps(cfg, db, evs[0]);
      forall d | d in During(cfg, db, evs[0]) ensures Keeps(start, d) {
        KeepsTransitive(start, db, d);
      }
      KeepsTransitive(start, db, Next(cfg, db, evs[0]));
      GroupsAndHashesNeverChange(cfg, start, Next(cfg, db, evs[0]), evs[1..]);
    }
  }

  // A registration that succeeds presented the hash its non-default group holds from then on.
  lemma RegistrationPresentedTheHash(cfg: Config, db: Db, ev: Event)
    requires Inv(db) && Enabled(cfg, db, ev) && ev.Register? && ReplyTo(cfg, db, ev).Registered?
    ensures var g, after := ev.req.groupId, Next(cfg, db, ev);
            g in after.groups && (g != DEFAULT_GROUP ==> after.groups[g] == ev.req.secretHash)
  {
    var Register(req, minted, now, stamp, alive) := ev;
    GroupStmtsFrame(cfg, db, req, minted, now, stamp, alive);
    var e := Exec(db, GroupStmts(db, req)).db;
    var p := IdentityPlan(cfg, db, req, minted, now, stamp, alive);
    IdentityGuarded(cfg, e, req, minted, now, stamp, alive);
    ExecAppend(db, GroupStmts(db, req), p.stmts);
    StatementsKeep(e, p.stmts);
  }

  // Hence everyone who ever joined a group during a run knew one and the same secret hash.
  lemma OneSecretPerGroup(cfg: Config, db: Db, first: Event, between: seq<Event>, second: Event)
    requires Inv(db) && Enabled(cfg, db, first) && IsRun(cfg, Next(cfg, db, first), between)
    requires Enabled(cfg, After(cfg, Next(cfg, db, first), between), second)
    requires first.Register? && second.Register? && first.req.groupId == second.req.groupId != DEFAULT_GROUP
    requires ReplyTo(cfg, db, first).Registered?
    requires ReplyTo(cfg, After(cfg, Next(cfg, db, first), between), second).Registered?
    ensures first.req.secretHash == second.req.secretHash
  {
    var d1 := Next(cfg, db, first);
    EventKeepsInv(cfg, db, first);
    RegistrationPresentedTheHash(cfg, db, first);
    RunKeepsInv(cfg, d1, between);
    GroupsAndHashesNeverChange(cfg, d1, d1, between);
    var d2 := After(cfg, d1, between);
    RegistrationPresentedTheHash(cfg, d2, second);
    EventKeeps(cfg, d2, second);
  }

  // Everything a poll, peek or flush can show a caller is of the caller's own group, and comes from a
  // member of it or from the deck.
  lemma BacklogStaysInGroup(db: Db, t: Token, id: nat)
    requires Inv(db) && id in PendingFor(db, t)
    ensures t in db.peers && db.messages[id].groupId == db.peers[t].groupId
    ensures db.messages[id].from in db.peers
    ensures db.messages[id].from != DECK_TOKEN ==> db.peers[db.messages[id].from].groupId == db.peers[t].groupId
  {
    assert MessageOk(db, id);
  }

  // The group filter of the ack never excludes anything: without it the same rows are marked.
  lemma AckGroupFilterIsRedundant(db: Db, t: Token, before: Instant)
    requires Inv(db) && t in db.peers
    ensures Apply(db, AckPrior(t, db.peers[t].groupId, before)).messages
         == map id | id in db.messages ::
              var m := db.messages[id];
              if m.to == t && !m.delivered && TextLess(Iso(m.sentAt), Iso(before)) then m.(delivered := true) else m
  {
    forall id | id in db.messages && db.messages[id].to == t ensures db.messages[id].groupId == db.peers[t].groupId {
      assert MessageOk(db, id);
    }
  }

  // ----- list_peers -----

  datatype Scope = Machine | Directory | Repo | Unknown

  predicate InScope(p: Peer, scope: Scope, cwd: string, gitRoot: Option<string>, projectKey: Option<string>) {
    match scope
    case Machine => true
    case Directory => p.cwd == cwd
    case Repo =>
      if projectKey.Some? && projectKey.value != "" then p.projectKey == projectKey
      else if gitRoot.Some? && gitRoot.value != "" then p.gitRoot == gitRoot
      else p.cwd == cwd
    case Unknown => false
  }

  function ListPeers(db: Db, caller: Token, scope: Scope, cwd: string, gitRoot: Option<string>,
                     projectKey: Option<string>): set<Token> {
    if caller !in db.peers then {}
    else set t | t in db.peers && db.peers[t].groupId == db.peers[caller].groupId && db.peers[t].status == Active
                 && InScope(db.peers[t], scope, cwd, gitRoot, projectKey) && t != caller
  }

  // Another active peer of the caller's group.
  ghost predicate IsColleague(db: Db, caller: Token, t: Token) {
    && caller in db.peers && t in db.peers && t != caller
    && db.peers[t].groupId == db.peers[caller].groupId && db.peers[t].status == Active
  }

  predicate Given(x: Option<string>) { x.Some? && x.value != "" }

  // Exactly who is listed: on the machine all colleagues, in the directory those with the same one, in
  // the repo those with the same project key, or failing that git root, or failing that directory.
  lemma ListedIff(db: Db, caller: Token, t: Token, cwd: string, gitRoot: Option<string>, projectKey: Option<string>)
    ensures t in ListPeers(db, caller, Machine, cwd, gitRoot, projectKey) <==> IsColleague(db, caller, t)
    ensures t in ListPeers(db, caller, Directory, cwd, gitRoot, projectKey)
        <==> IsColleague(db, caller, t) && db.peers[t].cwd == cwd
    ensures Given(projectKey) ==>
              (t in ListPeers(db, caller, Repo, cwd, gitRoot, projectKey)
          <==> IsColleague(db, caller, t) && db.peers[t].projectKey == projectKey)
    ensures !Given(projectKey) && Given(gitRoot) ==>
              (t in ListPeers(db, caller, Repo, cwd, gitRoot, projectKey)
          <==> IsColleague(db, caller, t) && db.peers[t].gitRoot == gitRoot)
    ensures !Given(projectKey) && !Given(gitRoot) ==>
              (t in ListPeers(db, caller, Repo, cwd, gitRoot, projectKey)
          <==> IsColleague(db, caller, t) && db.peers[t].cwd == cwd)
    ensures t !in ListPeers(db, caller, Unknown, cwd, gitRoot, projectKey)
    ensures caller !in db.peers ==> forall s :: ListPeers(db, caller, s, cwd, gitRoot, projectKey) == {}
  {
  }

  // Over any run: whoever is listed to a caller, in whatever scope, is active, neither the caller nor
  // the deck, and shares the group both were first registered in, at every earlier point.
  lemma ListingStaysInGroup(cfg: Config, start: Db, evs: seq<Event>, caller: Token, t: Token,
                            scope: Scope, cwd: string, gitRoot: Option<string>, projectKey: Option<string>)
    requires Inv(start) && IsRun(cfg, start, evs) && caller in start.issued && t in start.issued
    requires t in ListPeers(After(cfg, start, evs), caller, scope, cwd, gitRoot, projectKey)
    ensures t != caller && t != DECK_TOKEN && After(cfg, start, evs).peers[t].status == Active
    ensures t in start.peers && caller in start.peers && start.peers[t].groupId == start.peers[caller].groupId
  {
    RunKeepsInv(cfg, start, evs);
    GroupsAndHashesNeverChange(cfg, start, start, evs);
    assert PeerOk(After(cfg, start, evs), t);
  }
}
