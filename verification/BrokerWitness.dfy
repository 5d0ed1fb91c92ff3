// Runs from a fresh database that reach the exceptional outcomes: both server errors, and a peer that
// does not get its token back.
module BrokerWitness {
  import opened Options
  import opened Timestamps
  import opened BrokerDb
  import opened BrokerHandlers
  import opened BrokerIntegrity
  import opened BrokerIdentity
  import DefaultId
  import JsText

  // ----- a registration that inserts a row -----

  ghost predicate Inserted(db: Db, after: Db, req: RegisterRequest, minted: Token, name: string, now: Instant) {
    var k := RequestKey(req);
    && after.peers == db.peers[minted := RowFor(req, name, now)] && after.issued == db.issued + {minted}
    && after.sessions == if k in db.sessions then db.sessions else db.sessions[k := Session(minted, req.groupId)]
  }

  lemma NewRowExec(cfg: Config, db: Db, req: RegisterRequest, minted: Token, name: string, now: Instant,
                   alive: set<int>)
    requires Inv(db) && !Resumes(cfg, db, req, alive)
    ensures var p := PlanUnder(cfg, db, req, minted, name, now, alive);
            && p.reply == Registered(name, minted)
            && (Exec(db, p.stmts).ok ==>
                  Inserted(db, Exec(db, p.stmts).db, req, minted, name, now) &&
                    Exec(db, p.stmts).db.groups == db.groups)
  {
    hide TextLess, Iso, Sql;
    var k, insert := RequestKey(req), InsertPeer(minted, RowFor(req, name, now));
    if k in db.sessions {
      SessionResolves(db, k);
      Unfold(db, insert, []);
      assert [insert] == [insert] + [];
    } else {
      var upsert := UpsertSession(k, minted);
      Unfold(db, insert, [upsert]);
      Unfold(Apply(db, insert), upsert, []);
      assert [upsert] == [upsert] + [];
    }
  }

  lemma RegisterInserts(cfg: Config, db: Db, ev: Event)
    requires Inv(db) && Enabled(cfg, db, ev) && ev.Register? && Authorised(db, ev.req.groupId, ev.req.secretHash)
    requires !Resumes(cfg, db, ev.req, ev.alive) && !NamesExhausted(cfg, db, ev.req, ev.stamp, ev.alive)
    ensures Inserted(db, Next(cfg, db, ev), ev.req, ev.minted, NewName(cfg, db, ev.req, ev.stamp), ev.now)
    ensures ev.req.groupId != DEFAULT_GROUP ==>
              var gs := Next(cfg, db, ev).groups; ev.req.groupId in gs && gs[ev.req.groupId] == ev.req.secretHash
    ensures ReplyTo(cfg, db, ev) == Registered(NewName(cfg, db, ev.req, ev.stamp), ev.minted)
  {
    GroupStmtsFrame(cfg, db, ev.req, ev.minted, ev.now, ev.stamp, ev.alive);
    var e, p := RegisterExec(cfg, db, ev);
    RegisterReply(cfg, db, ev);
    EventGuarded(cfg, db, ev);
    NewRowExec(cfg, e, ev.req, ev.minted, NewName(cfg, e, ev.req, ev.stamp), ev.now, ev.alive);
    NewRowExec(cfg, db, ev.req, ev.minted, NewName(cfg, db, ev.req, ev.stamp), ev.now, ev.alive);
  }

  // ----- an announcement without the deck row -----

  // Somebody unregisters the deck's reserved token; a peer registers; announcing to it fails.
  lemma AnnounceWithoutDeckFails(cfg: Config, boot: Instant, now: Instant, req: RegisterRequest, t: Token, stamp: nat,
                                 alive: set<int>, text: string)
    requires Printable(now) && t != DECK_TOKEN && JsText.Trim(text) != []
    ensures var evs := [Unregister(DECK_TOKEN), Register(req, t, now, stamp, alive)];
            var ev := Announce(req.groupId, req.secretHash, text, None, [t], now);
            && IsRun(cfg, InitDb(boot), evs)
            && Enabled(cfg, After(cfg, InitDb(boot), evs), ev)
            && ReplyTo(cfg, After(cfg, InitDb(boot), evs), ev) == Failed(500)
  {
    hide Next, Enabled;
    var e1, e2 := Unregister(DECK_TOKEN), Register(req, t, now, stamp, alive);
    var d0 := InitDb(boot);
    DeckGone(cfg, boot);
    var d1 := Next(cfg, d0, e1);
    LoneRegistration(cfg, d1, req, t, now, stamp, alive);
    var d2 := Next(cfg, d1, e2);
    RunSnoc(cfg, d0, [], e1);
    RunSnoc(cfg, d0, [e1], e2);
    assert [] + [e1] == [e1] && [e1] + [e2] == [e1, e2];
    AnnounceFails(cfg, d2, req, t, text, now);
  }

  ghost predicate Deserted(db: Db) {
    && Inv(db) && db.peers == map[] && db.sessions == map[]
    && db.groups == map[DEFAULT_GROUP := None] && db.issued == {DECK_TOKEN}
  }

  ghost predicate Alone(db: Db, req: RegisterRequest, t: Token) {
    && Inv(db) && db.peers.Keys == {t} && db.peers[t].groupId == req.groupId && db.peers[t].status == Active
    && Authorised(db, req.groupId, req.secretHash)
  }

  lemma LoneRegistration(cfg: Config, db: Db, req: RegisterRequest, t: Token, now: Instant, stamp: nat, alive: set<int>)
    requires Deserted(db) && Printable(now) && t != DECK_TOKEN
    ensures var ev := Register(req, t, now, stamp, alive); Enabled(cfg, db, ev) && Alone(Next(cfg, db, ev), req, t)
  {
    hide EventPlan, NamesExhausted, NewName, Next;
    var ev := Register(req, t, now, stamp, alive);
    FirstIsNotExhausted(cfg, db, req, stamp, alive);
    EventKeepsInv(cfg, db, ev);
    RegisterInserts(cfg, db, ev);
    assert Next(cfg, db, ev).peers == map[t := RowFor(req, NewName(cfg, db, req, stamp), now)];
  }

  lemma DeckGone(cfg: Config, boot: Instant)
    ensures Enabled(cfg, InitDb(boot), Unregister(DECK_TOKEN))
    ensures Deserted(Next(cfg, InitDb(boot), Unregister(DECK_TOKEN)))
  {
    InitEstablishesInv(boot);
    EventKeepsInv(cfg, InitDb(boot), Unregister(DECK_TOKEN));
    EraseGuarded(InitDb(boot), DECK_TOKEN);
  }

  lemma FirstIsNotExhausted(cfg: Config, db: Db, req: RegisterRequest, stamp: nat, alive: set<int>)
    requires TakenNames(db, req.groupId) == {}
    ensures !NamesExhausted(cfg, db, req, stamp, alive)
  {
    var base := DefaultId.BaseId(cfg.lower, req.host, req.cwd);
    assert DefaultId.Candidate(base, 1) !in TakenNames(db, req.groupId);
  }

  lemma AnnounceFails(cfg: Config, db: Db, req: RegisterRequest, t: Token, text: string, now: Instant)
    requires Alone(db, req, t) && Printable(now) && JsText.Trim(text) != [] && t != DECK_TOKEN
    ensures var ev := Announce(req.groupId, req.secretHash, text, None, [t], now);
            Enabled(cfg, db, ev) && ReplyTo(cfg, db, ev) == Failed(500)
  {
    var ev := Announce(req.groupId, req.secretHash, text, None, [t], now);
    assert t in db.peers.Keys;
    assert DECK_TOKEN !in db.peers.Keys;
    forall x ensures x in [t] <==> x in AnnounceTargets(db, req.groupId, None) {
      assert x in db.peers ==> x in db.peers.Keys;
    }
    ServerErrorIff(cfg, db, ev);
  }

  // ----- a crowd on one key -----

  // The tokens minted for it: numerals, so pairwise distinct and none of them the deck's.
  function Minted(n: nat): Token { DefaultId.ToRadix(n, 10) }

  lemma MintedIsNew(n: nat)
    ensures Minted(n) != DECK_TOKEN && forall i: nat :: i < n ==> Minted(i) != Minted(n)
  {
    DefaultId.LastNumeral(n);
    assert Minted(n)[|Minted(n)| - 1] != DECK_TOKEN[|DECK_TOKEN| - 1];
    forall i: nat | i < n ensures Minted(i) != Minted(n) {
      if Minted(i) == Minted(n) { DefaultId.DecimalInjective(i, n); }
    }
  }

  // Peers that register from one host and directory one after the other, their processes alive: the
  // n-th finds the clock at now(n) and, for its last-resort name, at stamp(n).
  datatype Crowd = Crowd(cfg: Config, boot: Instant, req: RegisterRequest, now: nat -> Instant, stamp: nat -> nat)

  function Arrival(c: Crowd, n: nat): Event { Register(c.req, Minted(n), c.now(n), c.stamp(n), {c.req.pid}) }

  function Arrivals(c: Crowd, n: nat): seq<Event> {
    if n == 0 then [] else Arrivals(c, n - 1) + [Arrival(c, n - 1)]
  }

  function Base(c: Crowd): string { DefaultId.BaseId(c.cfg.lower, c.req.host, c.req.cwd) }

  // The names the first n take.
  function Names(c: Crowd, n: nat): set<string> {
    if n == 0 then {} else Names(c, n - 1) + {DefaultId.DeriveId(Names(c, n - 1), Base(c), c.stamp(n - 1))}
  }

  // The tables after n arrivals: who came, under which names, and that the first row holds the
  // session and is active.
  ghost predicate Issued(db: Db, n: nat) {
    db.issued == {DECK_TOKEN} + (set i: nat | i < n :: Minted(i))
  }

  ghost predicate Members(c: Crowd, db: Db, n: nat) {
    forall i: nat :: i < n ==> Minted(i) in db.peers && KeyOf(db.peers[Minted(i)]) == RequestKey(c.req)
  }

  ghost predicate FirstHolds(c: Crowd, db: Db, n: nat) {
    var k, g := RequestKey(c.req), c.req.groupId;
    if n == 0 then g !in db.groups && k !in db.sessions
    else
      && g in db.groups && db.groups[g] == c.req.secretHash
      && Holds(db, Minted(0), k) && IsActive(db, Minted(0)) && db.peers[Minted(0)].pid == c.req.pid
  }

  ghost predicate Crowded(c: Crowd, db: Db, n: nat) {
    && Inv(db) && Issued(db, n) && Members(c, db, n) && FirstHolds(c, db, n)
    && TakenNames(db, c.req.groupId) == Names(c, n)
  }

  ghost predicate Suits(c: Crowd) { c.req.groupId != DEFAULT_GROUP && forall n :: Printable(c.now(n)) }

  lemma CrowdIsFresh(c: Crowd, db: Db, n: nat)
    requires Suits(c) && Crowded(c, db, n)
    ensures Enabled(c.cfg, db, Arrival(c, n)) && Authorised(db, c.req.groupId, c.req.secretHash)
    ensures !Resumes(c.cfg, db, c.req, {c.req.pid})
  {
    hide Names, TakenNames, Inv, Enabled;
    NextIsNew(db, n);
    ArrivalEnabled(c, db, n);
    FirstIsUp(c, db, n);
  }

  lemma NextIsNew(db: Db, n: nat)
    requires Issued(db, n)
    ensures Minted(n) !in db.issued
  {
    hide Minted;
    MintedIsNew(n);
  }

  lemma FirstIsUp(c: Crowd, db: Db, n: nat)
    requires FirstHolds(c, db, n)
    ensures Authorised(db, c.req.groupId, c.req.secretHash) && !Resumes(c.cfg, db, c.req, {c.req.pid})
  {
    hide Minted;
  }

  lemma CrowdGrows(c: Crowd, db: Db, n: nat)
    requires Suits(c) && Crowded(c, db, n) && !NamesExhausted(c.cfg, db, c.req, c.stamp(n), {c.req.pid})
    ensures Enabled(c.cfg, db, Arrival(c, n)) && Crowded(c, Next(c.cfg, db, Arrival(c, n)), n + 1)
  {
    hide Names, TakenNames, Inv, Minted, NamesExhausted, Next, EventPlan, DefaultId.DeriveId;
    CrowdIsFresh(c, db, n);
    RegisterInserts(c.cfg, db, Arrival(c, n));
    EventKeepsInv(c.cfg, db, Arrival(c, n));
    NextIsNew(db, n);
    GrownTables(c, db, Next(c.cfg, db, Arrival(c, n)), n, NewName(c.cfg, db, c.req, c.stamp(n)));
  }

  lemma GrownTables(c: Crowd, db: Db, after: Db, n: nat, name: string)
    requires Crowded(c, db, n) && Inv(after) && Minted(n) !in db.issued
    requires name == DefaultId.DeriveId(TakenNames(db, c.req.groupId), Base(c), c.stamp(n))
    requires Inserted(db, after, c.req, Minted(n), name, c.now(n))
    requires c.req.groupId in after.groups && after.groups[c.req.groupId] == c.req.secretHash
    ensures Crowded(c, after, n + 1)
  {
    hide Minted, DefaultId.DeriveId, Base, Inv;
    AllIssued(db);
    OneMoreName(db, after, Minted(n), RowFor(c.req, name, c.now(n)));
    assert Issued(after, n + 1) by { OneMoreIssued(db, after, n); }
    assert Members(c, after, n + 1) by { OneMoreMember(c, db, after, n, name); }
    assert FirstHolds(c, after, n + 1) by { FirstStays(c, db, after, n, name); }
  }

  lemma OneMoreIssued(db: Db, after: Db, n: nat)
    requires Issued(db, n) && after.issued == db.issued + {Minted(n)}
    ensures Issued(after, n + 1)
  {
    hide Minted;
    assert (set i: nat | i < n + 1 :: Minted(i)) == (set i: nat | i < n :: Minted(i)) + {Minted(n)};
  }

  lemma OneMoreMember(c: Crowd, db: Db, after: Db, n: nat, name: string)
    requires Members(c, db, n) && Minted(n) !in db.peers && Inserted(db, after, c.req, Minted(n), name, c.now(n))
    ensures Members(c, after, n + 1)
  {
    hide Minted;
    forall i: nat | i < n + 1 ensures Minted(i) in after.peers && KeyOf(after.peers[Minted(i)]) == RequestKey(c.req) {
      if i < n { assert Minted(i) in db.peers && Minted(i) != Minted(n); }
    }
  }

  lemma FirstStays(c: Crowd, db: Db, after: Db, n: nat, name: string)
    requires FirstHolds(c, db, n) && Minted(n) !in db.peers && Inserted(db, after, c.req, Minted(n), name, c.now(n))
    requires c.req.groupId in after.groups && after.groups[c.req.groupId] == c.req.secretHash
    ensures FirstHolds(c, after, n + 1)
  {
    hide Minted;
  }

  lemma OneMoreName(db: Db, after: Db, t: Token, row: Peer)
    requires t !in db.peers && after.peers == db.peers[t := row]
    ensures TakenNames(after, row.groupId) == TakenNames(db, row.groupId) + {row.peerId}
  {
    forall x | x in TakenNames(db, row.groupId) ensures x in TakenNames(after, row.groupId) {
      var u :| u in db.peers && db.peers[u].groupId == row.groupId && db.peers[u].peerId == x;
      assert u in after.peers && after.peers[u] == db.peers[u];
    }
    assert t in after.peers && after.peers[t] == row;
  }

  lemma CrowdStarts(c: Crowd)
    requires Suits(c)
    ensures Crowded(c, InitDb(c.boot), 0)
  {
    InitEstablishesInv(c.boot);
    assert (set i: nat | i < 0 :: Minted(i)) == {};
  }

  ghost predicate Fails(c: Crowd, evs: seq<Event>, ev: Event) {
    && IsRun(c.cfg, InitDb(c.boot), evs)
    && Enabled(c.cfg, After(c.cfg, InitDb(c.boot), evs), ev)
    && ReplyTo(c.cfg, After(c.cfg, InitDb(c.boot), evs), ev) == Failed(500)
  }

  // The first n names are the first n candidates.
  lemma {:induction false} NamesAreCandidates(c: Crowd, n: nat)
    requires n <= DefaultId.MAX_SUFFIX
    ensures Names(c, n) == set k: nat | 1 <= k <= n :: DefaultId.Candidate(Base(c), k)
  {
    hide Base, DefaultId.FirstFree, DefaultId.Candidate;
    var base := Base(c);
    if n > 0 {
      NamesAreCandidates(c, n - 1);
      forall k: nat | 1 <= k < n ensures DefaultId.Candidate(base, k) != DefaultId.Candidate(base, n) {
        DefaultId.CandidatesDiffer(base, k, n);
      }
      DefaultId.FirstFreeIs(Names(c, n - 1), base, c.stamp(n - 1), 1, n);
    }
  }

  // After 1000 arrivals every candidate is taken, and the next one takes its time-stamped name.
  lemma NamesRunOut(c: Crowd)
    ensures DefaultId.AllTaken(Names(c, DefaultId.MAX_SUFFIX), Base(c))
    ensures DefaultId.DeriveId(Names(c, DefaultId.MAX_SUFFIX), Base(c), c.stamp(DefaultId.MAX_SUFFIX))
         == DefaultId.Fallback(Base(c), c.stamp(DefaultId.MAX_SUFFIX))
  {
    hide Base, DefaultId.FirstFree, DefaultId.Candidate, DefaultId.Fallback;
    var full := Names(c, DefaultId.MAX_SUFFIX);
    NamesAreCandidates(c, DefaultId.MAX_SUFFIX);
    assert DefaultId.AllTaken(full, Base(c));
    DefaultId.DerivedIdTakenIff(full, Base(c), c.stamp(DefaultId.MAX_SUFFIX));
  }

  lemma NextIsFree(c: Crowd, n: nat)
    requires n < DefaultId.MAX_SUFFIX
    ensures !DefaultId.AllTaken(Names(c, n), Base(c))
  {
    hide Base, Names, DefaultId.Candidate;
    var base := Base(c);
    NamesAreCandidates(c, n);
    forall k: nat | 1 <= k <= n ensures DefaultId.Candidate(base, k) != DefaultId.Candidate(base, n + 1) {
      DefaultId.CandidatesDiffer(base, k, n + 1);
    }
    assert DefaultId.Candidate(base, n + 1) !in Names(c, n);
  }

  lemma ThousandFit(c: Crowd, db: Db, n: nat)
    requires Crowded(c, db, n) && n < DefaultId.MAX_SUFFIX
    ensures !NamesExhausted(c.cfg, db, c.req, c.stamp(n), {c.req.pid})
  {
    hide Inv, Names, TakenNames, DefaultId.AllTaken, DefaultId.BaseId;
    NextIsFree(c, n);
  }

  ghost predicate Assembled(c: Crowd, n: nat) {
    IsRun(c.cfg, InitDb(c.boot), Arrivals(c, n)) && Crowded(c, After(c.cfg, InitDb(c.boot), Arrivals(c, n)), n)
  }

  lemma OneMore(c: Crowd, n: nat)
    requires Suits(c) && Assembled(c, n)
    requires !NamesExhausted(c.cfg, After(c.cfg, InitDb(c.boot), Arrivals(c, n)), c.req, c.stamp(n), {c.req.pid})
    ensures Assembled(c, n + 1) && Enabled(c.cfg, After(c.cfg, InitDb(c.boot), Arrivals(c, n)), Arrival(c, n))
    ensures After(c.cfg, InitDb(c.boot), Arrivals(c, n + 1))
         == Next(c.cfg, After(c.cfg, InitDb(c.boot), Arrivals(c, n)), Arrival(c, n))
  {
    CrowdGrows(c, After(c.cfg, InitDb(c.boot), Arrivals(c, n)), n);
    RunSnoc(c.cfg, InitDb(c.boot), Arrivals(c, n), Arrival(c, n));
    assert Arrivals(c, n + 1) == Arrivals(c, n) + [Arrival(c, n)];
  }

  // A thousand register without a failure.
  lemma {:induction false} ThousandAssemble(c: Crowd, n: nat)
    requires Suits(c) && n <= DefaultId.MAX_SUFFIX
    ensures Assembled(c, n)
  {
    hide Next, Crowded, Enabled, NamesExhausted;
    if n == 0 {
      CrowdStarts(c);
    } else {
      ThousandAssemble(c, n - 1);
      ThousandFit(c, After(c.cfg, InitDb(c.boot), Arrivals(c, n - 1)), n - 1);
      OneMore(c, n - 1);
    }
  }

  lemma ExhaustedFails(c: Crowd, evs: seq<Event>, db: Db, n: nat)
    requires Suits(c) && IsRun(c.cfg, InitDb(c.boot), evs) && db == After(c.cfg, InitDb(c.boot), evs)
    requires Inv(db) && Minted(n) !in db.issued && NamesExhausted(c.cfg, db, c.req, c.stamp(n), {c.req.pid})
    ensures Fails(c, evs, Arrival(c, n))
  {
    hide NamesExhausted, Inv, Minted;
    ArrivalEnabled(c, db, n);
    ServerErrorIff(c.cfg, db, Arrival(c, n));
  }

  // The 1001st member takes the name that the clock will suggest to the next.
  function Rename(c: Crowd): Event {
    SetId(Minted(DefaultId.MAX_SUFFIX), DefaultId.Fallback(Base(c), c.stamp(DefaultId.MAX_SUFFIX + 1)))
  }

  // A crowd registers from one host and directory, at whatever times. Its 1001st member gets a server
  // error, or else one rename, by that member to the time-stamped name of the next, gives it to the
  // 1002nd. The rename only needs the name to fit the pattern.
  lemma CrowdExhaustsNames(c: Crowd) returns (evs: seq<Event>, last: Event)
    requires Suits(c) && ValidPeerId(DefaultId.Fallback(Base(c), c.stamp(DefaultId.MAX_SUFFIX + 1)))
    ensures Fails(c, evs, last)
    ensures || (evs == Arrivals(c, DefaultId.MAX_SUFFIX) && last == Arrival(c, DefaultId.MAX_SUFFIX))
            || (evs == Arrivals(c, DefaultId.MAX_SUFFIX + 1) + [Rename(c)]
                && last == Arrival(c, DefaultId.MAX_SUFFIX + 1))
  {
    var n := DefaultId.MAX_SUFFIX;
    evs, last := Arrivals(c, n), Arrival(c, n);
    ThousandAssemble(c, n);
    hide Next, Crowded, Enabled, NamesExhausted, Arrivals, Minted, Base, Fails, DefaultId.Fallback;
    var full := After(c.cfg, InitDb(c.boot), evs);
    if NamesExhausted(c.cfg, full, c.req, c.stamp(n), {c.req.pid}) {
      CrowdIsSound(c, full, n);
      ExhaustedFails(c, evs, full, n);
    } else {
      evs, last := Arrivals(c, n + 1) + [Rename(c)], Arrival(c, n + 1);
      NextFails(c);
    }
  }

  lemma NextFails(c: Crowd)
    requires Suits(c) && ValidPeerId(DefaultId.Fallback(Base(c), c.stamp(DefaultId.MAX_SUFFIX + 1)))
    requires Assembled(c, DefaultId.MAX_SUFFIX)
    requires !NamesExhausted(c.cfg, After(c.cfg, InitDb(c.boot), Arrivals(c, DefaultId.MAX_SUFFIX)), c.req,
                             c.stamp(DefaultId.MAX_SUFFIX), {c.req.pid})
    ensures Fails(c, Arrivals(c, DefaultId.MAX_SUFFIX + 1) + [Rename(c)], Arrival(c, DefaultId.MAX_SUFFIX + 1))
  {
    hide Next, Crowded, Enabled, NamesExhausted, Arrivals, Arrival, Rename, Minted, Base, Grew, Fails, ValidPeerId,
         DefaultId.Fallback, Inv;
    var n := DefaultId.MAX_SUFFIX;
    var full := After(c.cfg, InitDb(c.boot), Arrivals(c, n));
    OneMore(c, n);
    LastGrew(c, full, n);
    var after := RenameExhausts(c, full, After(c.cfg, InitDb(c.boot), Arrivals(c, n + 1)));
    RunSnoc(c.cfg, InitDb(c.boot), Arrivals(c, n + 1), Rename(c));
    ExhaustedFails(c, Arrivals(c, n + 1) + [Rename(c)], after, n + 1);
  }

  lemma CrowdIsSound(c: Crowd, db: Db, n: nat)
    requires Crowded(c, db, n)
    ensures Inv(db) && Minted(n) !in db.issued
  {
    hide Minted, Inv, Names, TakenNames;
    NextIsNew(db, n);
  }

  // db is full with one more row, t's.
  ghost predicate Grew(full: Db, db: Db, t: Token, g: GroupId) {
    && t !in full.peers && t in db.peers && db.peers[t].groupId == g
    && forall u :: u in full.peers ==> u in db.peers && db.peers[u] == full.peers[u]
  }

  lemma LastGrew(c: Crowd, full: Db, n: nat)
    requires Suits(c) && Crowded(c, full, n) && !NamesExhausted(c.cfg, full, c.req, c.stamp(n), {c.req.pid})
    ensures Enabled(c.cfg, full, Arrival(c, n))
    ensures Grew(full, Next(c.cfg, full, Arrival(c, n)), Minted(n), c.req.groupId)
  {
    hide Names, TakenNames, Inv, Minted, NamesExhausted, Next, EventPlan, DefaultId.DeriveId, Enabled;
    CrowdIsFresh(c, full, n);
    NextIsNew(full, n);
    AllIssued(full);
    RegisterInserts(c.cfg, full, Arrival(c, n));
    var name := NewName(c.cfg, full, c.req, c.stamp(n));
    RowIsMore(full, Next(c.cfg, full, Arrival(c, n)), c.req, Minted(n), name, c.now(n));
  }

  lemma RowIsMore(full: Db, db: Db, req: RegisterRequest, t: Token, name: string, now: Instant)
    requires t !in full.peers && Inserted(full, db, req, t, name, now)
    ensures Grew(full, db, t, req.groupId)
  {
  }

  lemma ExhaustedByNames(c: Crowd, db: Db, n: nat)
    requires n > 0 && FirstHolds(c, db, n) && DefaultId.AllTaken(TakenNames(db, c.req.groupId), Base(c))
    requires DefaultId.Fallback(Base(c), c.stamp(n)) in TakenNames(db, c.req.groupId)
    ensures NamesExhausted(c.cfg, db, c.req, c.stamp(n), {c.req.pid})
  {
    hide Minted, TakenNames, DefaultId.AllTaken, DefaultId.Fallback;
    FirstIsUp(c, db, n);
  }

  lemma RenameExhausts(c: Crowd, full: Db, db: Db) returns (after: Db)
    requires Crowded(c, full, DefaultId.MAX_SUFFIX) && Crowded(c, db, DefaultId.MAX_SUFFIX + 1)
    requires Grew(full, db, Minted(DefaultId.MAX_SUFFIX), c.req.groupId)
    requires ValidPeerId(DefaultId.Fallback(Base(c), c.stamp(DefaultId.MAX_SUFFIX + 1)))
    ensures Enabled(c.cfg, db, Rename(c)) && after == Next(c.cfg, db, Rename(c))
    ensures Inv(after) && Minted(DefaultId.MAX_SUFFIX + 1) !in after.issued
    ensures NamesExhausted(c.cfg, after, c.req, c.stamp(DefaultId.MAX_SUFFIX + 1), {c.req.pid})
  {
    hide Next, Inv, Names, TakenNames, Base, Minted, Crashed, Authorised, ValidPeerId;
    hide DefaultId.Fallback, DefaultId.AllTaken;
    var t, name := Minted(DefaultId.MAX_SUFFIX), DefaultId.Fallback(Base(c), c.stamp(DefaultId.MAX_SUFFIX + 1));
    RenameIsAllowed(c, db);
    after := Next(c.cfg, db, Rename(c));
    EventKeepsInv(c.cfg, db, Rename(c));
    NextIsNew(db, DefaultId.MAX_SUFFIX + 1);
    FallbackIsFree(Base(c), c.stamp(DefaultId.MAX_SUFFIX + 1));
    RenameSucceedsIff(c.cfg, db, t, name);
    NameIsHeld(db, after, t, name);
    NamesRunOut(c);
    StillTaken(full, after, c.req.groupId, Base(c));
    FirstUnmoved(c, db, after);
    hide FirstHolds, NamesExhausted;
    ExhaustedByNames(c, after, DefaultId.MAX_SUFFIX + 1);
  }

  lemma RenameIsAllowed(c: Crowd, db: Db)
    ensures Enabled(c.cfg, db, Rename(c))
  {
  }

  // A time-stamped name has a dash, the reserved ones have none.
  lemma FallbackIsFree(base: string, stamp: nat)
    ensures !Reserved(DefaultId.Fallback(base, stamp))
  {
    assert DefaultId.Fallback(base, stamp)[|base|] == '-';
    assert '-' !in DECK_PEER_ID && '-' !in "system";
  }

  // Renamed or refused for the name's sake, somebody has the name.
  lemma NameIsHeld(db: Db, after: Db, t: Token, name: string)
    requires t in db.peers
    requires var free := forall u ::
                 u in db.peers && u != t && db.peers[u].groupId == db.peers[t].groupId ==> db.peers[u].peerId != name;
             after == if free then db.(peers := db.peers[t := db.peers[t].(peerId := name)]) else db
    ensures name in TakenNames(after, db.peers[t].groupId)
    ensures after.groups == db.groups && after.sessions == db.sessions && after.issued == db.issued
    ensures forall u :: u in db.peers && u != t ==> u in after.peers && after.peers[u] == db.peers[u]
  {
    if u :| u in db.peers && u != t && db.peers[u].groupId == db.peers[t].groupId && db.peers[u].peerId == name {
      assert u in after.peers;
    } else {
      assert t in after.peers && after.peers[t] == db.peers[t].(peerId := name);
    }
  }

  lemma StillTaken(full: Db, after: Db, g: GroupId, base: string)
    requires DefaultId.AllTaken(TakenNames(full, g), base)
    requires forall u :: u in full.peers ==> u in after.peers && after.peers[u] == full.peers[u]
    ensures DefaultId.AllTaken(TakenNames(after, g), base)
  {
    forall x | x in TakenNames(full, g) ensures x in TakenNames(after, g) {
      var u :| u in full.peers && full.peers[u].groupId == g && full.peers[u].peerId == x;
      assert u in after.peers;
    }
  }

  lemma FirstUnmoved(c: Crowd, db: Db, after: Db)
    requires FirstHolds(c, db, DefaultId.MAX_SUFFIX + 1)
    requires after.groups == db.groups && after.sessions == db.sessions
    requires forall u ::
               u in db.peers && u != Minted(DefaultId.MAX_SUFFIX) ==> u in after.peers && after.peers[u] == db.peers[u]
    ensures FirstHolds(c, after, DefaultId.MAX_SUFFIX + 1)
  {
    hide Minted;
    MintedIsNew(DefaultId.MAX_SUFFIX);
  }

  // ----- a peer without its session -----

  // Two peers on one host and directory: the second is minted beside the first, disconnects, and its
  // return is answered with a third token.
  lemma SecondComerLosesToken(c: Crowd)
    requires Suits(c)
    ensures var evs := Arrivals(c, 2) + [Disconnect(Minted(1), c.now(2))];
            && IsRun(c.cfg, InitDb(c.boot), evs)
            && var db := After(c.cfg, InitDb(c.boot), evs);
               && Parked(db, Minted(1), RequestKey(c.req)) && !Holds(db, Minted(1), RequestKey(c.req))
               && Enabled(c.cfg, db, Arrival(c, 2)) && !Returns(c.cfg, db, Arrival(c, 2), Minted(1))
  {
    hide Next, EventPlan, Minted, Names, TakenNames, Arrivals, Enabled, Holds, Parked, Returns, Authorised;
    var evs, leave := Arrivals(c, 2), Disconnect(Minted(1), c.now(2));
    ThousandAssemble(c, 2);
    var before := After(c.cfg, InitDb(c.boot), evs);
    SecondIsThere(c, before);
    var db := DisconnectParks(c.cfg, before, Minted(1), RequestKey(c.req), c.now(2));
    RunSnoc(c.cfg, InitDb(c.boot), evs, leave);
    ThirdMayArrive(c, before, db);
    ParkedReturnsIff(c.cfg, db, Minted(1), RequestKey(c.req), Arrival(c, 2));
  }

  lemma ThirdMayArrive(c: Crowd, before: Db, db: Db)
    requires Suits(c) && Issued(before, 2) && FirstHolds(c, before, 2) && db == before.(peers := db.peers)
    ensures !Holds(db, Minted(1), RequestKey(c.req))
    ensures Enabled(c.cfg, db, Arrival(c, 2)) && Authorised(db, c.req.groupId, c.req.secretHash)
  {
    hide Minted, Enabled, Authorised, Holds;
    NextIsNew(before, 2);
    ArrivalEnabled(c, db, 2);
    FirstIsAnother(c, before, db);
  }

  lemma SecondIsThere(c: Crowd, db: Db)
    requires Members(c, db, 2)
    ensures Minted(1) in db.peers && KeyOf(db.peers[Minted(1)]) == RequestKey(c.req)
  {
  }

  lemma ArrivalEnabled(c: Crowd, db: Db, n: nat)
    requires Suits(c) && Minted(n) !in db.issued
    ensures Enabled(c.cfg, db, Arrival(c, n))
  {
  }

  lemma FirstIsAnother(c: Crowd, before: Db, db: Db)
    requires FirstHolds(c, before, 2) && db.groups == before.groups && db.sessions == before.sessions
    ensures !Holds(db, Minted(1), RequestKey(c.req)) && Authorised(db, c.req.groupId, c.req.secretHash)
  {
    hide Minted;
    MintedIsNew(1);
    assert Minted(0) != Minted(1);
  }
}
