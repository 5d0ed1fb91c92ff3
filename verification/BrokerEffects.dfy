// What each request makes of the tables and what it answers, column by column: a second account of the
// handlers, told without their plans and statements, which meet it in every state of the invariant.
module BrokerEffects {
  import opened Options
  import opened Timestamps
  import opened BrokerDb
  import opened BrokerHandlers
  import opened BrokerIdentity
  import opened Ranking
  import DefaultId
  import JsText

  // ----- registration -----

  // The group is known under another hash.
  ghost predicate Intrudes(db: Db, g: GroupId, hash: Option<Hash>) {
    g != "default" && g in db.groups && db.groups[g] != hash
  }

  // The peer that registered last from there may be resumed: dormant, or its process here is gone.
  ghost predicate IsVacant(cfg: Config, p: Peer, alive: set<int>) {
    p.status == Dormant || (p.host == cfg.host && p.pid !in alive)
  }

  function KeyFor(req: RegisterRequest): Key { Key(req.host, req.cwd, req.groupId) }

  ghost predicate Resumable(cfg: Config, db: Db, req: RegisterRequest, alive: set<int>) {
    var k := KeyFor(req);
    k in db.sessions && db.sessions[k].token in db.peers && IsVacant(cfg, db.peers[db.sessions[k].token], alive)
  }

  function FreeName(cfg: Config, db: Db, req: RegisterRequest, stamp: nat): string {
    var taken := set u | u in db.peers && db.peers[u].groupId == req.groupId :: db.peers[u].peerId;
    DefaultId.DeriveId(taken, DefaultId.BaseId(cfg.lower, req.host, req.cwd), stamp)
  }

  ghost predicate HasName(db: Db, g: GroupId, name: string) {
    exists u :: u in db.peers && db.peers[u].groupId == g && db.peers[u].peerId == name
  }

  function Planted(db: Db, req: RegisterRequest): map<GroupId, Option<Hash>> {
    if req.groupId in db.groups then db.groups else db.groups[req.groupId := req.secretHash]
  }

  // The returned row says what the request does; every other row, every message and every other
  // session is as it was.
  ghost predicate Enters(db: Db, after: Db, req: RegisterRequest, name: string, t: Token, now: Instant) {
    && t in after.peers && Describes(after.peers[t], req, name, now)
    && (forall u :: u != t ==>
          && (u in after.peers <==> u in db.peers)
          && (u in db.peers ==> after.peers[u] == db.peers[u]))
    && after.messages == db.messages && after.nextId == db.nextId && after.groups == Planted(db, req)
  }

  // A wrong hash is refused and changes nothing. Otherwise the vacant holder of the session comes back
  // under its token and name; failing that, a new row takes the minted token and the derived name, and
  // the session unless an active peer has it. Only a name that is taken all the same fails.
  ghost predicate Registers(cfg: Config, db: Db, after: Db, reply: Reply, req: RegisterRequest, minted: Token,
                            now: Instant, stamp: nat, alive: set<int>) {
    var k := KeyFor(req);
    if Intrudes(db, req.groupId, req.secretHash) then
      reply == Failed(401) && after == db
    else if Resumable(cfg, db, req, alive) then
      var t := db.sessions[k].token;
      && reply == Registered(db.peers[t].peerId, t)
      && Enters(db, after, req, db.peers[t].peerId, t, now) && after.sessions == db.sessions
    else if HasName(db, req.groupId, FreeName(cfg, db, req, stamp)) then
      reply == Failed(500) && after == db.(groups := Planted(db, req))
    else
      && reply == Registered(FreeName(cfg, db, req, stamp), minted) && minted !in db.peers
      && Enters(db, after, req, FreeName(cfg, db, req, stamp), minted, now)
      && after.sessions == if k in db.sessions then db.sessions else db.sessions[k := Session(minted, req.groupId)]
  }

  lemma RegistrationIs(cfg: Config, db: Db, ev: Event)
    requires Inv(db) && Enabled(cfg, db, ev) && ev.Register?
    ensures Registers(cfg, db, Next(cfg, db, ev), ReplyTo(cfg, db, ev), ev.req, ev.minted, ev.now, ev.stamp, ev.alive)
  {
    if Authorised(db, ev.req.groupId, ev.req.secretHash) {
      var e, p := RegisterExec(cfg, db, ev);
      GroupIsPlanted(db, ev.req, e);
      var name := NewName(cfg, db, ev.req, ev.stamp);
      ResolvedIs(cfg, db, e, ev.req, ev.minted, name, ev.now, ev.alive);
      PlanIs(cfg, db, ev, p);
    }
  }

  lemma PlanIs(cfg: Config, db: Db, ev: Event, p: Plan)
    requires Enabled(cfg, db, ev) && ev.Register? && Authorised(db, ev.req.groupId, ev.req.secretHash)
    requires p == IdentityPlan(cfg, db, ev.req, ev.minted, ev.now, ev.stamp, ev.alive)
    ensures EventPlan(cfg, db, ev).reply == p.reply
    ensures p == PlanUnder(cfg, db, ev.req, ev.minted, FreeName(cfg, db, ev.req, ev.stamp), ev.now, ev.alive)
  {
    assert TakenNames(db, ev.req.groupId)
        == set u | u in db.peers && db.peers[u].groupId == ev.req.groupId :: db.peers[u].peerId;
  }

  lemma GroupIsPlanted(db: Db, req: RegisterRequest, e: Db)
    requires Inv(db) && Exec(db, GroupStmts(db, req)) == Outcome(e, true)
    ensures e == db.(groups := Planted(db, req))
  {
    if req.groupId != DEFAULT_GROUP && req.groupId !in db.groups {
      Unfold(db, InsertGroup(req.groupId, req.secretHash), []);
      assert GroupStmts(db, req) == [InsertGroup(req.groupId, req.secretHash)] + [];
    }
  }

  // The part after the group check, in the tables e that has the group.
  ghost predicate Resolves(cfg: Config, db: Db, o: Outcome, reply: Reply, req: RegisterRequest, minted: Token,
                           name: string, now: Instant, alive: set<int>) {
    var k := KeyFor(req);
    if Resumable(cfg, db, req, alive) then
      var t := db.sessions[k].token;
      && reply == Registered(db.peers[t].peerId, t) && o.ok
      && Enters(db, o.db, req, db.peers[t].peerId, t, now) && o.db.sessions == db.sessions
    else if HasName(db, req.groupId, name) then
      !o.ok && o.db == db.(groups := Planted(db, req))
    else
      && reply == Registered(name, minted) && minted !in db.peers && o.ok
      && Enters(db, o.db, req, name, minted, now)
      && o.db.sessions == if k in db.sessions then db.sessions else db.sessions[k := Session(minted, req.groupId)]
  }

  lemma ResolvedIs(cfg: Config, db: Db, e: Db, req: RegisterRequest, minted: Token, name: string, now: Instant,
                   alive: set<int>)
    requires Inv(db) && Inv(e) && e == db.(groups := Planted(db, req)) && req.groupId in e.groups
    requires minted !in db.issued
    ensures var p := PlanUnder(cfg, db, req, minted, name, now, alive);
            Resolves(cfg, db, Exec(e, p.stmts), p.reply, req, minted, name, now, alive)
  {
    var k := KeyFor(req);
    AllIssued(db);
    if k in db.sessions {
      SessionResolves(db, k);
    }
    if Resumable(cfg, db, req, alive) {
      ResumedIs(cfg, db, e, req, now, alive);
    } else {
      InsertedIs(cfg, db, e, req, minted, name, now, alive);
    }
  }

  lemma ResumedIs(cfg: Config, db: Db, e: Db, req: RegisterRequest, now: Instant, alive: set<int>)
    requires Inv(db) && Inv(e) && e == db.(groups := Planted(db, req)) && Resumable(cfg, db, req, alive)
    ensures var t := db.sessions[KeyFor(req)].token;
            var o := Exec(e, ResumeStmts(cfg, req, t, db.peers[t], now, alive));
            && o.ok && Enters(db, o.db, req, db.peers[t].peerId, t, now) && o.db.sessions == db.sessions
  {
    hide ResumeStmts, Inv, Exec;
    ResumeEffect(cfg, e, req, now, alive);
  }

  lemma InsertedIs(cfg: Config, db: Db, e: Db, req: RegisterRequest, minted: Token, name: string, now: Instant,
                   alive: set<int>)
    requires Inv(db) && e == db.(groups := Planted(db, req)) && req.groupId in e.groups && minted !in db.peers
    requires KeyFor(req) in db.sessions ==> db.sessions[KeyFor(req)].token in db.peers
    requires !Resumable(cfg, db, req, alive)
    ensures var p := PlanUnder(cfg, db, req, minted, name, now, alive);
            Resolves(cfg, db, Exec(e, p.stmts), p.reply, req, minted, name, now, alive)
  {
    var k, row := KeyFor(req), RowFor(req, name, now);
    RowIsEntered(db, e, req, name, minted, now);
    hide Apply;
    Unfold(e, InsertPeer(minted, row), []);
    assert [InsertPeer(minted, row)] + [] == [InsertPeer(minted, row)];
    Unfold(e, InsertPeer(minted, row), [UpsertSession(k, minted)]);
    Unfold(Apply(e, InsertPeer(minted, row)), UpsertSession(k, minted), []);
    assert [UpsertSession(k, minted)] + [] == [UpsertSession(k, minted)];
  }

  lemma RowIsEntered(db: Db, e: Db, req: RegisterRequest, name: string, t: Token, now: Instant)
    requires e == db.(groups := Planted(db, req)) && req.groupId in e.groups && t !in db.peers
    ensures var d, k := Apply(e, InsertPeer(t, RowFor(req, name, now))), KeyFor(req);
            var f := Apply(d, UpsertSession(k, t));
            && (Accepts(e, InsertPeer(t, RowFor(req, name, now))) <==> !HasName(db, req.groupId, name))
            && Accepts(d, UpsertSession(k, t)) && Enters(db, d, req, name, t, now) && d.sessions == db.sessions
            && Enters(db, f, req, name, t, now)
            && (k !in db.sessions ==> f.sessions == db.sessions[k := Session(t, req.groupId)])
  {
    hide TextLess, Iso;
  }

  // ----- send -----

  // An active peer of the sender's group under that name.
  ghost predicate IsAddressee(db: Db, from: Token, toId: string, t: Token) {
    && from in db.peers && t in db.peers && db.peers[t].groupId == db.peers[from].groupId
    && db.peers[t].peerId == toId && db.peers[t].status == Active
  }

  // All rows are as they were, but for the activity noted in these.
  ghost predicate NotesActivity(db: Db, after: Db, ts: set<Token>, now: Instant) {
    && after.peers.Keys == db.peers.Keys
    && forall u :: u in db.peers ==>
         after.peers[u] == if u in ts then db.peers[u].(lastActivity := Some(now)) else db.peers[u]
  }

  ghost predicate IsNew(m: Message, from: Token, to: Token, g: GroupId, text: string, now: Instant) {
    m.from == from && m.to == to && m.groupId == g && m.text == text && m.sentAt == now && !m.delivered
  }

  // What was sent to the sender earlier counts as read.
  ghost predicate ReadsUpTo(db: Db, after: Db, reader: Token, now: Instant) {
    forall id :: id in db.messages && Printable(db.messages[id].sentAt) ==>
      var m := db.messages[id];
      && id in after.messages
      && after.messages[id] == m.(delivered := m.delivered || (m.to == reader && m.sentAt < now))
  }

  // One new message, the next in number, in the sender's group.
  ghost predicate Delivers(db: Db, after: Db, from: Token, t: Token, text: string, now: Instant) {
    && from in db.peers && after.nextId == db.nextId + 1 && after.messages.Keys == db.messages.Keys + {db.nextId}
    && IsNew(after.messages[db.nextId], from, t, db.peers[from].groupId, text, now)
    && ReadsUpTo(db, after, from, now) && NotesActivity(db, after, {from, t}, now)
    && after.groups == db.groups && after.sessions == db.sessions
  }

  // It succeeds exactly if the sender has a row and an active peer of its group has the name.
  ghost predicate Sends(db: Db, after: Db, reply: Reply, from: Token, toId: string, text: string, now: Instant) {
    && (reply == Ok <==> exists t :: IsAddressee(db, from, toId, t))
    && (reply != Ok ==> reply == NotSent && after == db)
    && (forall t :: IsAddressee(db, from, toId, t) ==> Delivers(db, after, from, t, text, now))
  }

  lemma SendIs(cfg: Config, db: Db, ev: Event)
    requires Inv(db) && Enabled(cfg, db, ev) && ev.Send?
    ensures Sends(db, Next(cfg, db, ev), ReplyTo(cfg, db, ev), ev.from, ev.toId, ev.text, ev.now)
  {
    InvImpliesSchema(db);
    EventGuarded(cfg, db, ev);
    forall t ensures IsAddressee(db, ev.from, ev.toId, t)
        <==> ev.from in db.peers && IsTarget(db, t, ev.toId, db.peers[ev.from].groupId) { }
    forall t | IsAddressee(db, ev.from, ev.toId, t)
      ensures ReplyTo(cfg, db, ev) == Ok && Delivers(db, Next(cfg, db, ev), ev.from, t, ev.text, ev.now)
    {
      AddresseeGetsIt(cfg, db, ev, t);
    }
  }

  lemma AddresseeGetsIt(cfg: Config, db: Db, ev: Event, t: Token)
    requires Inv(db) && Enabled(cfg, db, ev) && db.nextId !in db.messages
    requires ev.Send? && IsAddressee(db, ev.from, ev.toId, t)
    ensures ReplyTo(cfg, db, ev) == Ok && Delivers(db, Next(cfg, db, ev), ev.from, t, ev.text, ev.now)
  {
    hide SendStmts, Delivers, Apply, Inv;
    OneTarget(cfg, db, ev, t);
    SendRuns(db, ev.from, t, db.peers[ev.from].groupId, ev.text, ev.now);
    StatementsDeliver(db, ev.from, t, ev.text, ev.now);
  }

  // Names are unique in a group, so the addressee is.
  lemma OneTarget(cfg: Config, db: Db, ev: Event, t: Token)
    requires Inv(db) && Enabled(cfg, db, ev) && ev.Send? && IsAddressee(db, ev.from, ev.toId, t)
    ensures EventPlan(cfg, db, ev) == Plan(SendStmts(ev.from, t, db.peers[ev.from].groupId, ev.text, ev.now), Ok)
  {
    hide SendStmts;
    assert IsTarget(db, t, ev.toId, db.peers[ev.from].groupId);
    forall u | IsTarget(db, u, ev.toId, db.peers[ev.from].groupId) ensures u == t { }
  }

  lemma Noted(db: Db, t: Token, now: Instant)
    requires t in db.peers
    ensures Apply(db, SetActivity(t, now)) == db.(peers := db.peers[t := db.peers[t].(lastActivity := Some(now))])
  {
  }

  lemma MessageAdded(db: Db, from: Token, t: Token, g: GroupId, text: string, now: Instant)
    ensures Apply(db, InsertMessage(from, t, g, text, now))
         == db.(messages := db.messages[db.nextId := Message(from, t, g, text, now, false)], nextId := db.nextId + 1)
  {
  }

  lemma ReadUpTo(db: Db, reader: Token, g: GroupId, now: Instant)
    ensures var e := Apply(db, AckPrior(reader, g, now)); e == db.(messages := e.messages)
    ensures Apply(db, AckPrior(reader, g, now)).messages
         == map id | id in db.messages :: Acked(db.messages[id], reader, g, now)
  {
  }

  lemma AckedIs(m: Message, reader: Token, g: GroupId, now: Instant)
    requires Printable(m.sentAt) && Printable(now) && (m.to == reader ==> m.groupId == g)
    ensures Acked(m, reader, g, now) == m.(delivered := m.delivered || (m.to == reader && m.sentAt < now))
  {
    hide TextLess, Iso;
    IsoOrder(m.sentAt, now);
  }

  lemma MessagesAre(db: Db, after: Db, from: Token, t: Token, g: GroupId, text: string, now: Instant)
    requires Inv(db) && from in db.peers && g == db.peers[from].groupId && db.nextId !in db.messages && Printable(now)
    requires var ms := db.messages[db.nextId := Message(from, t, g, text, now, false)];
             after.messages == map id | id in ms :: Acked(ms[id], from, g, now)
    ensures after.messages.Keys == db.messages.Keys + {db.nextId}
    ensures IsNew(after.messages[db.nextId], from, t, g, text, now) && ReadsUpTo(db, after, from, now)
  {
    hide Acked, Printable, Inv;
    AckedIs(Message(from, t, g, text, now, false), from, g, now);
    forall id | id in db.messages && Printable(db.messages[id].sentAt)
      ensures var m := db.messages[id];
              Acked(m, from, g, now) == m.(delivered := m.delivered || (m.to == from && m.sentAt < now))
    {
      InItsGroup(db, id);
      AckedIs(db.messages[id], from, g, now);
    }
  }

  lemma InItsGroup(db: Db, id: nat)
    requires Inv(db) && id in db.messages
    ensures var m := db.messages[id]; m.to in db.peers && m.groupId == db.peers[m.to].groupId
  {
    assert MessageOk(db, id);
  }

  lemma StatementsDeliver(db: Db, from: Token, t: Token, text: string, now: Instant)
    requires Inv(db) && from in db.peers && t in db.peers && db.nextId !in db.messages && Printable(now)
    ensures var g := db.peers[from].groupId;
            var d1 := Apply(db, InsertMessage(from, t, g, text, now));
            var d3 := Apply(Apply(d1, SetActivity(from, now)), SetActivity(t, now));
            Delivers(db, Apply(d3, AckPrior(from, g, now)), from, t, text, now)
  {
    hide Apply, Acked, Printable, Inv, IsNew, ReadsUpTo;
    var g := db.peers[from].groupId;
    var d1 := Apply(db, InsertMessage(from, t, g, text, now));
    MessageAdded(db, from, t, g, text, now);
    Noted(d1, from, now);
    var d2 := Apply(d1, SetActivity(from, now));
    Noted(d2, t, now);
    var d3 := Apply(d2, SetActivity(t, now));
    ReadUpTo(d3, from, g, now);
    MessagesAre(db, Apply(d3, AckPrior(from, g, now)), from, t, g, text, now);
  }

  // ----- announce -----

  ghost predicate IsBlank(text: string) { forall i :: 0 <= i < |text| ==> JsText.IsSpace(text[i]) }

  // An active peer of the group, neither the deck nor excluded by name.
  ghost predicate IsReached(db: Db, g: GroupId, exclude: Option<string>, t: Token) {
    && t in db.peers && db.peers[t].groupId == g && db.peers[t].status == Active && t != DECK_TOKEN
    && (exclude.None? || db.peers[t].peerId != exclude.value)
  }

  ghost function Reached(db: Db, g: GroupId, exclude: Option<string>): set<Token> {
    set t | t in db.peers && IsReached(db, g, exclude, t)
  }

  // Every old message is as it was, and each of these has exactly one new one, from the deck.
  ghost predicate Spreads(db: Db, after: Db, ts: set<Token>, g: GroupId, text: string, now: Instant) {
    && db.messages.Keys <= after.messages.Keys
    && (forall id :: id in db.messages ==> after.messages[id] == db.messages[id])
    && (forall id :: id in after.messages.Keys - db.messages.Keys ==>
          after.messages[id].to in ts && IsNew(after.messages[id], DECK_TOKEN, after.messages[id].to, g, text, now))
    && (forall t :: t in ts ==> exists id :: id in after.messages.Keys - db.messages.Keys && after.messages[id].to == t)
    && (forall i, j ::
          i in after.messages.Keys - db.messages.Keys && j in after.messages.Keys - db.messages.Keys && i != j ==>
            after.messages[i].to != after.messages[j].to)
  }

  // Blank texts go nowhere, a wrong hash is refused, and so is everything once the deck's row is gone
  // and somebody would be reached. Otherwise all who are to be reached are, and the reply counts them.
  ghost predicate Announces(db: Db, after: Db, reply: Reply, g: GroupId, hash: Option<Hash>, text: string,
                            exclude: Option<string>, now: Instant) {
    var ts := Reached(db, g, exclude);
    if IsBlank(text) then reply == SentTo(0) && after == db
    else if Intrudes(db, g, hash) then reply == Failed(401) && after == db
    else if ts != {} && DECK_TOKEN !in db.peers then reply == Failed(500) && after == db
    else
      && reply == SentTo(|ts|) && Spreads(db, after, ts, g, text, now) && NotesActivity(db, after, ts, now)
      && after.groups == db.groups && after.sessions == db.sessions
  }

  lemma BlankIff(text: string)
    ensures JsText.Trim(text) == [] <==> IsBlank(text)
  {
    var front := JsText.TrimStartIs(text);
    var back := JsText.TrimEndIs(JsText.TrimStart(text));
    var kept := JsText.Trim(text);
    assert text == front + (kept + back);
    if kept == [] {
      assert back == [];
      assert text == front;
    } else {
      assert text[|front| + |kept| - 1] == kept[|kept| - 1];
    }
  }

  // The messages written for a list of peers, in order.
  ghost predicate Writes(db: Db, after: Db, targets: seq<Token>, g: GroupId, text: string, now: Instant) {
    && after.nextId == db.nextId + |targets| && after.groups == db.groups && after.sessions == db.sessions
    && (forall id :: id in after.messages <==> id in db.messages || db.nextId <= id < db.nextId + |targets|)
    && (forall id :: id in db.messages ==> after.messages[id] == db.messages[id])
    && (forall i :: 0 <= i < |targets| ==>
          after.messages[db.nextId + i] == Message(DECK_TOKEN, targets[i], g, text, now, false))
    && NotesActivity(db, after, (set t | t in targets), now)
  }

  lemma {:induction false} AnnouncementsWrite(db: Db, targets: seq<Token>, g: GroupId, text: string, now: Instant)
    requires DECK_TOKEN in db.peers && (forall t :: t in targets ==> t in db.peers)
    requires forall id :: id in db.messages ==> id < db.nextId
    ensures var o := Exec(db, AnnounceStmts(targets, g, text, now)); o.ok && Writes(db, o.db, targets, g, text, now)
    decreases targets
  {
    hide Writes, NotesActivity;
    if targets == [] {
      WritesNone(db, g, text, now);
    } else {
      var t, rest := targets[0], targets[1..];
      assert t in targets && forall u :: u in rest ==> u in targets;
      var d := FirstWrite(db, t, AnnounceStmts(rest, g, text, now), g, text, now);
      AnnouncementsWrite(d, rest, g, text, now);
      WritesOneMore(db, d, Exec(d, AnnounceStmts(rest, g, text, now)).db, targets, g, text, now);
    }
  }

  lemma WritesNone(db: Db, g: GroupId, text: string, now: Instant)
    ensures Writes(db, db, [], g, text, now)
  {
  }

  // The tables with the message for t, and its activity noted.
  function Wrote(db: Db, t: Token, g: GroupId, text: string, now: Instant): Db
    requires t in db.peers
  {
    db.(messages := db.messages[db.nextId := Message(DECK_TOKEN, t, g, text, now, false)], nextId := db.nextId + 1,
        peers := db.peers[t := db.peers[t].(lastActivity := Some(now))])
  }

  lemma FirstWrite(db: Db, t: Token, rest: seq<Stmt>, g: GroupId, text: string, now: Instant) returns (d: Db)
    requires DECK_TOKEN in db.peers && t in db.peers
    ensures d == Wrote(db, t, g, text, now)
    ensures Exec(db, [InsertMessage(DECK_TOKEN, t, g, text, now)] + ([SetActivity(t, now)] + rest)) == Exec(d, rest)
  {
    var a, b := InsertMessage(DECK_TOKEN, t, g, text, now), SetActivity(t, now);
    assert Accepts(db, a) && Accepts(Apply(db, a), b);
    hide Apply, Accepts;
    d := Apply(Apply(db, a), b);
    MessageAdded(db, DECK_TOKEN, t, g, text, now);
    Noted(Apply(db, a), t, now);
    Unfold(db, a, [b] + rest);
    Unfold(Apply(db, a), b, rest);
  }

  lemma WritesOneMore(db: Db, d: Db, e: Db, targets: seq<Token>, g: GroupId, text: string, now: Instant)
    requires targets != [] && targets[0] in db.peers && d == Wrote(db, targets[0], g, text, now)
    requires Writes(d, e, targets[1..], g, text, now) && forall id :: id in db.messages ==> id < db.nextId
    ensures Writes(db, e, targets, g, text, now)
  {
    ActivityOneMore(db, d, e, targets, g, text, now);
    hide NotesActivity;
    forall i | 0 <= i < |targets|
      ensures e.messages[db.nextId + i] == Message(DECK_TOKEN, targets[i], g, text, now, false)
    {
      if i == 0 {
        assert db.nextId in d.messages;
      } else {
        assert e.messages[d.nextId + (i - 1)] == Message(DECK_TOKEN, targets[1..][i - 1], g, text, now, false);
      }
    }
  }

  lemma ActivityOneMore(db: Db, d: Db, e: Db, targets: seq<Token>, g: GroupId, text: string, now: Instant)
    requires targets != [] && targets[0] in db.peers && d == Wrote(db, targets[0], g, text, now)
    requires NotesActivity(d, e, (set t | t in targets[1..]), now)
    ensures NotesActivity(db, e, (set t | t in targets), now)
  {
    assert forall u :: u in targets <==> u == targets[0] || u in targets[1..];
  }

  lemma WritingSpreads(db: Db, after: Db, targets: seq<Token>, ts: set<Token>, g: GroupId, text: string, now: Instant)
    requires Writes(db, after, targets, g, text, now) && Enumerates(targets, ts)
    requires forall id :: id in db.messages ==> id < db.nextId
    ensures Spreads(db, after, ts, g, text, now) && NotesActivity(db, after, ts, now)
  {
    assert (set t | t in targets) == ts;
    forall id | id in after.messages.Keys - db.messages.Keys
      ensures 0 <= id - db.nextId < |targets| && after.messages[id].to == targets[id - db.nextId]
      ensures IsNew(after.messages[id], DECK_TOKEN, after.messages[id].to, g, text, now)
    {
      var i := id - db.nextId;
      assert after.messages[db.nextId + i] == Message(DECK_TOKEN, targets[i], g, text, now, false);
    }
    forall t | t in ts ensures exists id :: id in after.messages.Keys - db.messages.Keys && after.messages[id].to == t {
      var i :| 0 <= i < |targets| && targets[i] == t;
      assert after.messages[db.nextId + i] == Message(DECK_TOKEN, targets[i], g, text, now, false);
      assert db.nextId + i in after.messages.Keys - db.messages.Keys;
    }
  }

  lemma StatementsSpread(db: Db, targets: seq<Token>, ts: set<Token>, g: GroupId, text: string, now: Instant)
    requires Inv(db) && Enumerates(targets, ts) && forall t :: t in ts ==> t in db.peers
    ensures |targets| == |ts|
    ensures var o := Exec(db, AnnounceStmts(targets, g, text, now));
            if ts != {} && DECK_TOKEN !in db.peers then o == Outcome(db, false)
            else
              && o.ok && Spreads(db, o.db, ts, g, text, now) && NotesActivity(db, o.db, ts, now)
              && o.db.groups == db.groups && o.db.sessions == db.sessions
  {
    hide Spreads, NotesActivity;
    IdsAreOld(db);
    EnumeratedSize(targets, ts);
    AllOf(targets, ts);
    if DECK_TOKEN in db.peers {
      AnnouncementsWrite(db, targets, g, text, now);
      WritingSpreads(db, Exec(db, AnnounceStmts(targets, g, text, now)).db, targets, ts, g, text, now);
    } else {
      NothingWritten(db, targets, g, text, now);
      if ts == {} {
        WritesNone(db, g, text, now);
        WritingSpreads(db, db, targets, ts, g, text, now);
      }
    }
  }

  lemma AnnouncementIs(cfg: Config, db: Db, ev: Event)
    requires Inv(db) && Enabled(cfg, db, ev) && ev.Announce?
    ensures var after, reply := Next(cfg, db, ev), ReplyTo(cfg, db, ev);
            Announces(db, after, reply, ev.groupId, ev.secretHash, ev.text, ev.exclude, ev.now)
  {
    hide JsText.Trim, IsBlank, Spreads, NotesActivity, AnnounceStmts, Inv;
    BlankIff(ev.text);
    var ts := Reached(db, ev.groupId, ev.exclude);
    assert ts == AnnounceTargets(db, ev.groupId, ev.exclude);
    StatementsSpread(db, ev.targets, ts, ev.groupId, ev.text, ev.now);
  }

  lemma IdsAreOld(db: Db)
    requires Inv(db)
    ensures forall id :: id in db.messages ==> id < db.nextId
  {
    forall id | id in db.messages ensures id < db.nextId { assert MessageOk(db, id); }
  }

  lemma AllOf(targets: seq<Token>, ts: set<Token>)
    requires Enumerates(targets, ts)
    ensures (forall t :: t in targets ==> t in ts) && (targets == [] <==> ts == {})
  {
    if targets != [] { assert targets[0] in targets; }
    if t :| t in ts { assert t in targets; }
  }

  lemma NothingWritten(db: Db, targets: seq<Token>, g: GroupId, text: string, now: Instant)
    requires DECK_TOKEN !in db.peers
    ensures Exec(db, AnnounceStmts(targets, g, text, now)) == Outcome(db, targets == [])
  {
    if targets != [] {
      Unfold(db, InsertMessage(DECK_TOKEN, targets[0], g, text, now),
             [SetActivity(targets[0], now)] + AnnounceStmts(targets[1..], g, text, now));
    }
  }

  // ----- set-id -----

  ghost predicate FitsPattern(name: string) {
    && 1 <= |name| <= 32
    && (forall i :: 0 <= i < |name| ==>
          'a' <= name[i] <= 'z' || '0' <= name[i] <= '9' || (name[i] == '-' && 0 < i < |name| - 1))
  }

  ghost predicate Renames(db: Db, after: Db, reply: Reply, t: Token, name: string) {
    if !FitsPattern(name) || name == "deck" || name == "system" then reply == Failed(400) && after == db
    else if t !in db.peers then reply == Failed(404) && after == db
    else if
      exists u :: u in db.peers && u != t && db.peers[u].groupId == db.peers[t].groupId && db.peers[u].peerId == name
    then reply == Failed(409) && after == db
    else
      && reply == Renamed(name, db.peers[t].peerId)
      && after == db.(peers := db.peers[t := db.peers[t].(peerId := name)])
  }

  lemma PatternIff(name: string)
    ensures ValidPeerId(name) <==> FitsPattern(name)
  {
  }

  lemma RenameIs(cfg: Config, db: Db, ev: Event)
    requires Inv(db) && Enabled(cfg, db, ev) && ev.SetId?
    ensures Renames(db, Next(cfg, db, ev), ReplyTo(cfg, db, ev), ev.token, ev.name)
  {
    hide ValidPeerId, FitsPattern;
    PatternIff(ev.name);
    SetIdGuarded(db, ev.token, ev.name);
    if ev.token in db.peers {
      OwnNameIsFree(db, ev.token);
      assert db.peers[ev.token].peerId == ev.name ==>
               db.peers[ev.token := db.peers[ev.token].(peerId := ev.name)] == db.peers;
      if SetIdPlan(db, ev.token, ev.name).stmts != [] {
        LoneGuarded(db, SetPeerId(ev.token, ev.name));
      }
    }
  }

  // ----- one row, one column -----

  ghost predicate Rewrites(db: Db, after: Db, t: Token, row: Peer -> Peer) {
    after == if t in db.peers then db.(peers := db.peers[t := row(db.peers[t])]) else db
  }

  lemma RowCallIs(cfg: Config, db: Db, ev: Event)
    requires Enabled(cfg, db, ev)
    ensures ev.Heartbeat? ==> Rewrites(db, Next(cfg, db, ev), ev.token, (p: Peer) => p.(lastSeen := ev.now))
    ensures ev.SetSummary? ==> Rewrites(db, Next(cfg, db, ev), ev.token, (p: Peer) => p.(summary := ev.text))
    ensures ev.Disconnect? ==>
              Rewrites(db, Next(cfg, db, ev), ev.token, (p: Peer) => p.(lastSeen := ev.now, status := Dormant))
  {
    if ev.Heartbeat? {
      LoneGuarded(db, SetLastSeen(ev.token, ev.now));
    } else if ev.SetSummary? {
      LoneGuarded(db, UpdateSummary(ev.token, ev.text));
    } else if ev.Disconnect? {
      LoneGuarded(db, DemoteAt(ev.token, ev.now));
    }
  }

  // ----- poll -----

  // Exactly the caller's undelivered messages are delivered, and nothing else changes.
  lemma PollIs(cfg: Config, db: Db, ev: Event)
    requires Enabled(cfg, db, ev) && ev.Poll?
    ensures forall id :: id in ev.rows <==>
              id in db.messages && db.messages[id].to == ev.token && !db.messages[id].delivered
    ensures var after := Next(cfg, db, ev);
            && after == db.(messages := after.messages) && after.messages.Keys == db.messages.Keys
            && forall id :: id in db.messages ==>
                 after.messages[id] == if id in ev.rows then db.messages[id].(delivered := true) else db.messages[id]
  {
    hide Ascending;
    MarksAre(db, ev.rows);
  }

  lemma {:induction false} MarksAre(db: Db, rows: seq<nat>)
    ensures var after := Exec(db, MarkStmts(rows)).db;
            && after == db.(messages := after.messages) && after.messages.Keys == db.messages.Keys
            && forall id :: id in db.messages ==>
                 after.messages[id] == if id in rows then db.messages[id].(delivered := true) else db.messages[id]
    decreases rows
  {
    if rows != [] {
      var s := MarkDelivered(rows[0]);
      var d := Apply(db, s);
      Unfold(db, s, MarkStmts(rows[1..]));
      assert d == db.(messages := d.messages) && d.messages.Keys == db.messages.Keys;
      assert forall id :: id in db.messages ==>
               d.messages[id] == if id == rows[0] then db.messages[id].(delivered := true) else db.messages[id];
      hide Apply;
      MarksAre(d, rows[1..]);
      assert forall id :: id in rows <==> id == rows[0] || id in rows[1..];
    }
  }
}
