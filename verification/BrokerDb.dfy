// The broker's four tables and the SQL statements that change them.
//
// Every write is one Stmt. Apply is what the statement does to the rows; Accepts is SQLite's
// constraint check (primary keys, UNIQUE, foreign keys ON): a refused statement changes nothing and
// throws, which ends the handler that issued it.
module BrokerDb {
  import opened Options
  import opened Timestamps

  type Token = string
  type GroupId = string
  type Hash = string

  const DECK_TOKEN: Token := "__deck__"
  const DECK_PEER_ID := "deck"
  const DEFAULT_GROUP: GroupId := "default"

  datatype Status = Active | Dormant

  datatype Peer = Peer(
    peerId: string,
    groupId: GroupId,
    pid: int,
    cwd: string,
    gitRoot: Option<string>,
    summary: string,
    lastSeen: Instant,
    lastActivity: Option<Instant>,
    host: string,
    projectKey: Option<string>,
    status: Status)

  datatype Message = Message(from: Token, to: Token, groupId: GroupId, text: string, sentAt: Instant, delivered: bool)

  // sha256(host \0 cwd \0 group_id), taken as injective.
  datatype Key = Key(host: string, cwd: string, groupId: GroupId)

  datatype Session = Session(token: Token, groupId: GroupId)

  // nextId is the AUTOINCREMENT counter. `issued` is a history variable, not a column: every token
  // the broker ever put in a peer row.
  datatype Db = Db(
    groups: map<GroupId, Option<Hash>>,
    peers: map<Token, Peer>,
    messages: map<nat, Message>,
    sessions: map<Key, Session>,
    nextId: nat,
    issued: set<Token>)

  datatype Stmt =
    | InsertGroup(groupId: GroupId, hash: Option<Hash>)
    | InsertPeer(token: Token, peer: Peer)
    | SetDormant(token: Token)
    | SweepDormant(cutoff: Instant)
    | Reactivate(token: Token, row: Peer)
    | SetLastSeen(token: Token, at: Instant)
    | DemoteAt(token: Token, at: Instant)
    | UpdateSummary(token: Token, summary: string)
    | SetActivity(token: Token, at: Instant)
    | SetPeerId(token: Token, peerId: string)
    | InsertMessage(from: Token, to: Token, groupId: GroupId, text: string, sentAt: Instant)
    | MarkDelivered(id: nat)
    | AckPrior(to: Token, groupId: GroupId, before: Instant)
    | PurgeMessages(cutoff: Instant)
    | DeleteMessagesOf(token: Token)
    | DeleteSessionsOf(token: Token)
    | DeletePeer(token: Token)
    | UpsertSession(key: Key, token: Token)

  function Demoted(p: Peer, cutoff: Instant): Peer {
    if p.status == Active && TextLess(Iso(p.lastSeen), Iso(cutoff)) then p.(status := Dormant) else p
  }

  function Acked(m: Message, to: Token, groupId: GroupId, before: Instant): Message {
    if m.to == to && m.groupId == groupId && !m.delivered && TextLess(Iso(m.sentAt), Iso(before))
    then m.(delivered := true) else m
  }

  predicate Expires(m: Message, cutoff: Instant) { !m.delivered && BeforeCutoff(m.sentAt, cutoff) }

  predicate Mentions(m: Message, t: Token) { m.from == t || m.to == t }

  // Every column `row` carries except the ones a resume keeps: peer_id and group_id.
  function Resumed(p: Peer, row: Peer): Peer {
    row.(peerId := p.peerId, groupId := p.groupId, status := Active)
  }

  // The statements that set columns of the one row with the token.
  predicate IsRowUpdate(s: Stmt) {
    || s.SetDormant? || s.Reactivate? || s.SetLastSeen? || s.DemoteAt?
    || s.UpdateSummary? || s.SetActivity? || s.SetPeerId?
  }

  function Updated(p: Peer, s: Stmt): Peer
    requires IsRowUpdate(s)
  {
    match s
    case SetDormant(_) => p.(status := Dormant)
    case Reactivate(_, row) => Resumed(p, row)
    case SetLastSeen(_, at) => p.(lastSeen := at)
    case DemoteAt(_, at) => p.(status := Dormant, lastSeen := at)
    case UpdateSummary(_, x) => p.(summary := x)
    case SetActivity(_, at) => p.(lastActivity := Some(at))
    case SetPeerId(_, id) => p.(peerId := id)
  }

  // UPDATE peers SET ... WHERE instance_token = ?: no row, no effect.
  function UpdatePeer(db: Db, s: Stmt): Db
    requires IsRowUpdate(s)
  {
    if s.token in db.peers then db.(peers := db.peers[s.token := Updated(db.peers[s.token], s)]) else db
  }

  function Apply(db: Db, s: Stmt): Db {
    match s
    case InsertGroup(g, h) => db.(groups := db.groups[g := h])
    case InsertPeer(t, p) => db.(peers := db.peers[t := p], issued := db.issued + {t})
    case SweepDormant(c) => db.(peers := map t | t in db.peers :: Demoted(db.peers[t], c))
    case InsertMessage(f, t, g, x, at) =>
      db.(messages := db.messages[db.nextId := Message(f, t, g, x, at, false)], nextId := db.nextId + 1)
    case MarkDelivered(id) =>
      if id in db.messages then db.(messages := db.messages[id := db.messages[id].(delivered := true)]) else db
    case AckPrior(t, g, b) => db.(messages := map id | id in db.messages :: Acked(db.messages[id], t, g, b))
    case PurgeMessages(c) =>
      db.(messages := map id | id in db.messages && !Expires(db.messages[id], c) :: db.messages[id])
    case DeleteMessagesOf(t) =>
      db.(messages := map id | id in db.messages && !Mentions(db.messages[id], t) :: db.messages[id])
    case DeleteSessionsOf(t) =>
      db.(sessions := map k | k in db.sessions && db.sessions[k].token != t :: db.sessions[k])
    case DeletePeer(t) => db.(peers := db.peers - {t})
    case UpsertSession(k, t) =>
      // ON CONFLICT leaves the stored group_id alone.
      var g := if k in db.sessions then db.sessions[k].groupId else k.groupId;
      db.(sessions := db.sessions[k := Session(t, g)])
    case _ => UpdatePeer(db, s)
  }

  predicate NameTaken(db: Db, name: string, g: GroupId, except: Token) {
    exists u | u in db.peers :: u != except && db.peers[u].peerId == name && db.peers[u].groupId == g
  }

  predicate Accepts(db: Db, s: Stmt) {
    match s
    case InsertGroup(g, _) => g !in db.groups
    case InsertPeer(t, p) => t !in db.peers && p.groupId in db.groups && !NameTaken(db, p.peerId, p.groupId, t)
    case SetPeerId(t, id) => t in db.peers ==> !NameTaken(db, id, db.peers[t].groupId, t)
    case InsertMessage(f, t, _, _, _) => f in db.peers && t in db.peers
    case UpsertSession(_, t) => t in db.peers
    case DeletePeer(t) =>
      && (forall id | id in db.messages :: !Mentions(db.messages[id], t))
      && (forall k | k in db.sessions :: db.sessions[k].token != t)
    case _ => true
  }

  datatype Outcome = Outcome(db: Db, ok: bool)

  // A handler's statements, in order, up to and not including the first one refused.
  function Exec(db: Db, ss: seq<Stmt>): Outcome
    decreases ss
  {
    if ss == [] then Outcome(db, true)
    else if !Accepts(db, ss[0]) then Outcome(db, false)
    else Exec(Apply(db, ss[0]), ss[1..])
  }

  // Every state the tables go through while the statements run, both ends included.
  ghost function States(db: Db, ss: seq<Stmt>): seq<Db>
    decreases ss
  {
    [db] + if ss == [] || !Accepts(db, ss[0]) then [] else States(Apply(db, ss[0]), ss[1..])
  }

  lemma {:induction false} ExecAppend(db: Db, a: seq<Stmt>, b: seq<Stmt>)
    ensures Exec(db, a + b) == if Exec(db, a).ok then Exec(Exec(db, a).db, b) else Exec(db, a)
    decreases a
  {
    if a == [] {
      assert a + b == b;
    } else {
      assert (a + b)[0] == a[0] && (a + b)[1..] == a[1..] + b;
      if Accepts(db, a[0]) {
        ExecAppend(Apply(db, a[0]), a[1..], b);
      }
    }
  }

  lemma {:induction false} LastState(db: Db, ss: seq<Stmt>)
    ensures var ds := States(db, ss); ds[0] == db && ds[|ds| - 1] == Exec(db, ss).db
    decreases ss
  {
    if ss != [] && Accepts(db, ss[0]) {
      LastState(Apply(db, ss[0]), ss[1..]);
    }
  }

  lemma PurgeEffect(db: Db, c: Instant, id: nat)
    requires id in db.messages
    ensures var m, after := db.messages[id], Apply(db, PurgeMessages(c)).messages;
            && (id in after <==> m.delivered || !BeforeCutoff(m.sentAt, c))
            && (id in after ==> after[id] == m)
  {
  }

  // The TTL purge, by date: what is delivered or not of an earlier date stays, as it is.
  lemma PurgeByDate(db: Db, c: Instant, id: nat)
    requires id in db.messages && Printable(c) && Printable(db.messages[id].sentAt)
    ensures var m, after := db.messages[id], Apply(db, PurgeMessages(c)).messages;
            && (id in after <==> m.delivered || Day(m.sentAt) >= Day(c))
            && (id in after ==> after[id] == m)
  {
    PurgeEffect(db, c, id);
    MixedOrder(db.messages[id].sentAt, c);
  }

  // ----- the schema's own constraints -----

  ghost predicate SchemaHolds(db: Db) {
    && (forall t :: t in db.peers ==> db.peers[t].groupId in db.groups)
    && (forall t, u :: t in db.peers && u in db.peers && t != u
          ==> db.peers[t].peerId != db.peers[u].peerId || db.peers[t].groupId != db.peers[u].groupId)
    && (forall id :: id in db.messages ==> db.messages[id].from in db.peers && db.messages[id].to in db.peers)
    && (forall k :: k in db.sessions ==> db.sessions[k].token in db.peers)
  }

  predicate DuplicateKey(db: Db, s: Stmt) {
    (s.InsertGroup? && s.groupId in db.groups) || (s.InsertPeer? && s.token in db.peers)
  }

  // Accepts is exactly the check that the schema's constraints still hold afterwards.
  lemma AcceptsIsTheSchemaCheck(db: Db, s: Stmt)
    requires SchemaHolds(db) && db.nextId !in db.messages
    ensures Accepts(db, s) <==> !DuplicateKey(db, s) && SchemaHolds(Apply(db, s))
  {
    if Accepts(db, s) {
      AcceptedKeepsSchema(db, s);
    } else if !DuplicateKey(db, s) {
      RefusedBreaksSchema(db, s);
    }
  }

  lemma AcceptedKeepsSchema(db: Db, s: Stmt)
    requires SchemaHolds(db) && db.nextId !in db.messages && Accepts(db, s)
    ensures SchemaHolds(Apply(db, s))
  {
    AcceptedKeepsReferences(db, s);
    AcceptedKeepsNames(db, s);
  }

  lemma AcceptedKeepsReferences(db: Db, s: Stmt)
    requires SchemaHolds(db) && db.nextId !in db.messages && Accepts(db, s)
    ensures var e := Apply(db, s);
            && (forall t :: t in e.peers ==> e.peers[t].groupId in e.groups)
            && (forall id :: id in e.messages ==> e.messages[id].from in e.peers && e.messages[id].to in e.peers)
            && (forall k :: k in e.sessions ==> e.sessions[k].token in e.peers)
  {
    if AddsNoReference(s) {
      KeepsPeerGroups(db, s);
      KeepsEndpoints(db, s);
      KeepsSessions(db, s);
    } else {
      AddedReferencesResolve(db, s);
    }
  }

  lemma AddedReferencesResolve(db: Db, s: Stmt)
    requires SchemaHolds(db) && db.nextId !in db.messages && Accepts(db, s) && !AddsNoReference(s)
    ensures var e := Apply(db, s);
            && (forall t :: t in e.peers ==> e.peers[t].groupId in e.groups)
            && (forall id :: id in e.messages ==> e.messages[id].from in e.peers && e.messages[id].to in e.peers)
            && (forall k :: k in e.sessions ==> e.sessions[k].token in e.peers)
  {
    hide Accepts, Apply;
    if s.InsertPeer? || s.DeletePeer? {
      PeersResolve(db, s);
    } else {
      AddedResolves(db, s);
    }
  }

  lemma PeersResolve(db: Db, s: Stmt)
    requires SchemaHolds(db) && Accepts(db, s) && (s.InsertPeer? || s.DeletePeer?)
    ensures var e := Apply(db, s);
            && (forall t :: t in e.peers ==> e.peers[t].groupId in e.groups)
            && (forall id :: id in e.messages ==> e.messages[id].from in e.peers && e.messages[id].to in e.peers)
            && (forall k :: k in e.sessions ==> e.sessions[k].token in e.peers)
  {
    hide NameTaken;
  }

  lemma AddedResolves(db: Db, s: Stmt)
    requires SchemaHolds(db) && Accepts(db, s) && (s.InsertMessage? || s.UpsertSession?)
    ensures var e := Apply(db, s);
            && (forall t :: t in e.peers ==> e.peers[t].groupId in e.groups)
            && (forall id :: id in e.messages ==> e.messages[id].from in e.peers && e.messages[id].to in e.peers)
            && (forall k :: k in e.sessions ==> e.sessions[k].token in e.peers)
  {
  }

  // Every other statement leaves the rows of a table, or fewer of them, with their reference columns.
  predicate AddsNoReference(s: Stmt) {
    !s.InsertPeer? && !s.DeletePeer? && !s.InsertMessage? && !s.UpsertSession?
  }

  // The same rows, each in its group.
  ghost predicate SameGroups(a: map<Token, Peer>, b: map<Token, Peer>) {
    a.Keys == b.Keys && forall t :: t in a ==> a[t].groupId == b[t].groupId
  }

  lemma UpdatedKeepsGroup(p: Peer, s: Stmt)
    requires IsRowUpdate(s)
    ensures Updated(p, s).groupId == p.groupId
  {
  }

  lemma RowUpdateKeepsGroups(db: Db, s: Stmt)
    requires IsRowUpdate(s)
    ensures SameGroups(db.peers, Apply(db, s).peers) && Apply(db, s).groups == db.groups
  {
    assert Apply(db, s) == UpdatePeer(db, s);
    hide Apply, Updated;
    if s.token in db.peers {
      UpdatedKeepsGroup(db.peers[s.token], s);
    }
  }

  lemma SweepKeepsGroups(db: Db, c: Instant)
    ensures SameGroups(db.peers, Apply(db, SweepDormant(c)).peers)
  {
  }

  lemma KeepsPeerGroups(db: Db, s: Stmt)
    requires AddsNoReference(s)
    ensures SameGroups(db.peers, Apply(db, s).peers) && db.groups.Keys <= Apply(db, s).groups.Keys
  {
    if IsRowUpdate(s) {
      RowUpdateKeepsGroups(db, s);
    } else if s.SweepDormant? {
      SweepKeepsGroups(db, s.cutoff);
    }
  }

  lemma KeepsEndpoints(db: Db, s: Stmt)
    requires AddsNoReference(s)
    ensures var e := Apply(db, s);
            forall id :: id in e.messages ==>
              id in db.messages && e.messages[id].from == db.messages[id].from &&
                e.messages[id].to == db.messages[id].to
  {
    hide TextLess, Iso, Sql;
  }

  lemma KeepsSessions(db: Db, s: Stmt)
    requires AddsNoReference(s)
    ensures forall k :: k in Apply(db, s).sessions ==> k in db.sessions && Apply(db, s).sessions[k] == db.sessions[k]
  {
    hide TextLess, Iso, Sql;
  }

  lemma AcceptedKeepsNames(db: Db, s: Stmt)
    requires SchemaHolds(db) && Accepts(db, s)
    ensures UniqueNames(Apply(db, s))
  {
    if s.SetPeerId? || s.InsertPeer? {
      NamedRowKeepsNames(db, s);
    } else {
      NoRenameKeepsNames(db, s);
    }
  }

  lemma NamedRowKeepsNames(db: Db, s: Stmt)
    requires SchemaHolds(db) && Accepts(db, s) && (s.SetPeerId? || s.InsertPeer?)
    ensures UniqueNames(Apply(db, s))
  {
    hide TextLess, Iso, Sql;
    var e := Apply(db, s);
    forall t, u | t in e.peers && u in e.peers && t != u
      ensures e.peers[t].peerId != e.peers[u].peerId || e.peers[t].groupId != e.peers[u].groupId
    {
      assert t != s.token ==> t in db.peers && e.peers[t] == db.peers[t];
      assert u != s.token ==> u in db.peers && e.peers[u] == db.peers[u];
    }
  }

  lemma NoRenameKeepsNames(db: Db, s: Stmt)
    requires SchemaHolds(db) && !s.SetPeerId? && !s.InsertPeer?
    ensures UniqueNames(Apply(db, s))
  {
    hide SchemaHolds, UniqueNames, Apply;
    if IsRowUpdate(s) {
      UpdateKeepsNames(db, s);
    } else if s.SweepDormant? {
      SweepKeepsNames(db, s.cutoff);
    } else {
      RestKeepsNames(db, s);
    }
  }

  lemma UpdatedKeepsName(p: Peer, s: Stmt)
    requires IsRowUpdate(s) && !s.SetPeerId?
    ensures Updated(p, s).peerId == p.peerId && Updated(p, s).groupId == p.groupId
  {
  }

  lemma UpdateKeepsNames(db: Db, s: Stmt)
    requires SchemaHolds(db) && IsRowUpdate(s) && !s.SetPeerId?
    ensures UniqueNames(Apply(db, s))
  {
    assert Apply(db, s) == UpdatePeer(db, s);
    hide Apply, Updated;
    if s.token in db.peers {
      UpdatedKeepsName(db.peers[s.token], s);
      RowKeepsNames(db.peers, s.token, Updated(db.peers[s.token], s));
    }
  }

  lemma RestKeepsNames(db: Db, s: Stmt)
    requires SchemaHolds(db) && !IsRowUpdate(s) && !s.SweepDormant? && !s.InsertPeer?
    ensures UniqueNames(Apply(db, s))
  {
    RestKeepsRows(db, s);
    hide Apply;
  }

  lemma RestKeepsRows(db: Db, s: Stmt)
    requires !IsRowUpdate(s) && !s.SweepDormant? && !s.InsertPeer?
    ensures forall t :: t in Apply(db, s).peers ==> t in db.peers && Apply(db, s).peers[t] == db.peers[t]
  {
    hide Acked, BeforeCutoff;
  }

  lemma RowKeepsNames(ps: map<Token, Peer>, t: Token, p: Peer)
    requires t in ps && p.peerId == ps[t].peerId && p.groupId == ps[t].groupId
    requires forall u, v ::
        u in ps && v in ps && u != v ==> ps[u].peerId != ps[v].peerId || ps[u].groupId != ps[v].groupId
    ensures var e := ps[t := p];
            forall u, v :: u in e && v in e && u != v ==> e[u].peerId != e[v].peerId || e[u].groupId != e[v].groupId
  {
  }

  lemma SweepKeepsNames(db: Db, c: Instant)
    requires SchemaHolds(db)
    ensures UniqueNames(Apply(db, SweepDormant(c)))
  {
    var e := Apply(db, SweepDormant(c));
    assert forall t ::
        t in e.peers ==> e.peers[t].peerId == db.peers[t].peerId && e.peers[t].groupId == db.peers[t].groupId;
  }

  lemma RefusedBreaksSchema(db: Db, s: Stmt)
    requires SchemaHolds(db) && !Accepts(db, s) && !DuplicateKey(db, s)
    ensures !SchemaHolds(Apply(db, s))
  {
    if s.InsertPeer? || s.SetPeerId? {
      RefusedRow(db, s);
    } else {
      RefusedReference(db, s);
    }
  }

  lemma RefusedRow(db: Db, s: Stmt)
    requires !Accepts(db, s) && !DuplicateKey(db, s) && (s.InsertPeer? || s.SetPeerId?)
    ensures !SchemaHolds(Apply(db, s))
  {
    var e, t := Apply(db, s), s.token;
    assert t in e.peers;
    var p := e.peers[t];
    if NameTaken(db, p.peerId, p.groupId, t) {
      var u :| u in db.peers && u != t && db.peers[u].peerId == p.peerId && db.peers[u].groupId == p.groupId;
      assert u in e.peers && e.peers[u] == db.peers[u];
    }
  }

  lemma RefusedReference(db: Db, s: Stmt)
    requires !Accepts(db, s) && !DuplicateKey(db, s) && !s.InsertPeer? && !s.SetPeerId?
    ensures !SchemaHolds(Apply(db, s))
  {
    var e := Apply(db, s);
    match s {
      case InsertMessage(_, _, _, _, _) => assert db.nextId in e.messages;
      case UpsertSession(k, _) => assert k in e.sessions;
      case DeletePeer(t) =>
        if id :| id in db.messages && (db.messages[id].from == t || db.messages[id].to == t) {
          assert id in e.messages;
        } else {
          var k :| k in db.sessions && db.sessions[k].token == t;
          assert k in e.sessions;
        }
    }
  }

  // ----- the invariant -----

  function KeyOf(p: Peer): Key { Key(p.host, p.cwd, p.groupId) }

  ghost predicate MessageOk(db: Db, id: nat) requires id in db.messages {
    var m := db.messages[id];
    && 0 < id < db.nextId
    && m.from in db.peers && m.to in db.peers
    && m.groupId == db.peers[m.to].groupId
    && (m.from != DECK_TOKEN ==> m.groupId == db.peers[m.from].groupId)
    && m.to != DECK_TOKEN
  }

  ghost predicate SessionOk(db: Db, k: Key) requires k in db.sessions {
    var x := db.sessions[k];
    && x.token in db.peers && x.token != DECK_TOKEN
    && KeyOf(db.peers[x.token]) == k
    && x.groupId == k.groupId
  }

  ghost predicate PeerOk(db: Db, t: Token) requires t in db.peers {
    && t in db.issued
    && db.peers[t].groupId in db.groups
    && (t == DECK_TOKEN ==> db.peers[t].status == Dormant && db.peers[t].groupId == DEFAULT_GROUP)
  }

  ghost predicate UniqueNames(db: Db) {
    forall t, u :: t in db.peers && u in db.peers && t != u
      ==> db.peers[t].peerId != db.peers[u].peerId || db.peers[t].groupId != db.peers[u].groupId
  }

  // Referential integrity, and what the schema cannot say: groups agree along every reference, a
  // session belongs to the row registered from its host and directory, the deck row is dormant,
  // addressed by nobody and owns no session.
  ghost predicate Inv(db: Db) {
    && DEFAULT_GROUP in db.groups && DECK_TOKEN in db.issued && db.nextId > 0
    && (forall t :: t in db.peers ==> PeerOk(db, t))
    && UniqueNames(db)
    && (forall id :: id in db.messages ==> MessageOk(db, id))
    && (forall k :: k in db.sessions ==> SessionOk(db, k))
  }

  lemma InvImpliesSchema(db: Db)
    requires Inv(db)
    ensures SchemaHolds(db) && db.nextId !in db.messages
  {
    forall id | id in db.messages ensures db.messages[id].from in db.peers && db.messages[id].to in db.peers {
      assert MessageOk(db, id);
    }
    forall k | k in db.sessions ensures db.sessions[k].token in db.peers {
      assert SessionOk(db, k);
    }
    forall t | t in db.peers ensures db.peers[t].groupId in db.groups {
      assert PeerOk(db, t);
    }
    assert db.nextId in db.messages ==> MessageOk(db, db.nextId);
  }

  lemma AllIssued(db: Db)
    requires Inv(db)
    ensures db.peers.Keys <= db.issued
  {
    forall t | t in db.peers ensures t in db.issued { assert PeerOk(db, t); }
  }

  function InitDb(now: Instant): Db {
    Db(map[DEFAULT_GROUP := None],
       map[DECK_TOKEN := Peer(DECK_PEER_ID, DEFAULT_GROUP, 0, "", None, "", now, None, "", None, Dormant)],
       map[], map[], 1, {DECK_TOKEN})
  }

  lemma InitEstablishesInv(now: Instant)
    ensures Inv(InitDb(now))
  {
  }

  // What a handler must know before a statement for the invariant to survive it.
  ghost predicate Safe(db: Db, s: Stmt) {
    match s
    case InsertGroup(g, _) => g !in db.groups
    case InsertPeer(t, p) => t !in db.issued && p.groupId in db.groups && !NameTaken(db, p.peerId, p.groupId, t)
    case Reactivate(t, row) =>
      t != DECK_TOKEN && (t in db.peers ==> row.host == db.peers[t].host && row.cwd == db.peers[t].cwd)
    case SetPeerId(t, id) => t in db.peers ==> !NameTaken(db, id, db.peers[t].groupId, t)
    case InsertMessage(f, t, g, _, _) =>
      && f in db.peers && t in db.peers && t != DECK_TOKEN && g == db.peers[t].groupId
      && (f != DECK_TOKEN ==> g == db.peers[f].groupId)
    case UpsertSession(k, t) => t in db.peers && t != DECK_TOKEN && KeyOf(db.peers[t]) == k
    case DeletePeer(t) => Accepts(db, s)
    case _ => true
  }

  // Rows rewritten in place: names still unique, keys kept, the deck still dormant.
  lemma RewrittenKeepInv(db: Db, ps: map<Token, Peer>)
    requires Inv(db) && ps.Keys == db.peers.Keys && UniqueNames(db.(peers := ps))
    requires forall t :: t in ps ==>
               KeyOf(ps[t]) == KeyOf(db.peers[t]) && (t == DECK_TOKEN ==> ps[t].status == Dormant)
    ensures Inv(db.(peers := ps))
  {
    hide UniqueNames;
    var e := db.(peers := ps);
    forall u | u in e.peers ensures PeerOk(e, u) { assert PeerOk(db, u) && KeyOf(ps[u]) == KeyOf(db.peers[u]); }
    forall id | id in e.messages ensures MessageOk(e, id) {
      var m := db.messages[id];
      assert MessageOk(db, id);
      assert KeyOf(ps[m.to]) == KeyOf(db.peers[m.to]) && KeyOf(ps[m.from]) == KeyOf(db.peers[m.from]);
    }
    forall k | k in e.sessions ensures SessionOk(e, k) { assert SessionOk(db, k); }
  }

  // One row rewritten under a name that is free.
  lemma UpdateKeepsInv(db: Db, t: Token, p: Peer)
    requires Inv(db) && t in db.peers
    requires KeyOf(p) == KeyOf(db.peers[t])
    requires t == DECK_TOKEN ==> p.status == Dormant
    requires !NameTaken(db, p.peerId, p.groupId, t)
    ensures Inv(db.(peers := db.peers[t := p]))
  {
    var ps := db.peers[t := p];
    assert ps.Keys == db.peers.Keys;
    forall u | u in ps && u == DECK_TOKEN ensures ps[u].status == Dormant { assert PeerOk(db, u); }
    FreeNameIsUnique(db, t, p);
    hide UniqueNames, NameTaken;
    RewrittenKeepInv(db, ps);
  }

  lemma FreeNameIsUnique(db: Db, t: Token, p: Peer)
    requires UniqueNames(db) && !NameTaken(db, p.peerId, p.groupId, t)
    ensures UniqueNames(db.(peers := db.peers[t := p]))
  {
  }

  lemma OwnNameIsFree(db: Db, t: Token)
    requires Inv(db) && t in db.peers
    ensures !NameTaken(db, db.peers[t].peerId, db.peers[t].groupId, t)
  {
  }

  lemma MessagesKeepInv(db: Db, ms: map<nat, Message>)
    requires Inv(db)
    requires forall id ::
        id in ms ==> id in db.messages && ms[id].(delivered := false) == db.messages[id].(delivered := false)
    ensures Inv(db.(messages := ms))
  {
    var e := db.(messages := ms);
    forall u | u in e.peers ensures PeerOk(e, u) { assert PeerOk(db, u); }
    forall id | id in e.messages ensures MessageOk(e, id) {
      assert MessageOk(db, id);
      assert ms[id].from == db.messages[id].from && ms[id].to == db.messages[id].to &&
          ms[id].groupId == db.messages[id].groupId by {
        assert ms[id].(delivered := false).from == db.messages[id].(delivered := false).from;
        assert ms[id].(delivered := false).to == db.messages[id].(delivered := false).to;
        assert ms[id].(delivered := false).groupId == db.messages[id].(delivered := false).groupId;
      }
    }
    forall k | k in e.sessions ensures SessionOk(e, k) { assert SessionOk(db, k); }
  }

  // Rows may only fall dormant.
  lemma DemotionKeepsInv(db: Db, ps: map<Token, Peer>)
    requires Inv(db) && ps.Keys == db.peers.Keys
    requires forall t :: t in ps ==> ps[t] == db.peers[t] || ps[t] == db.peers[t].(status := Dormant)
    ensures Inv(db.(peers := ps))
  {
    forall u | u in ps && u == DECK_TOKEN ensures ps[u].status == Dormant { assert PeerOk(db, u); }
    assert UniqueNames(db.(peers := ps));
    hide UniqueNames;
    RewrittenKeepInv(db, ps);
  }

  lemma SweepKeepsInv(db: Db, c: Instant)
    requires Inv(db)
    ensures Inv(Apply(db, SweepDormant(c)))
  {
    DemotionKeepsInv(db, Apply(db, SweepDormant(c)).peers);
  }

  lemma InsertGroupKeepsInv(db: Db, g: GroupId, h: Option<Hash>)
    requires Inv(db) && g !in db.groups
    ensures Inv(Apply(db, InsertGroup(g, h)))
  {
    var e := Apply(db, InsertGroup(g, h));
    forall u | u in e.peers ensures PeerOk(e, u) { assert PeerOk(db, u); }
    forall id | id in e.messages ensures MessageOk(e, id) { assert MessageOk(db, id); }
    forall k | k in e.sessions ensures SessionOk(e, k) { assert SessionOk(db, k); }
  }

  lemma InsertMessageKeepsInv(db: Db, s: Stmt)
    requires Inv(db) && Safe(db, s) && s.InsertMessage?
    ensures Inv(Apply(db, s))
  {
    var e := Apply(db, s);
    forall u | u in e.peers ensures PeerOk(e, u) { assert PeerOk(db, u); }
    forall id | id in e.messages ensures MessageOk(e, id) { if id in db.messages { assert MessageOk(db, id); } }
    forall k | k in e.sessions ensures SessionOk(e, k) { assert SessionOk(db, k); }
  }

  lemma SessionsKeepInv(db: Db, xs: map<Key, Session>)
    requires Inv(db) && forall k :: k in xs ==> SessionOk(db.(sessions := xs), k)
    ensures Inv(db.(sessions := xs))
  {
    var e := db.(sessions := xs);
    forall u | u in e.peers ensures PeerOk(e, u) { assert PeerOk(db, u); }
    forall id | id in e.messages ensures MessageOk(e, id) { assert MessageOk(db, id); }
  }

  lemma SessionStmtKeepsInv(db: Db, s: Stmt)
    requires Inv(db) && Safe(db, s) && (s.UpsertSession? || s.DeleteSessionsOf?)
    ensures Inv(Apply(db, s))
  {
    var xs := Apply(db, s).sessions;
    forall k | k in xs ensures SessionOk(db.(sessions := xs), k) { if k in db.sessions { assert SessionOk(db, k); } }
    assert Apply(db, s) == db.(sessions := xs);
    hide Apply, Inv;
    SessionsKeepInv(db, xs);
  }

  lemma AddedRowKeepsInv(db: Db, t: Token, p: Peer)
    requires Inv(db) && t !in db.peers && t !in db.issued && p.groupId in db.groups
    requires !NameTaken(db, p.peerId, p.groupId, t)
    ensures Inv(db.(peers := db.peers[t := p], issued := db.issued + {t}))
  {
    var e := db.(peers := db.peers[t := p], issued := db.issued + {t});
    FreeNameIsUnique(db, t, p);
    assert UniqueNames(e);
    hide UniqueNames, NameTaken;
    forall u | u in e.peers ensures PeerOk(e, u) { if u in db.peers { assert PeerOk(db, u); } }
    forall id | id in e.messages ensures MessageOk(e, id) { assert MessageOk(db, id); }
    forall k | k in e.sessions ensures SessionOk(e, k) { assert SessionOk(db, k); }
  }

  lemma InsertPeerKeepsInv(db: Db, t: Token, p: Peer)
    requires Inv(db) && Safe(db, InsertPeer(t, p))
    ensures t !in db.peers && Inv(Apply(db, InsertPeer(t, p)))
  {
    hide Inv, NameTaken;
    AllIssued(db);
    AddedRowKeepsInv(db, t, p);
  }

  lemma RowGoneKeepsInv(db: Db, t: Token)
    requires Inv(db)
    requires forall id :: id in db.messages ==> !Mentions(db.messages[id], t)
    requires forall k :: k in db.sessions ==> db.sessions[k].token != t
    ensures Inv(db.(peers := db.peers - {t}))
  {
    var e := db.(peers := db.peers - {t});
    assert UniqueNames(e);
    hide UniqueNames;
    forall u | u in e.peers ensures PeerOk(e, u) { assert PeerOk(db, u); }
    forall id | id in e.messages ensures MessageOk(e, id) { assert MessageOk(db, id) && !Mentions(db.messages[id], t); }
    forall k | k in e.sessions ensures SessionOk(e, k) { assert SessionOk(db, k); }
  }

  lemma DeletePeerKeepsInv(db: Db, t: Token)
    requires Inv(db) && Accepts(db, DeletePeer(t))
    ensures Inv(Apply(db, DeletePeer(t)))
  {
    hide Inv;
    RowGoneKeepsInv(db, t);
  }

  // A safe statement is accepted and keeps the invariant.
  lemma SafeKeepsInv(db: Db, s: Stmt)
    requires Inv(db) && Safe(db, s)
    ensures Accepts(db, s) && Inv(Apply(db, s))
  {
    match s {
      case InsertGroup(g, h) => InsertGroupKeepsInv(db, g, h);
      case InsertPeer(t, p) => InsertPeerKeepsInv(db, t, p);
      case InsertMessage(_, _, _, _, _) => InsertMessageKeepsInv(db, s);
      case UpsertSession(_, _) => SessionStmtKeepsInv(db, s);
      case DeleteSessionsOf(_) => SessionStmtKeepsInv(db, s);
      case DeletePeer(t) => DeletePeerKeepsInv(db, t);
      case SweepDormant(c) => SweepKeepsInv(db, c);
      case _ => RewritesKeepInv(db, s);
    }
  }

  lemma RewritesKeepInv(db: Db, s: Stmt)
    requires Inv(db) && Safe(db, s)
    requires IsRowUpdate(s) || s.MarkDelivered? || s.AckPrior? || s.PurgeMessages? || s.DeleteMessagesOf?
    ensures Accepts(db, s) && Inv(Apply(db, s))
  {
    hide Apply, Inv;
    if IsRowUpdate(s) {
      RowUpdateKeepsInv(db, s);
    } else {
      MessagesOnly(db, s);
      MessagesKeepInv(db, Apply(db, s).messages);
    }
  }

  lemma RowUpdateKeepsInv(db: Db, s: Stmt)
    requires Inv(db) && Safe(db, s) && IsRowUpdate(s)
    ensures Accepts(db, s) && Inv(Apply(db, s))
  {
    if s.token in db.peers {
      assert PeerOk(db, s.token);
      OwnNameIsFree(db, s.token);
      UpdateKeepsInv(db, s.token, Updated(db.peers[s.token], s));
    }
  }

  // Acks and deletions of messages: fewer rows, or rows that turn delivered.
  lemma MessagesOnly(db: Db, s: Stmt)
    requires s.MarkDelivered? || s.AckPrior? || s.PurgeMessages? || s.DeleteMessagesOf?
    ensures Apply(db, s) == db.(messages := Apply(db, s).messages)
    ensures forall id :: id in Apply(db, s).messages ==>
              id in db.messages &&
                Apply(db, s).messages[id].(delivered := false) == db.messages[id].(delivered := false)
  {
    hide TextLess, Iso, Sql;
  }

  // Each statement that gets to run is safe in the state it runs in.
  ghost predicate Guarded(db: Db, ss: seq<Stmt>)
    decreases ss
  {
    ss == [] || !Accepts(db, ss[0]) || (Safe(db, ss[0]) && Guarded(Apply(db, ss[0]), ss[1..]))
  }

  lemma {:induction false} GuardedKeepsInv(db: Db, ss: seq<Stmt>)
    requires Inv(db) && Guarded(db, ss)
    ensures forall d :: d in States(db, ss) ==> Inv(d)
    ensures Inv(Exec(db, ss).db)
    decreases ss
  {
    if ss != [] && Accepts(db, ss[0]) {
      SafeKeepsInv(db, ss[0]);
      GuardedKeepsInv(Apply(db, ss[0]), ss[1..]);
    }
  }

  lemma {:induction false} GuardedAppend(db: Db, a: seq<Stmt>, b: seq<Stmt>)
    requires Guarded(db, a) && (Exec(db, a).ok ==> Guarded(Exec(db, a).db, b))
    ensures Guarded(db, a + b)
    decreases a
  {
    if a == [] {
      assert a + b == b;
    } else {
      assert (a + b)[0] == a[0] && (a + b)[1..] == a[1..] + b;
      if Accepts(db, a[0]) {
        GuardedAppend(Apply(db, a[0]), a[1..], b);
      }
    }
  }

  // One statement at a time: what a handler's list does once its first statement has run.
  lemma Unfold(db: Db, s: Stmt, rest: seq<Stmt>)
    ensures Exec(db, [s] + rest) == if Accepts(db, s) then Exec(Apply(db, s), rest) else Outcome(db, false)
    ensures Guarded(db, [s] + rest) <==> !Accepts(db, s) || (Safe(db, s) && Guarded(Apply(db, s), rest))
    ensures States(db, [s] + rest) == [db] + if Accepts(db, s) then States(Apply(db, s), rest) else []
  {
    assert ([s] + rest)[1..] == rest;
  }
}
