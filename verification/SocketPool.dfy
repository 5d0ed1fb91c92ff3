// The broker's pool of authenticated sockets: for each instance token, the socket to push to.
module SocketPool {
  type Token = string
  type Socket = nat

  // An auth frame, accepted when the token names an active peer; or the close of a socket.
  datatype Event =
    | Auth(ws: Socket, token: Token, accepted: bool)
    | Close(ws: Socket)

  // `data` is each socket's own instance_token, set by its latest accepted auth.
  datatype State = State(pool: map<Token, Socket>, data: map<Socket, Token>)

  function Step(s: State, e: Event): State {
    match e
    case Auth(ws, t, accepted) =>
      if accepted then State(s.pool[t := ws], s.data[ws := t]) else s
    case Close(ws) =>
      if ws in s.data && s.data[ws] in s.pool && s.pool[s.data[ws]] == ws
      then s.(pool := s.pool - {s.data[ws]}) else s
  }

  function After(h: seq<Event>): State {
    if h == [] then State(map[], map[]) else Step(After(h[..|h| - 1]), h[|h| - 1])
  }

  // ----- what the pool holds, told from the history -----

  predicate IsAuth(e: Event, ws: Socket, t: Token) {
    e.Auth? && e.accepted && e.ws == ws && e.token == t
  }

  // The i-th event is the latest successful authentication as t, by ws.
  ghost predicate LatestAuth(h: seq<Event>, t: Token, ws: Socket, i: nat) {
    && i < |h| && IsAuth(h[i], ws, t)
    && forall j :: i < j < |h| ==> !(h[j].Auth? && h[j].accepted && h[j].token == t)
  }

  // ws authenticated last as u before position j.
  ghost predicate CurrentToken(h: seq<Event>, ws: Socket, u: Token, j: nat) {
    exists i :: 0 <= i < j && i < |h| && IsAuth(h[i], ws, u)
             && forall k :: i < k < j && k < |h| ==> !(h[k].Auth? && h[k].accepted && h[k].ws == ws)
  }

  // ws closed after position i while t was its current token.
  ghost predicate Released(h: seq<Event>, t: Token, ws: Socket, i: nat) {
    exists j :: i < j < |h| && h[j] == Close(ws) && CurrentToken(h, ws, t, j)
  }

  ghost predicate ShouldHold(h: seq<Event>, t: Token, ws: Socket) {
    exists i :: LatestAuth(h, t, ws, i) && !Released(h, t, ws, i)
  }

  lemma CurrentTokenShorter(h: seq<Event>, e: Event, ws: Socket, u: Token, j: nat)
    requires j <= |h|
    ensures CurrentToken(h + [e], ws, u, j) <==> CurrentToken(h, ws, u, j)
  {
    var g := h + [e];
    if CurrentToken(g, ws, u, j) {
      var i :| 0 <= i < j && i < |g| && IsAuth(g[i], ws, u)
            && forall k :: i < k < j && k < |g| ==> !(g[k].Auth? && g[k].accepted && g[k].ws == ws);
      forall k | i < k < j && k < |h| ensures !(h[k].Auth? && h[k].accepted && h[k].ws == ws) { assert h[k] == g[k]; }
      assert IsAuth(h[i], ws, u);
    }
    if CurrentToken(h, ws, u, j) {
      var i :| 0 <= i < j && i < |h| && IsAuth(h[i], ws, u)
            && forall k :: i < k < j && k < |h| ==> !(h[k].Auth? && h[k].accepted && h[k].ws == ws);
      forall k | i < k < j && k < |g| ensures !(g[k].Auth? && g[k].accepted && g[k].ws == ws) { assert h[k] == g[k]; }
      assert IsAuth(g[i], ws, u);
    }
  }

  lemma {:induction false} DataIsCurrentToken(h: seq<Event>, ws: Socket, u: Token)
    ensures (ws in After(h).data && After(h).data[ws] == u) <==> CurrentToken(h, ws, u, |h|)
    decreases |h|
  {
    if h != [] {
      var p, e := h[..|h| - 1], h[|h| - 1];
      assert h == p + [e];
      DataIsCurrentToken(p, ws, u);
      CurrentTokenShorter(p, e, ws, u, |p|);
      if e.Auth? && e.accepted && e.ws == ws {
        assert IsAuth(h[|p|], ws, e.token);
        assert CurrentToken(h, ws, e.token, |h|);
      } else {
        LastEventIrrelevant(p, e, ws, u);
      }
    }
  }

  lemma LastEventIrrelevant(p: seq<Event>, e: Event, ws: Socket, u: Token)
    requires !(e.Auth? && e.accepted && e.ws == ws)
    ensures CurrentToken(p + [e], ws, u, |p| + 1) <==> CurrentToken(p + [e], ws, u, |p|)
  {
    var h := p + [e];
    if CurrentToken(h, ws, u, |p| + 1) {
      var i :| 0 <= i < |p| + 1 && i < |h| && IsAuth(h[i], ws, u)
            && forall k :: i < k < |p| + 1 && k < |h| ==> !(h[k].Auth? && h[k].accepted && h[k].ws == ws);
      assert i != |p|;
    }
    if CurrentToken(h, ws, u, |p|) {
      var i :| 0 <= i < |p| && i < |h| && IsAuth(h[i], ws, u)
            && forall k :: i < k < |p| && k < |h| ==> !(h[k].Auth? && h[k].accepted && h[k].ws == ws);
      assert forall k :: i < k < |p| + 1 && k < |h| ==> !(h[k].Auth? && h[k].accepted && h[k].ws == ws);
    }
  }

  lemma LatestAuthUnique(h: seq<Event>, t: Token, ws: Socket, v: Socket, i: nat, j: nat)
    requires LatestAuth(h, t, ws, i) && LatestAuth(h, t, v, j)
    ensures i == j && ws == v
  {
  }

  lemma LatestAuthShorter(p: seq<Event>, e: Event, t: Token, ws: Socket, i: nat)
    requires !(e.Auth? && e.accepted && e.token == t)
    ensures LatestAuth(p + [e], t, ws, i) <==> LatestAuth(p, t, ws, i)
  {
    var h := p + [e];
    assert i < |p| ==> h[i] == p[i];
    assert h[|p|] == e;
    if LatestAuth(p, t, ws, i) {
      forall j | i < j < |h| ensures !(h[j].Auth? && h[j].accepted && h[j].token == t) {
        assert j < |p| ==> h[j] == p[j];
      }
    }
    if LatestAuth(h, t, ws, i) {
      forall j | i < j < |p| ensures !(p[j].Auth? && p[j].accepted && p[j].token == t) {
        assert h[j] == p[j];
      }
    }
  }

  lemma ReleasedShorter(p: seq<Event>, e: Event, t: Token, ws: Socket, i: nat)
    requires i < |p|
    ensures Released(p + [e], t, ws, i) <==> Released(p, t, ws, i) || (e == Close(ws) && CurrentToken(p, ws, t, |p|))
  {
    var h := p + [e];
    if Released(h, t, ws, i) {
      var j :| i < j < |h| && h[j] == Close(ws) && CurrentToken(h, ws, t, j);
      CurrentTokenShorter(p, e, ws, t, j);
      assert j < |p| ==> p[j] == Close(ws);
    }
    if Released(p, t, ws, i) {
      var j :| i < j < |p| && p[j] == Close(ws) && CurrentToken(p, ws, t, j);
      CurrentTokenShorter(p, e, ws, t, j);
      assert h[j] == Close(ws);
    }
    if e == Close(ws) && CurrentToken(p, ws, t, |p|) {
      CurrentTokenShorter(p, e, ws, t, |p|);
      assert h[|p|] == Close(ws);
    }
  }

  // After any history at all: the pool sends t to ws exactly when ws is the latest to have
  // authenticated as t and has not closed since with t as its own latest token.
  lemma {:induction false} PoolHoldsLatest(h: seq<Event>, t: Token, ws: Socket)
    ensures (t in After(h).pool && After(h).pool[t] == ws) <==> ShouldHold(h, t, ws)
    decreases |h|
  {
    if h != [] {
      var p, e := h[..|h| - 1], h[|h| - 1];
      assert h == p + [e];
      if e.Auth? && e.accepted && e.token == t {
        assert LatestAuth(h, t, e.ws, |p|);
        if ShouldHold(h, t, ws) {
          var i :| LatestAuth(h, t, ws, i) && !Released(h, t, ws, i);
          LatestAuthUnique(h, t, ws, e.ws, i, |p|);
        }
      } else {
        PoolAfterOther(p, e, t, ws);
      }
    }
  }

  lemma {:induction false} PoolAfterOther(p: seq<Event>, e: Event, t: Token, ws: Socket)
    requires !(e.Auth? && e.accepted && e.token == t)
    ensures (t in After(p + [e]).pool && After(p + [e]).pool[t] == ws) <==> ShouldHold(p + [e], t, ws)
    decreases |p| + 1, 0
  {
    PoolHoldsLatest(p, t, ws);
    var h := p + [e];
    assert h[..|h| - 1] == p;
    if e.Close? {
      DataIsCurrentToken(p, e.ws, t);
    }
    forall i: nat ensures LatestAuth(h, t, ws, i) <==> LatestAuth(p, t, ws, i) {
      LatestAuthShorter(p, e, t, ws, i);
    }
    forall i: nat | i < |p|
      ensures Released(h, t, ws, i) <==> Released(p, t, ws, i) || (e == Close(ws) && CurrentToken(p, ws, t, |p|))
    {
      ReleasedShorter(p, e, t, ws, i);
    }
  }

  // ----- one token per socket -----

  ghost predicate OneTokenEach(h: seq<Event>) {
    forall i, j :: 0 <= i < |h| && 0 <= j < |h| && h[i].Auth? && h[j].Auth? && h[i].accepted && h[j].accepted &&
        h[i].ws == h[j].ws
      ==> h[i].token == h[j].token
  }

  ghost predicate OpenSince(h: seq<Event>, ws: Socket, i: nat) {
    forall j :: i < j < |h| ==> h[j] != Close(ws)
  }

  // When every socket keeps to one token, the pool holds for t exactly the socket that authenticated
  // last as t, as long as it is open.
  lemma PoolHoldsLatestOpen(h: seq<Event>, t: Token, ws: Socket)
    requires OneTokenEach(h)
    ensures (t in After(h).pool && After(h).pool[t] == ws) <==>
              exists i :: LatestAuth(h, t, ws, i) && OpenSince(h, ws, i)
  {
    PoolHoldsLatest(h, t, ws);
    forall i: nat | LatestAuth(h, t, ws, i) ensures Released(h, t, ws, i) <==> !OpenSince(h, ws, i) {
      if !OpenSince(h, ws, i) {
        var j :| i < j < |h| && h[j] == Close(ws);
        LastAuthBefore(h, t, ws, i, j);
      }
    }
  }

  // A socket that authenticated as t still has t as its current token, or has moved on to another.
  lemma {:induction false} LastAuthBefore(h: seq<Event>, t: Token, ws: Socket, i: nat, j: nat)
    requires i < j <= |h| && IsAuth(h[i], ws, t)
    ensures CurrentToken(h, ws, t, j)
         || exists k :: i < k < j && h[k].Auth? && h[k].accepted && h[k].ws == ws && h[k].token != t
    decreases j - i
  {
    if k :| i < k < j && k < |h| && h[k].Auth? && h[k].accepted && h[k].ws == ws {
      if h[k].token == t {
        LastAuthBefore(h, t, ws, k, j);
      }
    } else {
      assert IsAuth(h[i], ws, t);
    }
  }

  // A closed socket stays in the pool only if it had moved on to another token in between.
  lemma StaleEntryNeedsSecondToken(h: seq<Event>, t: Token, ws: Socket, i: nat, j: nat)
    requires t in After(h).pool && After(h).pool[t] == ws
    requires LatestAuth(h, t, ws, i) && i < j < |h| && h[j] == Close(ws)
    ensures exists k :: i < k < j && h[k].Auth? && h[k].accepted && h[k].ws == ws && h[k].token != t
  {
    PoolHoldsLatest(h, t, ws);
    var i' :| LatestAuth(h, t, ws, i') && !Released(h, t, ws, i');
    LatestAuthUnique(h, t, ws, ws, i, i');
    LastAuthBefore(h, t, ws, i, j);
  }

  // And it does then: one socket, two tokens, one close.
  lemma SecondTokenLeavesStaleEntry(ws: Socket, t: Token, u: Token)
    requires t != u
    ensures var h := [Auth(ws, t, true), Auth(ws, u, true), Close(ws)];
            t in After(h).pool && After(h).pool[t] == ws && u !in After(h).pool
  {
    var a, b, c := Auth(ws, t, true), Auth(ws, u, true), Close(ws);
    assert [a][..0] == [] && [a, b][..1] == [a] && [a, b, c][..2] == [a, b];
    assert After([a]) == Step(After([]), a);
    assert After([a, b]) == Step(After([a]), b);
    assert After([a, b, c]) == Step(After([a, b]), c);
  }

  // Once a socket that kept to one token has closed, the pool does not have it.
  lemma ClosedIsGone(h: seq<Event>, ws: Socket, t: Token)
    requires OneTokenEach(h) && h != [] && h[|h| - 1] == Close(ws)
    ensures t in After(h).pool ==> After(h).pool[t] != ws
  {
    PoolHoldsLatestOpen(h, t, ws);
    assert h[|h| - 1] == Close(ws);
  }

  // ----- the running program -----

  // A first frame that is no JSON, one that is no auth frame or names no token, or an auth frame.
  datatype Frame = Malformed | Unexpected | AuthAs(token: Token)

  // Closed with a code, or in the pool, with the token's backlog to be replayed now.
  datatype Outcome = Refused(code: nat) | Replay(token: Token)

  function Accepted(frame: Frame, active: set<Token>): bool {
    frame.AuthAs? && frame.token != "" && frame.token in active
  }

  class WsPool {
    var pool: map<Token, Socket>
    var data: map<Socket, Token>
    ghost var history: seq<Event>

    ghost predicate Valid()
      reads this
    {
      State(pool, data) == After(history)
    }

    // For every token exactly the socket that the history calls for.
    ghost predicate HoldsWhatItShould()
      reads this
    {
      forall t, s :: (t in pool && pool[t] == s) <==> ShouldHold(history, t, s)
    }

    constructor ()
      ensures Valid() && history == []
    {
      pool, data, history := map[], map[], [];
    }

    // `active` are the tokens of active peers. Afterwards the pool has for every token what its whole
    // history says, and for an accepted one this socket.
    method Message(ws: Socket, frame: Frame, active: set<Token>) returns (outcome: Outcome)
      requires Valid()
      modifies this
      ensures Valid()
      ensures history == if Accepted(frame, active) then old(history) + [Auth(ws, frame.token, true)] else old(history)
      ensures outcome == if Accepted(frame, active) then Replay(frame.token)
                         else Refused(if frame.Malformed? then 1003 else 1008)
      ensures outcome.Replay? <==> frame.AuthAs? && frame.token != "" && frame.token in active
      ensures outcome.Replay? ==> outcome.token in pool && pool[outcome.token] == ws
      ensures HoldsWhatItShould()
    {
      if frame.Malformed? {
        outcome := Refused(1003);
      } else if frame.Unexpected? || frame.token == "" || frame.token !in active {
        outcome := Refused(1008);
      } else {
        Register(ws, frame.token);
        outcome := Replay(frame.token);
      }
      HoldsByHistory();
    }

    method Register(ws: Socket, token: Token)
      requires Valid()
      modifies this
      ensures Valid() && history == old(history) + [Auth(ws, token, true)]
      ensures token in pool && pool[token] == ws
    {
      hide After;
      data := data[ws := token];
      pool := pool[token := ws];
      Extend(history, Auth(ws, token, true));
      history := history + [Auth(ws, token, true)];
    }

    // No other socket loses its entry and none gains one; and if every socket has kept to one token,
    // the closed one has none left.
    method Closed(ws: Socket)
      requires Valid()
      modifies this
      ensures Valid() && history == old(history) + [Close(ws)]
      ensures HoldsWhatItShould()
      ensures forall t :: t in old(pool) && old(pool)[t] != ws ==> t in pool && pool[t] == old(pool)[t]
      ensures pool.Items <= old(pool).Items
      ensures OneTokenEach(history) ==> forall t :: t in pool ==> pool[t] != ws
    {
      hide After;
      if ws in data && data[ws] in pool && pool[data[ws]] == ws {
        pool := pool - {data[ws]};
      }
      Extend(history, Close(ws));
      history := history + [Close(ws)];
      HoldsByHistory();
      if OneTokenEach(history) {
        forall t | t in pool ensures pool[t] != ws {
          ClosedIsGone(history, ws, t);
        }
      }
    }

    lemma HoldsByHistory()
      requires Valid()
      ensures HoldsWhatItShould()
    {
      forall t, s ensures (t in pool && pool[t] == s) <==> ShouldHold(history, t, s) {
        PoolHoldsLatest(history, t, s);
      }
    }
  }

  lemma Extend(h: seq<Event>, e: Event)
    ensures After(h + [e]) == Step(After(h), e)
  {
    assert (h + [e])[..|h|] == h;
  }
}
