// Tiles as they run and tiles as a workspace file keeps them.
module SessionMap {
  import opened JsText
  import opened Options

  datatype SessionDef = SessionDef(
    id: string, name: string, cwd: string, command: string, args: string, sessionId: string, color: string,
    effort: Option<string>, createdAt: int)

  datatype WorkspaceSession = WorkspaceSession(
    claudeSessionId: string, name: string, cwd: string, args: seq<string>, color: string, position: real)

  // ----- args -----

  function WordLength(s: string): (n: nat)
    ensures n <= |s| && (forall i :: 0 <= i < n ==> !IsSpace(s[i])) && (n < |s| ==> IsSpace(s[n]))
  {
    if s != "" && !IsSpace(s[0]) then 1 + WordLength(s[1..]) else 0
  }

  // s.split(/\s+/)
  function SplitAtSpace(s: string): seq<string>
    decreases |s|
  {
    var n := WordLength(s);
    if n == |s| then [s] else [s[..n]] + SplitAtSpace(TrimStart(s[n..]))
  }

  function SplitArgs(args: string): seq<string> {
    if Trim(args) == "" then [] else SplitAtSpace(Trim(args))
  }

  function JoinArgs(args: seq<string>): string {
    if args == [] then "" else if |args| == 1 then args[0] else args[0] + " " + JoinArgs(args[1..])
  }

  predicate IsToken(t: string) { t != "" && forall i :: 0 <= i < |t| ==> !IsSpace(t[i]) }

  predicate AreTokens(ts: seq<string>) { forall i :: 0 <= i < |ts| ==> IsToken(ts[i]) }

  predicate IsTrimmed(s: string) { s != "" && !IsSpace(s[0]) && !IsSpace(s[|s| - 1]) }

  function Visible(s: string): string {
    if s == "" then "" else if IsSpace(s[0]) then Visible(s[1..]) else [s[0]] + Visible(s[1..])
  }

  lemma RestIsTrimmed(s: string, tail: string)
    requires tail != "" && IsSpace(tail[0]) && IsTrimmed(s) && |tail| <= |s| && tail == s[|s| - |tail|..]
    ensures IsTrimmed(TrimStart(tail)) && |TrimStart(tail)| < |s|
  {
    var gone := TrimStartIs(tail);
    var r := TrimStart(tail);
    assert tail[|tail| - 1] == s[|s| - 1];
    assert r == "" ==> tail == gone;
    assert r != "" ==> r[|r| - 1] == tail[|tail| - 1];
  }

  // The first word, and what splitting goes on with.
  lemma SplitParts(s: string) returns (w: string, r: string)
    requires IsTrimmed(s) && WordLength(s) < |s|
    ensures IsToken(w) && IsTrimmed(r) && |r| < |s|
    ensures SplitAtSpace(s) == [w] + SplitAtSpace(r) && Visible(s) == Visible(w) + Visible(r)
  {
    var n := WordLength(s);
    w, r := s[..n], TrimStart(s[n..]);
    RestIsTrimmed(s, s[n..]);
    VisibleParts(w, s[n..]);
    assert s == w + s[n..];
  }

  lemma VisibleParts(w: string, tail: string)
    ensures Visible(w + tail) == Visible(w) + Visible(TrimStart(tail))
  {
    VisibleTrimStart(tail);
    VisibleAppend(w, tail);
  }

  lemma {:induction false} SplitIsTokens(s: string)
    requires IsTrimmed(s)
    ensures AreTokens(SplitAtSpace(s)) && SplitAtSpace(s) != []
    decreases |s|
  {
    if WordLength(s) < |s| {
      var w, r := SplitParts(s);
      SplitIsTokens(r);
      TokensCons(w, SplitAtSpace(r));
    }
  }

  lemma TokensCons(w: string, ws: seq<string>)
    requires IsToken(w) && AreTokens(ws)
    ensures AreTokens([w] + ws)
  {
  }

  lemma TrimIsTrimmed(args: string)
    ensures Trim(args) == "" || IsTrimmed(Trim(args))
  {
    EndKeepsHead(TrimStart(args));
  }

  lemma EndKeepsHead(t: string)
    requires t != "" ==> !IsSpace(t[0])
    ensures TrimEnd(t) == "" || IsTrimmed(TrimEnd(t))
  {
    var gone := TrimEndIs(t);
    assert TrimEnd(t) != "" ==> TrimEnd(t)[0] == t[0];
  }

  lemma {:induction false} JoinIsTrimmed(ts: seq<string>)
    requires AreTokens(ts) && ts != []
    ensures IsTrimmed(JoinArgs(ts))
  {
    if |ts| > 1 {
      JoinIsTrimmed(ts[1..]);
      var j := JoinArgs(ts[1..]);
      assert JoinArgs(ts)[0] == ts[0][0] && JoinArgs(ts)[|JoinArgs(ts)| - 1] == j[|j| - 1];
    }
  }

  lemma FirstWord(t: string, rest: string)
    requires IsToken(t) && (rest == "" || IsSpace(rest[0]))
    ensures WordLength(t + rest) == |t|
  {
    var s := t + rest;
    assert forall i :: 0 <= i < |t| ==> s[i] == t[i];
    assert rest != "" ==> s[|t|] == rest[0];
  }

  // Splitting undoes joining for non-empty tokens without white space.
  lemma {:induction false} SplitUndoesJoin(ts: seq<string>)
    requires AreTokens(ts)
    ensures SplitArgs(JoinArgs(ts)) == ts
  {
    if ts != [] {
      JoinIsTrimmed(ts);
      TrimNothing(JoinArgs(ts));
      SplitAfterJoin(ts);
    }
  }

  lemma SplitCons(w: string, rest: string)
    requires IsToken(w) && IsTrimmed(rest)
    ensures SplitAtSpace(w + (" " + rest)) == [w] + SplitAtSpace(rest)
  {
    var s := w + (" " + rest);
    FirstWord(w, " " + rest);
    assert s[..|w|] == w && s[|w|..] == " " + rest;
    assert (" " + rest)[1..] == rest;
    assert TrimStart(" " + rest) == rest;
  }

  lemma {:induction false} SplitAfterJoin(ts: seq<string>)
    requires AreTokens(ts) && ts != []
    ensures SplitAtSpace(JoinArgs(ts)) == ts
  {
    if |ts| == 1 {
      FirstWord(ts[0], "");
      assert ts[0] + "" == ts[0];
    } else {
      JoinIsTrimmed(ts[1..]);
      assert ts == [ts[0]] + ts[1..];
      JoinCons(ts[0], ts[1..]);
      SplitCons(ts[0], JoinArgs(ts[1..]));
      SplitAfterJoin(ts[1..]);
    }
  }

  // What a trip through a workspace file leaves of an args string: the same tokens, one space apart;
  // the next trip leaves that alone.
  lemma ArgsTrip(args: string)
    ensures var once := JoinArgs(SplitArgs(args));
            SplitArgs(once) == SplitArgs(args) && JoinArgs(SplitArgs(once)) == once && Visible(once) == Visible(args)
  {
    TrimIsTrimmed(args);
    var t := Trim(args);
    VisibleTrimStart(args);
    VisibleTrimEnd(TrimStart(args));
    if t != "" {
      SplitIsTokens(t);
      SplitUndoesJoin(SplitArgs(args));
      VisibleSplit(t);
    }
  }

  lemma {:induction false} VisibleAppend(a: string, b: string)
    ensures Visible(a + b) == Visible(a) + Visible(b)
  {
    if a == "" {
      assert "" + b == b;
    } else {
      assert (a + b)[1..] == a[1..] + b;
      VisibleAppend(a[1..], b);
    }
  }

  lemma {:induction false} SpaceIsInvisible(s: string)
    requires forall i :: 0 <= i < |s| ==> IsSpace(s[i])
    ensures Visible(s) == ""
  {
    if s != "" {
      SpaceIsInvisible(s[1..]);
    }
  }

  lemma VisibleTrimStart(s: string)
    ensures Visible(TrimStart(s)) == Visible(s)
  {
    var gone := TrimStartIs(s);
    SpaceIsInvisible(gone);
    VisibleAppend(gone, TrimStart(s));
    assert "" + Visible(TrimStart(s)) == Visible(TrimStart(s));
  }

  lemma VisibleTrimEnd(s: string)
    ensures Visible(TrimEnd(s)) == Visible(s)
  {
    var gone := TrimEndIs(s);
    SpaceIsInvisible(gone);
    VisibleAppend(TrimEnd(s), gone);
    assert Visible(TrimEnd(s)) + "" == Visible(TrimEnd(s));
  }

  lemma JoinCons(w: string, ws: seq<string>)
    requires ws != []
    ensures JoinArgs([w] + ws) == w + (" " + JoinArgs(ws))
  {
    assert ([w] + ws)[1..] == ws;
  }

  lemma VisibleWords(w: string, rest: string)
    ensures Visible(w + (" " + rest)) == Visible(w) + Visible(rest)
  {
    VisibleAppend(w, " " + rest);
    VisibleAppend(" ", rest);
    SpaceIsInvisible(" ");
    assert "" + Visible(rest) == Visible(rest);
  }

  // Splitting and joining keep every visible character, in order.
  lemma {:induction false} VisibleSplit(s: string)
    requires IsTrimmed(s)
    ensures Visible(JoinArgs(SplitAtSpace(s))) == Visible(s)
    decreases |s|
  {
    if WordLength(s) < |s| {
      var w, r := SplitParts(s);
      VisibleSplit(r);
      SplitIsTokens(r);
      JoinCons(w, SplitAtSpace(r));
      VisibleWords(w, JoinArgs(SplitAtSpace(r)));
    }
  }

  // ----- the stable sort -----

  function Insert(x: WorkspaceSession, s: seq<WorkspaceSession>): seq<WorkspaceSession> {
    if s == [] || x.position <= s[0].position then [x] + s else [s[0]] + Insert(x, s[1..])
  }

  // Array.prototype.sort with (a, b) => a.position - b.position
  function Sort(s: seq<WorkspaceSession>): seq<WorkspaceSession> {
    if s == [] then [] else Insert(s[0], Sort(s[1..]))
  }

  predicate Ordered(s: seq<WorkspaceSession>) {
    forall i, j :: 0 <= i < j < |s| ==> s[i].position <= s[j].position
  }

  // The sessions at one position, in list order.
  function AtPosition(s: seq<WorkspaceSession>, p: real): seq<WorkspaceSession> {
    if s == [] then [] else if s[0].position == p then [s[0]] + AtPosition(s[1..], p) else AtPosition(s[1..], p)
  }

  // The same sessions, with those that share a position in the same order.
  ghost predicate SameGroups(a: seq<WorkspaceSession>, b: seq<WorkspaceSession>) {
    forall p: real :: AtPosition(a, p) == AtPosition(b, p)
  }

  lemma GroupCons(x: WorkspaceSession, s: seq<WorkspaceSession>, p: real)
    ensures AtPosition([x] + s, p) == if x.position == p then [x] + AtPosition(s, p) else AtPosition(s, p)
  {
    assert ([x] + s)[1..] == s;
  }

  lemma {:induction false} InsertMembers(x: WorkspaceSession, s: seq<WorkspaceSession>)
    ensures multiset(Insert(x, s)) == multiset{x} + multiset(s)
  {
    if s != [] && x.position > s[0].position {
      InsertMembers(x, s[1..]);
      assert s == [s[0]] + s[1..];
    }
  }

  lemma OrderedCons(x: WorkspaceSession, r: seq<WorkspaceSession>)
    requires Ordered(r) && forall y :: y in r ==> x.position <= y.position
    ensures Ordered([x] + r)
  {
  }

  lemma {:induction false} InsertOrdered(x: WorkspaceSession, s: seq<WorkspaceSession>)
    requires Ordered(s)
    ensures Ordered(Insert(x, s))
  {
    if s != [] && x.position > s[0].position {
      var r := Insert(x, s[1..]);
      InsertOrdered(x, s[1..]);
      InsertMembers(x, s[1..]);
      forall y | y in r ensures s[0].position <= y.position {
        assert y in multiset(r);
        assert y == x || y in multiset(s[1..]);
      }
      OrderedCons(s[0], r);
    }
  }

  // Passing what lies strictly before it leaves every group alone.
  lemma {:induction false} InsertGroups(x: WorkspaceSession, s: seq<WorkspaceSession>, p: real)
    ensures AtPosition(Insert(x, s), p) == AtPosition([x] + s, p)
  {
    if s != [] && x.position > s[0].position {
      InsertGroups(x, s[1..], p);
      GroupCons(s[0], Insert(x, s[1..]), p);
      GroupCons(x, s[1..], p);
      GroupCons(x, s, p);
    }
  }

  // For arbitrary positions the rebuild order is sorted, a permutation, and stable.
  lemma {:induction false} SortIsStable(s: seq<WorkspaceSession>)
    ensures Ordered(Sort(s)) && multiset(Sort(s)) == multiset(s) && SameGroups(Sort(s), s)
  {
    if s != [] {
      var t := Sort(s[1..]);
      SortIsStable(s[1..]);
      InsertMembers(s[0], t);
      InsertOrdered(s[0], t);
      assert s == [s[0]] + s[1..];
      forall p: real ensures AtPosition(Sort(s), p) == AtPosition(s, p) {
        InsertGroups(s[0], t, p);
        GroupCons(s[0], t, p);
        assert AtPosition(t, p) == AtPosition(s[1..], p);
      }
    }
  }

  lemma {:induction false} GroupMember(s: seq<WorkspaceSession>, p: real)
    ensures AtPosition(s, p) != [] ==> exists x :: x in s && x.position == p && x == AtPosition(s, p)[0]
  {
    if s != [] {
      GroupMember(s[1..], p);
    }
  }

  // Nothing else is: sorted and stable determine the list.
  lemma {:induction false} StableOrderIsUnique(a: seq<WorkspaceSession>, b: seq<WorkspaceSession>)
    requires Ordered(a) && Ordered(b) && SameGroups(a, b)
    ensures a == b
  {
    HeadsAgree(a, b);
    if a != [] {
      var x, s, t := a[0], a[1..], b[1..];
      assert a == [x] + s && b == [x] + t;
      forall p: real ensures AtPosition(s, p) == AtPosition(t, p) {
        assert AtPosition(a, p) == AtPosition(b, p);
        GroupCons(x, s, p);
        GroupCons(x, t, p);
        if x.position == p {
          assert AtPosition(s, p) == AtPosition(a, p)[1..];
        }
      }
      StableOrderIsUnique(s, t);
    }
  }

  lemma HeadIsLeast(a: seq<WorkspaceSession>, b: seq<WorkspaceSession>)
    requires a != [] && Ordered(b) && SameGroups(a, b)
    ensures b != [] && b[0].position <= a[0].position
  {
    assert AtPosition(a, a[0].position) == AtPosition(b, a[0].position);
    GroupMember(b, a[0].position);
  }

  lemma HeadsAgree(a: seq<WorkspaceSession>, b: seq<WorkspaceSession>)
    requires Ordered(a) && Ordered(b) && SameGroups(a, b)
    ensures (a == [] <==> b == []) && (a != [] ==> a[0] == b[0])
  {
    if a != [] {
      HeadIsLeast(a, b);
      HeadIsLeast(b, a);
      assert AtPosition(a, a[0].position)[0] == a[0];
      assert AtPosition(b, a[0].position)[0] == b[0];
    } else if b != [] {
      HeadIsLeast(b, a);
    }
  }

  // ----- the mapping -----

  function ToWorkspaceSessions(defs: seq<SessionDef>): (r: seq<WorkspaceSession>)
    ensures |r| == |defs| && forall i :: 0 <= i < |defs| ==> r[i] == Persisted(defs[i], i as real)
  {
    seq(|defs|, i requires 0 <= i < |defs| => Persisted(defs[i], i as real))
  }

  function Persisted(d: SessionDef, position: real): WorkspaceSession {
    WorkspaceSession(d.sessionId, d.name, d.cwd, SplitArgs(d.args), d.color, position)
  }

  function Rebuilt(s: WorkspaceSession, id: string, now: int): SessionDef {
    SessionDef(id, s.name, s.cwd, "", JoinArgs(s.args), s.claudeSessionId, s.color, None, now)
  }

  // The UUID given to the i-th rebuilt def and the clock are parameters.
  function FromWorkspaceSessions(sessions: seq<WorkspaceSession>, mint: nat -> string, now: int): (r: seq<SessionDef>)
    ensures |r| == |Sort(sessions)| && forall i :: 0 <= i < |r| ==> r[i] == Rebuilt(Sort(sessions)[i], mint(i), now)
  {
    var sorted := Sort(sessions);
    seq(|sorted|, i requires 0 <= i < |sorted| => Rebuilt(sorted[i], mint(i), now))
  }

  lemma OrderedIsSorted(s: seq<WorkspaceSession>)
    requires Ordered(s)
    ensures Sort(s) == s
  {
    SortIsStable(s);
    StableOrderIsUnique(Sort(s), s);
  }

  // The same tile but for its local id, its age, the command override and the effort, with the args
  // up to white space.
  predicate SameTile(d: SessionDef, b: SessionDef) {
    && b.name == d.name && b.cwd == d.cwd && b.color == d.color && b.sessionId == d.sessionId
    && SplitArgs(b.args) == SplitArgs(d.args) && Visible(b.args) == Visible(d.args)
  }

  lemma TileTrip(d: SessionDef, position: real, id: string, now: int)
    ensures SameTile(d, Rebuilt(Persisted(d, position), id, now))
    ensures Persisted(Rebuilt(Persisted(d, position), id, now), position) == Persisted(d, position)
  {
    ArgsTrip(d.args);
  }

  // A round trip keeps order, name, cwd, colour and session id, and the args up to white space; it
  // Where a file keeps the columns of the i-th tile.
  predicate InFile(s: WorkspaceSession, d: SessionDef, i: nat) {
    && s.claudeSessionId == d.sessionId && s.name == d.name && s.cwd == d.cwd && s.color == d.color
    && s.args == SplitArgs(d.args) && s.position == i as real
  }

  // gives new ids and drops the command override and the effort.
  lemma RoundTrip(defs: seq<SessionDef>, mint: nat -> string, now: int)
    ensures var back := FromWorkspaceSessions(ToWorkspaceSessions(defs), mint, now);
            && |back| == |defs|
            && forall i :: 0 <= i < |defs| ==>
                 && SameTile(defs[i], back[i])
                 && back[i].id == mint(i) && back[i].command == "" && back[i].effort == None && back[i].createdAt == now
    ensures forall i :: 0 <= i < |defs| ==> InFile(ToWorkspaceSessions(defs)[i], defs[i], i)
  {
    var saved := ToWorkspaceSessions(defs);
    OrderedIsSorted(saved);
    var back := FromWorkspaceSessions(saved, mint, now);
    forall i | 0 <= i < |defs| ensures SameTile(defs[i], back[i]) {
      assert back[i] == Rebuilt(Persisted(defs[i], i as real), mint(i), now);
      TileTrip(defs[i], i as real, mint(i), now);
    }
  }

  // What is saved again is what was saved.
  lemma SecondTripChangesNothing(defs: seq<SessionDef>, mint: nat -> string, now: int)
    ensures ToWorkspaceSessions(FromWorkspaceSessions(ToWorkspaceSessions(defs), mint, now)) ==
        ToWorkspaceSessions(defs)
  {
    var saved := ToWorkspaceSessions(defs);
    OrderedIsSorted(saved);
    var back := FromWorkspaceSessions(saved, mint, now);
    forall i | 0 <= i < |defs| ensures ToWorkspaceSessions(back)[i] == saved[i] {
      TileTrip(defs[i], i as real, mint(i), now);
    }
  }

  lemma SortKeepsLength(s: seq<WorkspaceSession>)
    ensures |Sort(s)| == |s| && forall i :: 0 <= i < |Sort(s)| ==> Sort(s)[i] in s
  {
    SortIsStable(s);
    assert |multiset(Sort(s))| == |Sort(s)| && |multiset(s)| == |s|;
    forall i | 0 <= i < |Sort(s)| ensures Sort(s)[i] in s {
      assert Sort(s)[i] in multiset(Sort(s));
    }
  }

  lemma StoredTrip(s: WorkspaceSession, id: string, now: int, position: real)
    requires AreTokens(s.args)
    ensures Persisted(Rebuilt(s, id, now), position) == s.(position := position)
  {
    SplitUndoesJoin(s.args);
  }

  // A saved file with arbitrary positions comes back as its stable order, renumbered.
  lemma ForeignFileTrip(sessions: seq<WorkspaceSession>, mint: nat -> string, now: int)
    requires forall s :: s in sessions ==> AreTokens(s.args)
    ensures var back := ToWorkspaceSessions(FromWorkspaceSessions(sessions, mint, now));
            && |back| == |sessions|
            && forall i :: 0 <= i < |sessions| ==> back[i] == Sort(sessions)[i].(position := i as real)
  {
    SortKeepsLength(sessions);
    var sorted := Sort(sessions);
    var back := ToWorkspaceSessions(FromWorkspaceSessions(sessions, mint, now));
    forall i | 0 <= i < |sorted| ensures back[i] == sorted[i].(position := i as real) {
      StoredTrip(sorted[i], mint(i), now, i as real);
    }
  }
}
