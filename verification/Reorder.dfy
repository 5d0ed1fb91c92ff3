// Drag-and-drop ordering.
module Reorder {

  ghost predicate Distinct<T>(s: seq<T>) {
    s == [] || (s[0] !in s[1..] && Distinct(s[1..]))
  }

  lemma {:induction false} DistinctAt<T>(s: seq<T>, i: nat, j: nat)
    requires Distinct(s) && i < j < |s|
    ensures s[i] != s[j]
  {
    if i == 0 {
      assert s[j] == s[1..][j - 1];
    } else {
      DistinctAt(s[1..], i - 1, j - 1);
    }
  }

  lemma {:induction false} AppendDistinct<T>(a: seq<T>, b: seq<T>)
    ensures Distinct(a + b) <==> Distinct(a) && Distinct(b) && forall x :: x in a ==> x !in b
  {
    if a == [] {
      assert a + b == b;
    } else {
      assert (a + b)[1..] == a[1..] + b;
      assert forall x :: x in a <==> x == a[0] || x in a[1..];
      AppendDistinct(a[1..], b);
    }
  }

  function Without(ids: seq<string>, x: string): seq<string> {
    if ids == [] then [] else if ids[0] == x then Without(ids[1..], x) else [ids[0]] + Without(ids[1..], x)
  }

  // Array.prototype.indexOf, for an element that is there.
  function IndexOf(ids: seq<string>, x: string): (i: nat)
    requires x in ids
    ensures i < |ids| && ids[i] == x && x !in ids[..i]
  {
    if ids[0] == x then 0
    else
      var i := IndexOf(ids[1..], x) + 1;
      assert ids[..i] == [ids[0]] + ids[1..][..i - 1];
      i
  }

  lemma {:induction false} IndexIs(ids: seq<string>, x: string, i: nat)
    requires i < |ids| && ids[i] == x && forall j :: 0 <= j < i ==> ids[j] != x
    ensures IndexOf(ids, x) == i
  {
    if i > 0 {
      IndexIs(ids[1..], x, i - 1);
    }
  }

  lemma {:induction false} WithoutMembers(ids: seq<string>, x: string, y: string)
    ensures y in Without(ids, x) <==> y in ids && y != x
  {
    if ids != [] {
      WithoutMembers(ids[1..], x, y);
    }
  }

  lemma {:induction false} WithoutConcat(a: seq<string>, b: seq<string>, x: string)
    ensures Without(a + b, x) == Without(a, x) + Without(b, x)
  {
    if a == [] {
      assert a + b == b;
    } else {
      assert (a + b)[1..] == a[1..] + b;
      WithoutConcat(a[1..], b, x);
    }
  }

  lemma {:induction false} WithoutAbsent(ids: seq<string>, x: string)
    requires x !in ids
    ensures Without(ids, x) == ids
  {
    if ids != [] {
      WithoutAbsent(ids[1..], x);
    }
  }

  function Moved(ids: seq<string>, source: string, target: string, after: bool): seq<string> {
    if source == target || source !in ids || target !in ids then ids
    else
      var next := Without(ids, source);
      WithoutMembers(ids, source, target);
      var to := IndexOf(next, target) + if after then 1 else 0;
      next[..to] + [source] + next[to..]
  }

  method MoveBeside(ids: seq<string>, source: string, target: string, after: bool) returns (next: seq<string>)
    ensures next == Moved(ids, source, target, after)
  {
    if source == target { return ids; }
    if source !in ids || target !in ids { return ids; }
    next := [];
    for k := 0 to |ids|
      invariant next == Without(ids[..k], source)
    {
      assert ids[..k + 1] == ids[..k] + [ids[k]];
      WithoutConcat(ids[..k], [ids[k]], source);
      if ids[k] != source {
        next := next + [ids[k]];
      }
    }
    assert ids[..|ids|] == ids;
    WithoutMembers(ids, source, target);
    var to := 0;
    while next[to] != target
      invariant 0 <= to <= IndexOf(next, target) && forall j :: 0 <= j < to ==> next[j] != target
      decreases |next| - to
    {
      to := to + 1;
    }
    IndexIs(next, target, to);
    if after { to := to + 1; }
    next := next[..to] + [source] + next[to..];
  }

  // What a drag means: the others keep their order, and the source is right beside the target.
  ghost predicate IsDragged(ids: seq<string>, source: string, target: string, after: bool, r: seq<string>) {
    Distinct(r) && Without(r, source) == Without(ids, source) && exists i :: BesideAt(r, source, target, after, i)
  }

  ghost predicate BesideAt(r: seq<string>, source: string, target: string, after: bool, i: nat) {
    i < |r| && r[i] == source && if after then i > 0 && r[i - 1] == target else i + 1 < |r| && r[i + 1] == target
  }

  lemma {:induction false} WithoutDistinct(ids: seq<string>, x: string)
    requires Distinct(ids)
    ensures Distinct(Without(ids, x))
  {
    if ids != [] {
      WithoutDistinct(ids[1..], x);
      WithoutMembers(ids[1..], x, ids[0]);
      var rest := Without(ids[1..], x);
      assert ([ids[0]] + rest)[1..] == rest;
    }
  }

  lemma SpliceDistinct(a: seq<string>, x: string, b: seq<string>)
    ensures Distinct(a + ([x] + b)) <==> Distinct(a + b) && x !in a && x !in b
  {
    assert ([x] + b)[1..] == b;
    AppendDistinct(a, [x] + b);
    AppendDistinct(a, b);
  }

  lemma SpliceWithout(a: seq<string>, x: string, b: seq<string>)
    requires x !in a && x !in b
    ensures Without(a + ([x] + b), x) == a + b
  {
    WithoutConcat(a, [x] + b, x);
    assert ([x] + b)[1..] == b;
    WithoutAbsent(a, x);
    WithoutAbsent(b, x);
  }

  lemma {:induction false} WithoutMultiset(ids: seq<string>, x: string)
    requires Distinct(ids) && x in ids
    ensures multiset(Without(ids, x)) + multiset{x} == multiset(ids)
  {
    assert ids == [ids[0]] + ids[1..];
    if ids[0] == x {
      WithoutAbsent(ids[1..], x);
    } else {
      WithoutMultiset(ids[1..], x);
    }
  }

  // The moved list, cut at the place where the source goes in.
  lemma MovedParts(ids: seq<string>, source: string, target: string, after: bool)
    returns (a: seq<string>, b: seq<string>)
    requires source in ids && target in ids && source != target
    ensures Moved(ids, source, target, after) == a + ([source] + b) && a + b == Without(ids, source)
    ensures |a| == IndexOf(Without(ids, source), target) + if after then 1 else 0
    ensures target in Without(ids, source) && source !in a + b
    ensures if after then a != [] && a[|a| - 1] == target else b != [] && b[0] == target
  {
    var next := Without(ids, source);
    WithoutMembers(ids, source, target);
    WithoutMembers(ids, source, source);
    var to := IndexOf(next, target) + if after then 1 else 0;
    a, b := next[..to], next[to..];
  }

  // moveBeside on distinct ids: a permutation that realises the drag.
  lemma MovedIsDragged(ids: seq<string>, source: string, target: string, after: bool)
    requires Distinct(ids) && source in ids && target in ids && source != target
    ensures var r := Moved(ids, source, target, after);
            multiset(r) == multiset(ids) && IsDragged(ids, source, target, after, r)
  {
    var a, b := MovedParts(ids, source, target, after);
    WithoutDistinct(ids, source);
    WithoutMultiset(ids, source);
    Spliced(a, source, b);
    BesideParts(a, source, b, target, after);
  }

  lemma BesideParts(a: seq<string>, x: string, b: seq<string>, target: string, after: bool)
    ensures BesideAt(a + ([x] + b), x, target, after, |a|)
        <==> if after then a != [] && a[|a| - 1] == target else b != [] && b[0] == target
  {
  }

  lemma Spliced(a: seq<string>, x: string, b: seq<string>)
    requires Distinct(a + b) && x !in a + b
    ensures var r := a + ([x] + b);
            Distinct(r) && Without(r, x) == a + b && multiset(r) == multiset(a + b) + multiset{x}
  {
    assert x !in a && x !in b;
    SpliceDistinct(a, x, b);
    SpliceWithout(a, x, b);
  }

  // And nothing else does: the drag determines the order.
  lemma DragIsUnique(ids: seq<string>, source: string, target: string, after: bool, r: seq<string>)
    requires Distinct(ids) && source in ids && target in ids && source != target
    requires IsDragged(ids, source, target, after, r)
    ensures r == Moved(ids, source, target, after)
  {
    hide Distinct, Without, IndexOf, Moved;
    var a, b := DragParts(source, target, after, r);
    var a', b' := MovedParts(ids, source, target, after);
    SameCut(a, b, a', b');
  }

  // A dragged list, cut at the source.
  lemma DragParts(source: string, target: string, after: bool, r: seq<string>) returns (a: seq<string>, b: seq<string>)
    requires Distinct(r) && exists i :: BesideAt(r, source, target, after, i)
    ensures r == a + ([source] + b) && Without(r, source) == a + b
    ensures target in a + b && |a| == IndexOf(a + b, target) + if after then 1 else 0
  {
    var i: nat :| BesideAt(r, source, target, after, i);
    a, b := r[..i], r[i + 1..];
    assert r == a + ([source] + b);
    SpliceDistinct(a, source, b);
    SpliceWithout(a, source, b);
    TargetAt(a, source, b, target, after);
  }

  lemma SameCut(a: seq<string>, b: seq<string>, c: seq<string>, d: seq<string>)
    requires a + b == c + d && |a| == |c|
    ensures a == c && b == d
  {
    assert a == (a + b)[..|a|] && c == (c + d)[..|c|];
    assert b == (a + b)[|a|..] && d == (c + d)[|c|..];
  }

  lemma TargetAt(a: seq<string>, x: string, b: seq<string>, target: string, after: bool)
    requires Distinct(a + b) && BesideAt(a + ([x] + b), x, target, after, |a|)
    ensures target in a + b && IndexOf(a + b, target) + (if after then 1 else 0) == |a|
  {
    var next, r := a + b, a + ([x] + b);
    var at := if after then |a| - 1 else |a|;
    assert next[at] == target by {
      if after { assert r[|a| - 1] == a[|a| - 1]; } else { assert r[|a| + 1] == b[0]; }
    }
    forall j | 0 <= j < at ensures next[j] != target {
      DistinctAt(next, j, at);
    }
    IndexIs(next, target, at);
  }

  // ----- reconcileOrder -----

  function Ids<T>(items: seq<T>, idOf: T -> string): (ids: seq<string>)
    ensures |ids| == |items| && forall i :: 0 <= i < |items| ==> ids[i] == idOf(items[i])
  {
    seq(|items|, i requires 0 <= i < |items| => idOf(items[i]))
  }

  function IdSet<T>(items: seq<T>, idOf: T -> string): set<string> {
    set x | x in Ids(items, idOf)
  }

  // new Map(items.map(it => [it.id, it])): the last of equal ids wins.
  function ById<T>(items: seq<T>, idOf: T -> string): map<string, T> {
    if items == [] then map[]
    else ById(items[..|items| - 1], idOf)[idOf(items[|items| - 1]) := items[|items| - 1]]
  }

  // The listed items, and what is left of the map.
  function TakeListed<T>(byId: map<string, T>, orderedIds: seq<string>): (seq<T>, map<string, T>) {
    if orderedIds == [] then ([], byId)
    else if orderedIds[0] in byId then
      var (out, left) := TakeListed(byId - {orderedIds[0]}, orderedIds[1..]);
      ([byId[orderedIds[0]]] + out, left)
    else TakeListed(byId, orderedIds[1..])
  }

  function Kept<T>(items: seq<T>, idOf: T -> string, keep: set<string>): seq<T> {
    if items == [] then []
    else if idOf(items[0]) in keep then [items[0]] + Kept(items[1..], idOf, keep)
    else Kept(items[1..], idOf, keep)
  }

  function Reconciled<T>(items: seq<T>, idOf: T -> string, orderedIds: seq<string>): seq<T> {
    var (out, left) := TakeListed(ById(items, idOf), orderedIds);
    out + Kept(items, idOf, left.Keys)
  }

  method ReconcileOrder<T>(items: seq<T>, idOf: T -> string, orderedIds: seq<string>) returns (out: seq<T>)
    ensures out == Reconciled(items, idOf, orderedIds)
  {
    var byId: map<string, T> := map[];
    for k := 0 to |items|
      invariant byId == ById(items[..k], idOf)
    {
      assert items[..k + 1][..k] == items[..k];
      byId := byId[idOf(items[k]) := items[k]];
    }
    assert items[..|items|] == items;
    ghost var full := byId;
    out := [];
    assert orderedIds[0..] == orderedIds;
    assert [] + TakeListed(full, orderedIds).0 == TakeListed(full, orderedIds).0;
    for k := 0 to |orderedIds|
      invariant var (rest, left) := TakeListed(byId, orderedIds[k..]);
                TakeListed(full, orderedIds) == (out + rest, left)
    {
      assert orderedIds[k..][1..] == orderedIds[k + 1..];
      var id := orderedIds[k];
      if id in byId {
        var it := byId[id];
        ghost var rest := TakeListed(byId - {id}, orderedIds[k + 1..]).0;
        assert out + ([it] + rest) == (out + [it]) + rest;
        out := out + [it];
        byId := byId - {id};
      }
    }
    assert orderedIds[|orderedIds|..] == [] && out + [] == out;
    ghost var listed := out;
    assert items[0..] == items;
    for k := 0 to |items|
      invariant listed + Kept(items, idOf, byId.Keys) == out + Kept(items[k..], idOf, byId.Keys)
    {
      assert items[k..][1..] == items[k + 1..];
      if idOf(items[k]) in byId {
        assert out + ([items[k]] + Kept(items[k + 1..], idOf, byId.Keys)) ==
            (out + [items[k]]) + Kept(items[k + 1..], idOf, byId.Keys);
        out := out + [items[k]];
      }
    }
  }

  // The first occurrence of each known id, in list order: what a list of ids asks for.
  function Wanted(known: set<string>, orderedIds: seq<string>): (r: seq<string>)
    ensures forall x :: x in r ==> x in known && x in orderedIds
    ensures Distinct(r)
    ensures forall x :: x in known && x in orderedIds ==> x in r
  {
    if orderedIds == [] then []
    else if orderedIds[0] in known then
      var rest := Wanted(known - {orderedIds[0]}, orderedIds[1..]);
      [orderedIds[0]] + rest
    else Wanted(known, orderedIds[1..])
  }

  lemma {:induction false} ByIdFacts<T>(items: seq<T>, idOf: T -> string)
    ensures forall x :: x in ById(items, idOf) <==> x in Ids(items, idOf)
    ensures forall x :: x in ById(items, idOf) ==> idOf(ById(items, idOf)[x]) == x && ById(items, idOf)[x] in items
  {
    if items != [] {
      var p, last := items[..|items| - 1], items[|items| - 1];
      assert items == p + [last];
      ByIdFacts(p, idOf);
      assert Ids(items, idOf) == Ids(p, idOf) + [idOf(last)];
    }
  }

  ghost predicate OfMap<T>(byId: map<string, T>, idOf: T -> string, out: seq<T>) {
    forall i :: 0 <= i < |out| ==> idOf(out[i]) in byId && out[i] == byId[idOf(out[i])]
  }

  function Left(known: set<string>, orderedIds: seq<string>): set<string> {
    set x | x in known && x !in orderedIds
  }

  lemma {:induction false} TakenIds<T>(byId: map<string, T>, idOf: T -> string, orderedIds: seq<string>)
    requires forall x :: x in byId ==> idOf(byId[x]) == x
    ensures Ids(TakeListed(byId, orderedIds).0, idOf) == Wanted(byId.Keys, orderedIds)
  {
    if orderedIds != [] {
      var first := orderedIds[0];
      if first in byId {
        TakenIds(byId - {first}, idOf, orderedIds[1..]);
        assert (byId - {first}).Keys == byId.Keys - {first};
        IdsCons(byId[first], TakeListed(byId - {first}, orderedIds[1..]).0, idOf);
      } else {
        TakenIds(byId, idOf, orderedIds[1..]);
      }
    }
  }

  lemma {:induction false} TakenItems<T>(byId: map<string, T>, idOf: T -> string, orderedIds: seq<string>)
    requires forall x :: x in byId ==> idOf(byId[x]) == x
    ensures OfMap(byId, idOf, TakeListed(byId, orderedIds).0)
  {
    if orderedIds != [] {
      if orderedIds[0] in byId {
        TakenItems(byId - {orderedIds[0]}, idOf, orderedIds[1..]);
      } else {
        TakenItems(byId, idOf, orderedIds[1..]);
      }
    }
  }

  lemma {:induction false} TakenLeaves<T>(byId: map<string, T>, orderedIds: seq<string>)
    ensures TakeListed(byId, orderedIds).1.Keys == Left(byId.Keys, orderedIds)
  {
    if orderedIds != [] {
      var first := orderedIds[0];
      assert forall x :: x in orderedIds <==> x == first || x in orderedIds[1..];
      if first in byId {
        TakenLeaves(byId - {first}, orderedIds[1..]);
        assert (byId - {first}).Keys == byId.Keys - {first};
      } else {
        TakenLeaves(byId, orderedIds[1..]);
      }
    }
  }

  lemma {:induction false} KeptMembers<T>(items: seq<T>, idOf: T -> string, keep: set<string>)
    ensures forall x :: x in Kept(items, idOf, keep) <==> x in items && idOf(x) in keep
  {
    if items != [] {
      KeptMembers(items[1..], idOf, keep);
    }
  }

  lemma {:induction false} KeptAllOrNone<T>(items: seq<T>, idOf: T -> string, keep: set<string>)
    ensures (forall x :: x in items ==> idOf(x) in keep) ==> Kept(items, idOf, keep) == items
    ensures (forall x :: x in items ==> idOf(x) !in keep) ==> Kept(items, idOf, keep) == []
  {
    if items != [] {
      KeptAllOrNone(items[1..], idOf, keep);
      assert forall x :: x in items[1..] ==> x in items;
      assert items[0] in items;
    }
  }

  lemma IdMembers<T>(items: seq<T>, idOf: T -> string)
    ensures forall x :: x in items ==> idOf(x) in Ids(items, idOf)
    ensures forall n :: n in Ids(items, idOf) ==> exists x :: x in items && idOf(x) == n
  {
    forall x | x in items ensures idOf(x) in Ids(items, idOf) {
      var i :| 0 <= i < |items| && items[i] == x;
      assert Ids(items, idOf)[i] == idOf(x);
    }
    forall n | n in Ids(items, idOf) ensures exists x :: x in items && idOf(x) == n {
      var i :| 0 <= i < |items| && Ids(items, idOf)[i] == n;
      assert items[i] in items;
    }
  }

  lemma IdsCons<T>(x: T, rest: seq<T>, idOf: T -> string)
    ensures Ids([x] + rest, idOf) == [idOf(x)] + Ids(rest, idOf)
  {
  }

  // No kept item has an id that none of the items has.
  lemma KeptIds<T>(items: seq<T>, idOf: T -> string, keep: set<string>, id: string)
    requires id !in Ids(items, idOf)
    ensures id !in Ids(Kept(items, idOf, keep), idOf)
  {
    KeptMembers(items, idOf, keep);
    IdMembers(items, idOf);
    IdMembers(Kept(items, idOf, keep), idOf);
  }

  lemma {:induction false} KeptDistinct<T>(items: seq<T>, idOf: T -> string, keep: set<string>)
    requires Distinct(Ids(items, idOf))
    ensures Distinct(Ids(Kept(items, idOf, keep), idOf))
  {
    if items != [] {
      assert items == [items[0]] + items[1..];
      IdsCons(items[0], items[1..], idOf);
      assert Ids(items, idOf)[1..] == Ids(items[1..], idOf);
      KeptDistinct(items[1..], idOf, keep);
      KeptIds(items[1..], idOf, keep, idOf(items[0]));
      IdsCons(items[0], Kept(items[1..], idOf, keep), idOf);
      ConsDistinct(idOf(items[0]), Ids(Kept(items[1..], idOf, keep), idOf));
    }
  }

  lemma ConsDistinct<T>(x: T, s: seq<T>)
    ensures Distinct([x] + s) <==> x !in s && Distinct(s)
  {
    assert ([x] + s)[1..] == s;
  }

  lemma SameIdSameItem<T>(items: seq<T>, idOf: T -> string, x: T, y: T)
    requires Distinct(Ids(items, idOf)) && x in items && y in items && idOf(x) == idOf(y)
    ensures x == y
  {
    var i :| 0 <= i < |items| && items[i] == x;
    var j :| 0 <= j < |items| && items[j] == y;
    if i < j { DistinctAt(Ids(items, idOf), i, j); }
    if j < i { DistinctAt(Ids(items, idOf), j, i); }
  }

  function Unlisted<T>(items: seq<T>, idOf: T -> string, orderedIds: seq<string>): set<string> {
    Left(IdSet(items, idOf), orderedIds)
  }

  lemma ReconciledParts<T>(items: seq<T>, idOf: T -> string, orderedIds: seq<string>)
    returns (out: seq<T>, tail: seq<T>)
    ensures Reconciled(items, idOf, orderedIds) == out + tail
    ensures Ids(out, idOf) == Wanted(IdSet(items, idOf), orderedIds)
    ensures tail == Kept(items, idOf, Unlisted(items, idOf, orderedIds))
    ensures forall x :: x in out ==> x in items
  {
    var byId := ById(items, idOf);
    ByIdFacts(items, idOf);
    TakenIds(byId, idOf, orderedIds);
    TakenItems(byId, idOf, orderedIds);
    TakenLeaves(byId, orderedIds);
    var (o, left) := TakeListed(byId, orderedIds);
    out := o;
    assert byId.Keys == IdSet(items, idOf);
    assert left.Keys == Unlisted(items, idOf, orderedIds);
    tail := Kept(items, idOf, left.Keys);
    forall x | x in out ensures x in items {
      var i :| 0 <= i < |out| && out[i] == x;
      assert byId[idOf(x)] in items;
    }
  }

  // reconcileOrder, for any list of ids at all: the known ids of the list first, as asked, then the
  // others in their original order.
  lemma ReconciledIs<T>(items: seq<T>, idOf: T -> string, orderedIds: seq<string>)
    ensures var r := Reconciled(items, idOf, orderedIds);
            var wanted := Wanted(IdSet(items, idOf), orderedIds);
            && |wanted| <= |r| && Ids(r[..|wanted|], idOf) == wanted
            && r[|wanted|..] == Kept(items, idOf, Unlisted(items, idOf, orderedIds))
  {
    var out, tail := ReconciledParts(items, idOf, orderedIds);
    assert |out| == |Ids(out, idOf)|;
    assert (out + tail)[..|out|] == out && (out + tail)[|out|..] == tail;
  }

  lemma ReconciledMembers<T>(items: seq<T>, idOf: T -> string, orderedIds: seq<string>)
    requires Distinct(Ids(items, idOf))
    ensures forall x :: x in Reconciled(items, idOf, orderedIds) <==> x in items
    ensures Distinct(Ids(Reconciled(items, idOf, orderedIds), idOf))
  {
    var out, tail := ReconciledParts(items, idOf, orderedIds);
    KeptMembers(items, idOf, Unlisted(items, idOf, orderedIds));
    forall x | x in items ensures x in out + tail {
      if idOf(x) !in Unlisted(items, idOf, orderedIds) {
        ListedIsTaken(items, idOf, orderedIds, out, x);
      }
    }
    PartsDistinct(items, idOf, orderedIds, out, tail);
  }

  lemma ListedIsTaken<T>(items: seq<T>, idOf: T -> string, orderedIds: seq<string>, out: seq<T>, x: T)
    requires Distinct(Ids(items, idOf)) && x in items && idOf(x) !in Unlisted(items, idOf, orderedIds)
    requires Ids(out, idOf) == Wanted(IdSet(items, idOf), orderedIds) && forall y :: y in out ==> y in items
    ensures x in out
  {
    IdMembers(items, idOf);
    IdMembers(out, idOf);
    assert idOf(x) in Ids(out, idOf);
    var y :| y in out && idOf(y) == idOf(x);
    SameIdSameItem(items, idOf, x, y);
  }

  lemma PartsDistinct<T>(items: seq<T>, idOf: T -> string, orderedIds: seq<string>, out: seq<T>, tail: seq<T>)
    requires Distinct(Ids(items, idOf)) && Ids(out, idOf) == Wanted(IdSet(items, idOf), orderedIds)
    requires tail == Kept(items, idOf, Unlisted(items, idOf, orderedIds))
    ensures Distinct(Ids(out + tail, idOf))
  {
    var unlisted := Unlisted(items, idOf, orderedIds);
    KeptDistinct(items, idOf, unlisted);
    forall n | n in Ids(tail, idOf) ensures n in unlisted {
      IdMembers(tail, idOf);
      var x :| x in tail && idOf(x) == n;
      KeptMembers(items, idOf, unlisted);
    }
    assert Ids(out + tail, idOf) == Ids(out, idOf) + Ids(tail, idOf);
    AppendDistinct(Ids(out, idOf), Ids(tail, idOf));
  }

  lemma {:induction false} DistinctSameMembers<T>(a: seq<T>, b: seq<T>)
    requires Distinct(a) && Distinct(b) && forall x :: x in a <==> x in b
    ensures multiset(a) == multiset(b)
  {
    forall x ensures multiset(a)[x] == multiset(b)[x] {
      DistinctCount(a, x);
      DistinctCount(b, x);
    }
  }

  lemma {:induction false} DistinctCount<T>(a: seq<T>, x: T)
    requires Distinct(a)
    ensures multiset(a)[x] == if x in a then 1 else 0
  {
    if a != [] {
      assert a == [a[0]] + a[1..];
      DistinctCount(a[1..], x);
    }
  }

  lemma {:induction false} DistinctIdsDistinctItems<T>(items: seq<T>, idOf: T -> string)
    requires Distinct(Ids(items, idOf))
    ensures Distinct(items)
  {
    if items != [] {
      assert Ids(items, idOf)[1..] == Ids(items[1..], idOf);
      IdMembers(items[1..], idOf);
      DistinctIdsDistinctItems(items[1..], idOf);
    }
  }

  // It is a permutation, whatever the list: unknown, missing and repeated ids included.
  lemma ReconciledPermutes<T>(items: seq<T>, idOf: T -> string, orderedIds: seq<string>)
    requires Distinct(Ids(items, idOf))
    ensures multiset(Reconciled(items, idOf, orderedIds)) == multiset(items)
  {
    ReconciledMembers(items, idOf, orderedIds);
    DistinctIdsDistinctItems(items, idOf);
    DistinctIdsDistinctItems(Reconciled(items, idOf, orderedIds), idOf);
    DistinctSameMembers(Reconciled(items, idOf, orderedIds), items);
  }

  // The same items in the same id order are the same list.
  lemma SameIdsSameList<T>(items: seq<T>, idOf: T -> string, a: seq<T>, b: seq<T>)
    requires Distinct(Ids(items, idOf)) && (forall x :: x in a ==> x in items) && (forall x :: x in b ==> x in items)
    requires Ids(a, idOf) == Ids(b, idOf)
    ensures a == b
  {
    assert |a| == |Ids(a, idOf)| == |Ids(b, idOf)| == |b|;
    forall i | 0 <= i < |a| ensures a[i] == b[i] {
      assert idOf(a[i]) == Ids(a, idOf)[i] == Ids(b, idOf)[i] == idOf(b[i]);
      assert a[i] in a && b[i] in b;
      SameIdSameItem(items, idOf, a[i], b[i]);
    }
  }

  lemma {:induction false} KeptConcat<T>(a: seq<T>, b: seq<T>, idOf: T -> string, keep: set<string>)
    ensures Kept(a + b, idOf, keep) == Kept(a, idOf, keep) + Kept(b, idOf, keep)
  {
    if a == [] {
      assert a + b == b;
    } else {
      assert (a + b)[1..] == a[1..] + b;
      KeptConcat(a[1..], b, idOf, keep);
    }
  }

  lemma ReconciledIdempotent<T>(items: seq<T>, idOf: T -> string, orderedIds: seq<string>)
    requires Distinct(Ids(items, idOf))
    ensures var once := Reconciled(items, idOf, orderedIds);
            Reconciled(once, idOf, orderedIds) == once
  {
    var once := Reconciled(items, idOf, orderedIds);
    ReconciledMembers(items, idOf, orderedIds);
    SameKnown(items, once, idOf);
    var out, tail := ReconciledParts(items, idOf, orderedIds);
    var out', tail' := ReconciledParts(once, idOf, orderedIds);
    var unlisted := Unlisted(items, idOf, orderedIds);
    assert Unlisted(once, idOf, orderedIds) == unlisted;
    IdMembers(out, idOf);
    KeptAgain(items, idOf, unlisted, out);
    SameIdsSameList(items, idOf, out', out);
  }

  // Behind items none of which is kept, what was kept is kept again.
  lemma KeptAgain<T>(items: seq<T>, idOf: T -> string, keep: set<string>, out: seq<T>)
    requires forall x :: x in out ==> idOf(x) !in keep
    ensures Kept(out + Kept(items, idOf, keep), idOf, keep) == Kept(items, idOf, keep)
  {
    var tail := Kept(items, idOf, keep);
    KeptConcat(out, tail, idOf, keep);
    assert Kept(out, idOf, keep) == [] by { KeptAllOrNone(out, idOf, keep); }
    assert Kept(tail, idOf, keep) == tail by {
      KeptMembers(items, idOf, keep);
      KeptAllOrNone(tail, idOf, keep);
    }
    assert [] + tail == tail;
  }

  lemma SameKnown<T>(a: seq<T>, b: seq<T>, idOf: T -> string)
    requires forall x :: x in a <==> x in b
    ensures forall x :: x in Ids(a, idOf) <==> x in Ids(b, idOf)
    ensures IdSet(a, idOf) == IdSet(b, idOf)
  {
    forall x ensures x in Ids(a, idOf) <==> x in Ids(b, idOf) {
      if x in Ids(a, idOf) {
        var i :| 0 <= i < |a| && Ids(a, idOf)[i] == x;
        assert a[i] in b;
        var j :| 0 <= j < |b| && b[j] == a[i];
        assert Ids(b, idOf)[j] == x;
      }
      if x in Ids(b, idOf) {
        var i :| 0 <= i < |b| && Ids(b, idOf)[i] == x;
        assert b[i] in a;
        var j :| 0 <= j < |a| && a[j] == b[i];
        assert Ids(a, idOf)[j] == x;
      }
    }
  }

  lemma {:induction false} WantedAll(known: set<string>, orderedIds: seq<string>)
    requires Distinct(orderedIds) && forall x :: x in orderedIds ==> x in known
    ensures Wanted(known, orderedIds) == orderedIds
  {
    if orderedIds != [] {
      var rest := orderedIds[1..];
      assert orderedIds[0] in orderedIds;
      WantedAll(known - {orderedIds[0]}, rest);
    }
  }

  // A full list of the ids is followed exactly.
  lemma FullListIsFollowed<T>(items: seq<T>, idOf: T -> string, orderedIds: seq<string>)
    requires Distinct(Ids(items, idOf)) && Distinct(orderedIds)
    requires forall x :: x in orderedIds <==> x in Ids(items, idOf)
    ensures Ids(Reconciled(items, idOf, orderedIds), idOf) == orderedIds
  {
    var r := Reconciled(items, idOf, orderedIds);
    var out, tail := ReconciledParts(items, idOf, orderedIds);
    WantedAll(IdSet(items, idOf), orderedIds);
    assert Unlisted(items, idOf, orderedIds) == {};
    KeptAllOrNone(items, idOf, {});
    assert r == out + [] == out;
  }

  // The drag end to end: the renderer computes the new id order, the main process applies it to the
  // session list, and the list comes out in exactly the dragged order.
  lemma DragEndToEnd<T>(items: seq<T>, idOf: T -> string, source: string, target: string, after: bool)
    requires Distinct(Ids(items, idOf)) && source != target
    requires source in Ids(items, idOf) && target in Ids(items, idOf)
    ensures var r := Ids(Reconciled(items, idOf, Moved(Ids(items, idOf), source, target, after)), idOf);
            IsDragged(Ids(items, idOf), source, target, after, r)
  {
    var ids := Ids(items, idOf);
    var moved := Moved(ids, source, target, after);
    MovedIsDragged(ids, source, target, after);
    forall x ensures x in moved <==> x in ids {
      assert x in multiset(moved) <==> x in multiset(ids);
    }
    FullListIsFollowed(items, idOf, moved);
  }
}
