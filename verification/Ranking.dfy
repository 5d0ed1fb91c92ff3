// Lists as the results of queries: what they enumerate, in which order, cut at a limit.
module Ranking {

  ghost predicate Enumerates<T(!new)>(s: seq<T>, xs: set<T>) {
    && (forall i, j :: 0 <= i < j < |s| ==> s[i] != s[j])
    && (forall x :: x in s <==> x in xs)
  }

  ghost predicate OrderedBy(le: (nat, nat) -> bool, rows: seq<nat>) {
    forall i, j :: 0 <= i < j < |rows| ==> le(rows[i], rows[j])
  }

  function Min(a: nat, b: nat): nat { if a < b then a else b }

  // Of w, the `max` last in the order, in that order.
  ghost predicate IsNewest(le: (nat, nat) -> bool, w: set<nat>, max: nat, rows: seq<nat>) {
    && (forall i, j :: 0 <= i < j < |rows| ==> rows[i] != rows[j])
    && (forall id :: id in rows ==> id in w)
    && |rows| == Min(max, |w|)
    && OrderedBy(le, rows)
    && (forall out, kept :: out in w && out !in rows && kept in rows ==> le(out, kept))
  }

  function Reverse<T>(s: seq<T>): (r: seq<T>)
    ensures |r| == |s| && forall i :: 0 <= i < |s| ==> r[i] == s[|s| - 1 - i]
  {
    seq(|s|, i requires 0 <= i < |s| => s[|s| - 1 - i])
  }

  // A list without repetition inside a set of its own size lists the set.
  lemma {:induction false} DistinctCover(rows: seq<nat>, w: set<nat>)
    requires forall i, j :: 0 <= i < j < |rows| ==> rows[i] != rows[j]
    requires (forall id :: id in rows ==> id in w) && |rows| == |w|
    ensures forall id :: id in w ==> id in rows
  {
    if rows == [] {
    } else {
      var x := rows[0];
      assert x in rows;
      var rest := rows[1..];
      forall id | id in rest ensures id in w - {x} {
        assert id in rows;
      }
      DistinctCover(rest, w - {x});
      forall id | id in w ensures id in rows {
        if id != x { assert id in rest; }
      }
    }
  }

  lemma {:induction false} EnumeratedSize<T(!new)>(rows: seq<T>, ids: set<T>)
    requires Enumerates(rows, ids)
    ensures |rows| == |ids|
  {
    if rows == [] {
      assert ids == {};
    } else {
      var rest := rows[1..];
      assert rows[0] in rows;
      assert Enumerates(rest, ids - {rows[0]}) by {
        forall x ensures x in rest <==> x in ids - {rows[0]} {
          if x in ids - {rows[0]} {
            var i :| 0 <= i < |rows| && rows[i] == x;
            assert rest[i - 1] == x;
          }
        }
      }
      EnumeratedSize(rest, ids - {rows[0]});
    }
  }

  lemma InsertEnumerates(rows: seq<nat>, ids: set<nat>, at: nat, id: nat)
    requires Enumerates(rows, ids) && at <= |rows| && id !in ids
    ensures Enumerates(rows[..at] + [id] + rows[at..], ids + {id})
  {
    var r := rows[..at] + [id] + rows[at..];
    forall x ensures x in r <==> x in ids + {id} {
      if x in rows {
        var i :| 0 <= i < |rows| && rows[i] == x;
        assert r[if i < at then i else i + 1] == x;
      }
      assert r[at] == id;
    }
  }

  // Insertion behind everything no later and before everything no earlier.
  lemma InsertOrdered(le: (nat, nat) -> bool, rows: seq<nat>, at: nat, id: nat)
    requires OrderedBy(le, rows) && at <= |rows|
    requires forall i :: 0 <= i < at ==> le(rows[i], id)
    requires forall j :: at <= j < |rows| ==> le(id, rows[j])
    ensures OrderedBy(le, rows[..at] + [id] + rows[at..])
  {
    var r := rows[..at] + [id] + rows[at..];
    forall i, j | 0 <= i < j < |r| ensures le(r[i], r[j]) {
      var a, b := if i <= at then i else i - 1, if j <= at then j else j - 1;
      assert i != at ==> r[i] == rows[a];
      assert j != at ==> r[j] == rows[b];
    }
  }

  // The end of the ordered list is what is last.
  lemma SuffixIsNewest(le: (nat, nat) -> bool, w: set<nat>, max: nat, rows: seq<nat>, drop: nat)
    requires Enumerates(rows, w) && OrderedBy(le, rows) && drop == |rows| - Min(max, |rows|)
    ensures IsNewest(le, w, max, rows[drop..])
  {
    var tail := rows[drop..];
    EnumeratedSize(rows, w);
    forall id | id in tail ensures id in w {
      var j :| 0 <= j < |tail| && tail[j] == id;
      assert rows[drop + j] == id;
    }
    forall i, j | 0 <= i < j < |tail| ensures tail[i] != tail[j] && le(tail[i], tail[j]) {
      assert tail[i] == rows[drop + i] && tail[j] == rows[drop + j];
    }
    forall k | drop <= k < |rows| ensures rows[k] in tail {
      assert tail[k - drop] == rows[k];
    }
    forall out, kept | out in w && out !in tail && kept in tail ensures le(out, kept) {
      var i :| 0 <= i < |rows| && rows[i] == out;
      var j :| 0 <= j < |tail| && tail[j] == kept;
      assert rows[drop + j] == kept;
    }
  }

  lemma ShortIsAll(le: (nat, nat) -> bool, w: set<nat>, max: nat, rows: seq<nat>)
    requires IsNewest(le, w, max, rows) && |rows| < max
    ensures forall id :: id in w ==> id in rows
  {
    DistinctCover(rows, w);
  }
}
