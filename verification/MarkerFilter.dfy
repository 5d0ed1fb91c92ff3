// What a terminal shows of its process's output: everything up to the end of the start marker's line
// is swallowed, unless 64 Ki characters come by without the marker. Characters stand for the UTF-16
// units a JavaScript string counts.
module MarkerFilter {
  import opened JsText
  import opened Options

  const MARKER_BUFFER_CAP: nat := 65536

  // ----- the filter -----

  datatype State = State(marker: Option<string>, seen: bool, held: string)

  function Start(marker: Option<string>): State { State(marker, false, "") }

  predicate Passing(s: State) {
    s.marker.None? || s.marker.value == "" || s.seen
  }

  // What follows the line; nothing when it has not ended yet.
  function AfterLineFrom(buf: string, from: nat): string {
    match IndexOf(buf, "\n", from)
    case Some(nl) => buf[nl + 1..]
    case None => ""
  }

  function MarkerEnd(buf: string, m: string): (from: nat)
    requires Contains(buf, m)
    ensures from <= |buf|
  {
    IndexOf(buf, m, 0).value + |m|
  }

  function AfterLine(buf: string, m: string): string
    requires Contains(buf, m)
  {
    AfterLineFrom(buf, MarkerEnd(buf, m))
  }

  predicate LineEnded(buf: string, m: string)
    requires Contains(buf, m)
  {
    IndexOf(buf, "\n", MarkerEnd(buf, m)).Some?
  }

  function Feed(s: State, data: string): (State, string) {
    if Passing(s) then (s, data)
    else
      var buf := s.held + data;
      if Contains(buf, s.marker.value) then (State(s.marker, true, ""), AfterLine(buf, s.marker.value))
      else if |buf| > MARKER_BUFFER_CAP then (State(s.marker, true, ""), buf)
      else (s.(held := buf), "")
  }

  class Spawned {
    const marker: Option<string>
    var markerSeen: bool
    var preBuf: string

    constructor (marker: Option<string>)
      ensures View() == Start(marker)
    {
      this.marker, markerSeen, preBuf := marker, false, "";
    }

    function View(): State
      reads this
    {
      State(marker, markerSeen, preBuf)
    }

    // At most one data event per chunk, and never an empty one for swallowed output.
    method HandleData(data: string) returns (event: Option<string>)
      modifies this
      ensures (View(), if event.Some? then event.value else "") == Feed(old(View()), data)
      ensures event == Some("") ==> Passing(old(View()))
    {
      if marker.None? || marker.value == "" || markerSeen {
        return Some(data);
      }
      preBuf := preBuf + data;
      var idx := IndexOf(preBuf, marker.value, 0);
      if idx.Some? {
        var afterMarker := idx.value + |marker.value|;
        var nl := IndexOf(preBuf, "\n", afterMarker);
        var rest := if nl.Some? then preBuf[nl.value + 1..] else "";
        markerSeen, preBuf := true, "";
        if rest != "" {
          return Some(rest);
        }
        return None;
      }
      if |preBuf| > MARKER_BUFFER_CAP {
        var buf := preBuf;
        markerSeen, preBuf := true, "";
        return Some(buf);
      }
      return None;
    }
  }

  // ----- every chunking -----

  function Flatten(chunks: seq<string>): string {
    if chunks == [] then "" else chunks[0] + Flatten(chunks[1..])
  }

  function Run(s: State, chunks: seq<string>): (State, string)
    decreases chunks
  {
    if chunks == [] then (s, "")
    else
      var (t, out) := Feed(s, chunks[0]);
      var (u, more) := Run(t, chunks[1..]);
      (u, out + more)
  }

  // The marker is in, or it is given up on.
  predicate Trips(buf: string, m: string) {
    Contains(buf, m) || |buf| > MARKER_BUFFER_CAP
  }

  // n chunks are the fewest that trip.
  ghost predicate TripsAt(held: string, chunks: seq<string>, m: string, n: nat) {
    && n <= |chunks| && Trips(held + Flatten(chunks[..n]), m)
    && forall k: nat :: k < n ==> !Trips(held + Flatten(chunks[..k]), m)
  }

  ghost predicate NeverTrips(held: string, chunks: seq<string>, m: string) {
    forall k: nat :: k <= |chunks| ==> !Trips(held + Flatten(chunks[..k]), m)
  }

  lemma {:induction false} FlattenSplit(chunks: seq<string>, n: nat)
    requires n <= |chunks|
    ensures Flatten(chunks) == Flatten(chunks[..n]) + Flatten(chunks[n..])
  {
    if n == 0 {
      assert chunks[..0] == [] && chunks[0..] == chunks;
    } else {
      FlattenSplit(chunks[1..], n - 1);
      assert chunks[..n][1..] == chunks[1..][..n - 1] && chunks[1..][n - 1..] == chunks[n..];
    }
  }

  lemma TakeOne(held: string, chunks: seq<string>, n: nat)
    requires 0 < n <= |chunks|
    ensures held + Flatten(chunks[..n]) == (held + chunks[0]) + Flatten(chunks[1..][..n - 1])
  {
    assert chunks[..n][1..] == chunks[1..][..n - 1];
  }

  // Once the marker is in or given up on, everything passes verbatim.
  lemma {:induction false} PassesVerbatim(s: State, chunks: seq<string>)
    requires Passing(s)
    ensures Run(s, chunks) == (s, Flatten(chunks))
    decreases chunks
  {
    if chunks != [] {
      PassesVerbatim(s, chunks[1..]);
    }
  }

  lemma HoldStep(m: string, held: string, chunks: seq<string>)
    requires m != "" && chunks != [] && !Trips(held + chunks[0], m)
    ensures Run(State(Some(m), false, held), chunks) == Run(State(Some(m), false, held + chunks[0]), chunks[1..])
  {
    var s, next := State(Some(m), false, held), State(Some(m), false, held + chunks[0]);
    assert Feed(s, chunks[0]) == (next, "");
    var (u, more) := Run(next, chunks[1..]);
    assert "" + more == more;
  }

  // Until then everything is held back and nothing is shown.
  lemma {:induction false} HoldsBack(m: string, held: string, chunks: seq<string>)
    requires m != "" && NeverTrips(held, chunks, m)
    ensures Run(State(Some(m), false, held), chunks) == (State(Some(m), false, held + Flatten(chunks)), "")
    ensures |held + Flatten(chunks)| <= MARKER_BUFFER_CAP
    decreases chunks
  {
    assert chunks[..|chunks|] == chunks;
    if chunks == [] {
      assert held + "" == held;
    } else {
      var next := held + chunks[0];
      forall k: nat | k <= |chunks[1..]| ensures !Trips(next + Flatten(chunks[1..][..k]), m) {
        TakeOne(held, chunks, k + 1);
      }
      TakeOne(held, chunks, 1);
      assert chunks[1..][..0] == [] && next + "" == next;
      HoldStep(m, held, chunks);
      HoldsBack(m, next, chunks[1..]);
      assert next + Flatten(chunks[1..]) == held + Flatten(chunks);
    }
  }

  // At the first prefix that trips: what it releases, then the rest verbatim.
  function Released(buf: string, m: string): (r: string)
    ensures |r| <= |buf| && r == buf[|buf| - |r|..]
  {
    if Contains(buf, m) then AfterLine(buf, m) else buf
  }

  lemma {:induction false} ReleasesAt(m: string, held: string, chunks: seq<string>, n: nat)
    requires m != "" && TripsAt(held, chunks, m, n) && 0 < n
    ensures Run(State(Some(m), false, held), chunks)
         == (State(Some(m), true, ""), Released(held + Flatten(chunks[..n]), m) + Flatten(chunks[n..]))
    decreases chunks
  {
    var next := held + chunks[0];
    TakeOne(held, chunks, 1);
    assert chunks[1..][..0] == [] && next + "" == next;
    if n == 1 {
      PassesVerbatim(State(Some(m), true, ""), chunks[1..]);
    } else {
      forall k: nat | k < n - 1 ensures !Trips(next + Flatten(chunks[1..][..k]), m) {
        TakeOne(held, chunks, k + 1);
      }
      TakeOne(held, chunks, n);
      assert !Trips(held + Flatten(chunks[..1]), m);
      ReleasesAt(m, next, chunks[1..], n - 1);
      assert chunks[1..][n - 1..] == chunks[n..];
      HoldStep(m, held, chunks);
    }
  }

  lemma {:induction false} FirstTrip(chunks: seq<string>, m: string, n: nat) returns (first: nat)
    requires m != "" && n <= |chunks|
    requires Trips("" + Flatten(chunks[..n]), m)
    ensures TripsAt("", chunks, m, first) && 0 < first
    decreases n
  {
    assert chunks[..0] == [] && !Trips("" + Flatten(chunks[..0]), m);
    if k: nat :| k < n && Trips("" + Flatten(chunks[..k]), m) {
      first := FirstTrip(chunks, m, k);
    } else {
      first := n;
    }
  }

  lemma TrippedIsSuffix(m: string, chunks: seq<string>, n: nat)
    requires m != "" && TripsAt("", chunks, m, n) && 0 < n
    ensures var (t, out) := Run(Start(Some(m)), chunks);
            var all := Flatten(chunks);
            t.held == "" && |out| <= |all| && out == all[|all| - |out|..]
  {
    ReleasesAt(m, "", chunks, n);
    FlattenSplit(chunks, n);
    var p, r := Flatten(chunks[..n]), Flatten(chunks[n..]);
    assert "" + p == p;
    SuffixGrows(p, r, Released(p, m));
  }

  lemma SuffixGrows(p: string, r: string, tail: string)
    requires |tail| <= |p| && tail == p[|p| - |tail|..]
    ensures |tail + r| <= |p + r| && tail + r == (p + r)[|p + r| - |tail + r|..]
  {
  }

  // For every chunking, what is shown is a suffix of what was received: nothing is reordered or
  // repeated; and no more than the cap is ever held back, all of it still unshown.
  lemma ShownIsSuffix(marker: Option<string>, chunks: seq<string>)
    ensures var (t, out) := Run(Start(marker), chunks);
            var all := Flatten(chunks);
            && |out| <= |all| && out == all[|all| - |out|..]
            && |t.held| <= MARKER_BUFFER_CAP
            && (t.held != "" ==> out == "" && t.held == all)
  {
    var s := Start(marker);
    if Passing(s) {
      PassesVerbatim(s, chunks);
    } else if NeverTrips("", chunks, marker.value) {
      HoldsBack(marker.value, "", chunks);
    } else {
      var n: nat :| n <= |chunks| && Trips("" + Flatten(chunks[..n]), marker.value);
      n := FirstTrip(chunks, marker.value, n);
      TrippedIsSuffix(marker.value, chunks, n);
    }
  }

  lemma NoBreak(s: string, from: nat)
    requires forall j :: from <= j < |s| ==> s[j] != '\n'
    ensures IndexOf(s, "\n", from).None?
  {
    IndexOfIs(s, "\n", from);
    forall j: nat | from <= j ensures !At(s, "\n", j) {
      if j < |s| {
        assert s[j..j + 1][0] == s[j];
      }
    }
  }

  lemma BreakAt(s: string, from: nat, k: nat)
    requires from <= k < |s| && s[k] == '\n' && forall j :: from <= j < k ==> s[j] != '\n'
    ensures IndexOf(s, "\n", from) == Some(k)
  {
    IndexOfIs(s, "\n", from);
    assert s[k..k + 1] == "\n";
    assert At(s, "\n", k);
    var nl := IndexOf(s, "\n", from).value;
    assert s[nl] == s[nl..nl + 1][0];
  }

  predicate FirstAt(s: string, m: string, i: nat) {
    At(s, m, i) && forall j: nat :: j < i ==> !At(s, m, j)
  }

  lemma FirstInPrefix(p: string, r: string, m: string, i: nat)
    requires FirstAt(p + r, m, i) && i + |m| <= |p|
    ensures FirstAt(p, m, i)
  {
    AtPrefix(p, r, m, i);
    forall j: nat | j < i ensures !At(p, m, j) {
      if j + |m| <= |p| {
        AtPrefix(p, r, m, j);
      }
    }
  }

  lemma ReleasedFrom(buf: string, m: string, i: nat)
    requires FirstAt(buf, m, i)
    ensures Released(buf, m) == AfterLineFrom(buf, i + |m|)
  {
    hide IndexOf, FirstAt, AfterLineFrom;
    FirstIs(buf, m, i);
    assert Contains(buf, m) && MarkerEnd(buf, m) == i + |m|;
  }

  lemma FirstIs(s: string, m: string, i: nat)
    requires FirstAt(s, m, i)
    ensures IndexOf(s, m, 0) == Some(i)
  {
    IndexOfIs(s, m, 0);
    hide IndexOf, At;
    var found := IndexOf(s, m, 0);
    assert found.Some? && !(i < found.value) && !(found.value < i);
  }

  // What is dropped is everything through the line break that ends the first marker's line; a line
  // that has not ended is dropped as far as it has come.
  lemma DropsTheLine(before: string, m: string, line: string, rest: string)
    requires '\n' !in line && FirstAt(before + m + line + ("\n" + rest), m, |before|)
    ensures Released(before + m + line + ("\n" + rest), m) == rest
    ensures Released(before + m + line, m) == ""
  {
    hide At, Released, AfterLineFrom;
    var open, buf := before + m + line, before + m + line + ("\n" + rest);
    FirstInPrefix(open, "\n" + rest, m, |before|);
    ReleasedFrom(open, m, |before|);
    ReleasedFrom(buf, m, |before|);
    LineAfter(before + m, line, rest);
  }

  lemma LineAfter(head: string, line: string, rest: string)
    requires '\n' !in line
    ensures AfterLineFrom(head + line + ("\n" + rest), |head|) == rest && AfterLineFrom(head + line, |head|) == ""
  {
    var open := head + line;
    NoBreak(open, |head|);
    BreakAt(open + ("\n" + rest), |head|, |open|);
    assert (open + ("\n" + rest))[|open| + 1..] == rest;
  }

  // ----- what depends on the chunking -----

  // The output of the same text in one piece: dropped through the end of the marker's line.
  function InOnePiece(all: string, m: string): string {
    if Trips(all, m) then Released(all, m) else ""
  }

  lemma OnePiece(all: string, m: string)
    requires m != ""
    ensures Run(Start(Some(m)), [all]).1 == InOnePiece(all, m)
  {
    assert "" + all == all && [all][1..] == [];
  }

  lemma FindLater(p: string, r: string, c: char, from: nat)
    requires IndexOf(p, [c], from).None?
    ensures IndexOf(p + r, [c], from).Some? ==> IndexOf(p + r, [c], from).value >= |p|
  {
    IndexOfIs(p, [c], from);
    IndexOfIs(p + r, [c], from);
    forall j: nat | from <= j < |p| ensures !At(p + r, [c], j) {
      AtPrefix(p, r, [c], j);
    }
  }

  lemma MarkerStays(p: string, r: string, m: string)
    requires Contains(p, m)
    ensures Contains(p + r, m) && MarkerEnd(p + r, m) == MarkerEnd(p, m)
  {
    FindExtends(p, r, m, 0);
  }

  // A prefix that trips on the marker with its line ended: exactly the line is dropped.
  lemma LineInTime(p: string, r: string, from: nat)
    requires IndexOf(p, "\n", from).Some?
    ensures AfterLineFrom(p, from) + r == AfterLineFrom(p + r, from)
  {
    hide IndexOf, At;
    FindExtends(p, r, "\n", from);
    DropAppends(p, r, IndexOf(p, "\n", from).value + 1);
  }

  lemma DropAppends(p: string, r: string, k: nat)
    requires k <= |p|
    ensures (p + r)[k..] == p[k..] + r
  {
  }

  // With the line still open, the rest of it is shown, so only an empty rest comes out the same.
  lemma LineTooLate(p: string, r: string, from: nat)
    requires IndexOf(p, "\n", from).None? && from <= |p|
    ensures AfterLineFrom(p, from) + r == AfterLineFrom(p + r, from) <==> r == ""
  {
    FindLater(p, r, '\n', from);
    assert r != "" ==> |AfterLineFrom(p + r, from)| < |r|;
    assert r == "" ==> p + r == p;
  }

  // Chunking shows in exactly two ways: the marker arrives without its line end and more follows, or
  // the cap gives up on a marker that comes later after all.
  lemma ChunkingMatters(m: string, chunks: seq<string>, n: nat)
    requires m != "" && TripsAt("", chunks, m, n)
    ensures var p, r := Flatten(chunks[..n]), Flatten(chunks[n..]);
            Run(Start(Some(m)), chunks).1 == Run(Start(Some(m)), [Flatten(chunks)]).1
            <==> (if Contains(p, m) then LineEnded(p, m) || r == "" else !Contains(Flatten(chunks), m))
  {
    var p, r := Flatten(chunks[..n]), Flatten(chunks[n..]);
    FlattenSplit(chunks, n);
    OnePiece(p + r, m);
    assert "" + p == p;
    assert n > 0 by { assert chunks[..0] == []; }
    ReleasesAt(m, "", chunks, n);
    if Contains(p, m) {
      MarkerStays(p, r, m);
      if LineEnded(p, m) {
        LineInTime(p, r, MarkerEnd(p, m));
      } else {
        LineTooLate(p, r, MarkerEnd(p, m));
      }
    }
  }

  // Output that never trips shows nothing, however it is cut.
  lemma SilentEitherWay(m: string, chunks: seq<string>)
    requires m != "" && NeverTrips("", chunks, m)
    ensures Run(Start(Some(m)), chunks).1 == Run(Start(Some(m)), [Flatten(chunks)]).1 == ""
  {
    HoldsBack(m, "", chunks);
    OnePiece(Flatten(chunks), m);
    assert chunks[..|chunks|] == chunks && "" + Flatten(chunks) == Flatten(chunks);
  }

  // The same text, cut after the marker, shows the rest of the marker's line.
  lemma LateNewlineIsShown()
    ensures Run(Start(Some("#")), ["#\nok"]).1 == "ok"
    ensures Run(Start(Some("#")), ["#", "\nok"]).1 == "\nok"
  {
    var whole, cut := "#\nok", "#";
    assert At(whole, "#", 0) && At(whole, "\n", 1) && At(cut, "#", 0);
    assert InOnePiece(whole, "#") == "ok";
    OnePiece(whole, "#");
    assert AfterLine(cut, "#") == "";
    CutThere("#", cut, "\nok");
  }

  lemma CutThere(m: string, first: string, second: string)
    requires m != "" && Contains(first, m)
    ensures Run(Start(Some(m)), [first, second]).1 == AfterLine(first, m) + second
  {
    var chunks := [first, second];
    assert "" + first == first && chunks[1..] == [second];
    assert Feed(Start(Some(m)), first) == (State(Some(m), true, ""), AfterLine(first, m));
    PassesVerbatim(State(Some(m), true, ""), [second]);
    assert Flatten([second]) == second + Flatten([]);
  }
}
