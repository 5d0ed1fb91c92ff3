// The default display name of a peer: a slug of its host and directory, made free in its group.
module DefaultId {

  // ----- the sanitiser -----

  predicate IsAlnum(c: char) { 'a' <= c <= 'z' || '0' <= c <= '9' }

  predicate IsSlugChar(c: char) { IsAlnum(c) || c == '-' }

  // /[^a-z0-9-]/g -> "-"
  function ReplaceOthers(s: string): (r: string)
    ensures |r| == |s|
    ensures forall i :: 0 <= i < |r| ==> IsSlugChar(r[i])
  {
    if s == [] then [] else [if IsSlugChar(s[0]) then s[0] else '-'] + ReplaceOthers(s[1..])
  }

  // /-+/g -> "-"
  function CollapseDashes(s: string): string {
    if |s| < 2 then s
    else if s[0] == '-' && s[1] == '-' then CollapseDashes(s[1..])
    else [s[0]] + CollapseDashes(s[1..])
  }

  // /^-|-$/g -> ""
  function StripDashes(s: string): string { DropLastDash(DropFirstDash(s)) }

  function DropFirstDash(s: string): string {
    if s != [] && s[0] == '-' then s[1..] else s
  }

  function DropLastDash(s: string): string {
    if s != [] && s[|s| - 1] == '-' then s[..|s| - 1] else s
  }

  // `lower` is String.prototype.toLowerCase; nothing here depends on what it does outside slugs.
  function Sanitize(lower: string -> string, s: string): string {
    StripDashes(CollapseDashes(ReplaceOthers(lower(s))))
  }

  ghost predicate NoDoubledDash(s: string) {
    forall i :: 0 <= i < |s| - 1 ==> !(s[i] == '-' && s[i + 1] == '-')
  }

  // Only [a-z0-9-], and no doubled, leading or trailing dash.
  ghost predicate IsSlug(s: string) {
    && (forall i :: 0 <= i < |s| ==> IsSlugChar(s[i]))
    && NoDoubledDash(s)
    && (s != [] ==> s[0] != '-' && s[|s| - 1] != '-')
  }

  // The letters and digits of a text, in order.
  ghost function Alnums(s: string): string {
    if s == [] then [] else if IsAlnum(s[0]) then [s[0]] + Alnums(s[1..]) else Alnums(s[1..])
  }

  lemma {:induction false} AlnumsConcat(s: string, t: string)
    ensures Alnums(s + t) == Alnums(s) + Alnums(t)
  {
    if s == [] {
      assert s + t == t;
    } else {
      assert (s + t)[1..] == s[1..] + t;
      AlnumsConcat(s[1..], t);
    }
  }

  lemma {:induction false} ReplaceKeepsAlnums(s: string)
    ensures Alnums(ReplaceOthers(s)) == Alnums(s)
  {
    if s != [] {
      ReplaceKeepsAlnums(s[1..]);
      assert ReplaceOthers(s)[1..] == ReplaceOthers(s[1..]);
    }
  }

  lemma {:induction false} CollapseFacts(s: string)
    requires forall i :: 0 <= i < |s| ==> IsSlugChar(s[i])
    ensures var r := CollapseDashes(s);
            && (forall i :: 0 <= i < |r| ==> IsSlugChar(r[i]))
            && NoDoubledDash(r)
            && (s != [] ==> r != [] && r[0] == s[0])
            && Alnums(r) == Alnums(s)
  {
    if |s| >= 2 {
      CollapseFacts(s[1..]);
      if !(s[0] == '-' && s[1] == '-') {
        assert CollapseDashes(s)[1..] == CollapseDashes(s[1..]);
      }
    }
  }

  ghost predicate IsDashed(s: string) {
    (forall i :: 0 <= i < |s| ==> IsSlugChar(s[i])) && NoDoubledDash(s)
  }

  lemma FirstDropped(s: string)
    requires IsDashed(s)
    ensures var t := DropFirstDash(s); IsDashed(t) && (t != [] ==> t[0] != '-') && Alnums(t) == Alnums(s)
  {
  }

  lemma LastDropped(s: string)
    requires IsDashed(s) && (s != [] ==> s[0] != '-')
    ensures IsSlug(DropLastDash(s)) && Alnums(DropLastDash(s)) == Alnums(s)
  {
    if s != [] && s[|s| - 1] == '-' {
      var u := s[..|s| - 1];
      assert s == u + ['-'];
      AlnumsConcat(u, ['-']);
    }
  }

  // The result is a slug, and the letters and digits of the lowered text survive in order.
  lemma SanitizeYieldsSlug(lower: string -> string, s: string)
    ensures IsSlug(Sanitize(lower, s))
    ensures Alnums(Sanitize(lower, s)) == Alnums(lower(s))
  {
    ReplaceKeepsAlnums(lower(s));
    CollapseFacts(ReplaceOthers(lower(s)));
    var t := CollapseDashes(ReplaceOthers(lower(s)));
    FirstDropped(t);
    LastDropped(DropFirstDash(t));
  }

  lemma {:induction false} SlugIsFixed(s: string)
    requires (forall i :: 0 <= i < |s| ==> IsSlugChar(s[i])) && NoDoubledDash(s)
    ensures ReplaceOthers(s) == s && CollapseDashes(s) == s
  {
    if s != [] {
      SlugIsFixed(s[1..]);
    }
  }

  lemma SanitizeIdempotent(lower: string -> string, s: string)
    requires forall t :: IsSlug(t) ==> lower(t) == t
    ensures Sanitize(lower, Sanitize(lower, s)) == Sanitize(lower, s)
  {
    SanitizeYieldsSlug(lower, s);
    SlugIsFixed(Sanitize(lower, s));
  }

  // The maximal runs of letters and digits.
  ghost function Words(s: string): (ws: seq<string>)
    ensures s != [] && IsAlnum(s[0]) ==> ws != []
    ensures forall w :: w in ws ==> w != [] && forall i :: 0 <= i < |w| ==> IsAlnum(w[i])
  {
    if s == [] then []
    else if !IsAlnum(s[0]) then Words(s[1..])
    else if |s| > 1 && IsAlnum(s[1]) then
      var ws := Words(s[1..]);
      assert ws[0] in ws && forall w :: w in ws[1..] ==> w in ws;
      [[s[0]] + ws[0]] + ws[1..]
    else [[s[0]]] + Words(s[1..])
  }

  ghost function Dashed(ws: seq<string>): string {
    if ws == [] then "" else if |ws| == 1 then ws[0] else ws[0] + "-" + Dashed(ws[1..])
  }

  // A dash on each side where the text has something else there.
  ghost function Lead(s: string): string { if s != [] && !IsAlnum(s[0]) then "-" else "" }

  ghost function Trail(s: string): string { if s != [] && !IsAlnum(s[|s| - 1]) then "-" else "" }

  ghost function Shape(s: string): string {
    if Words(s) == [] then Lead(s) else Lead(s) + (Dashed(Words(s)) + Trail(s))
  }

  lemma {:induction false} CollapsedShape(s: string)
    ensures CollapseDashes(ReplaceOthers(s)) == Shape(s)
  {
    if |s| < 2 {
      ShortShape(s);
    } else {
      var rest := s[1..];
      CollapsedShape(rest);
      CollapseCons(s);
      ShapeCons(s);
    }
  }

  lemma ShortShape(s: string)
    requires |s| < 2
    ensures ReplaceOthers(s) == Shape(s)
  {
    if s != [] {
      assert s == [s[0]] && s[1..] == [];
      assert Words(s[1..]) == [];
      assert ReplaceOthers(s) == [if IsSlugChar(s[0]) then s[0] else '-'] + [];
      assert [[s[0]]] + [] == [[s[0]]];
    }
  }

  lemma CollapseCons(s: string)
    requires |s| >= 2
    ensures var r := CollapseDashes(ReplaceOthers(s[1..]));
            CollapseDashes(ReplaceOthers(s)) == if !IsAlnum(s[0]) && !IsAlnum(s[1]) then r
                                                else [if IsAlnum(s[0]) then s[0] else '-'] + r
  {
    var c, r := if IsAlnum(s[0]) then s[0] else '-', ReplaceOthers(s[1..]);
    assert ReplaceOthers(s) == [c] + r;
    assert r[0] == '-' <==> !IsAlnum(s[1]);
    hide ReplaceOthers;
    CollapseStep(c, r);
  }

  lemma CollapseStep(c: char, r: string)
    requires r != ""
    ensures CollapseDashes([c] + r) == if c == '-' && r[0] == '-' then CollapseDashes(r) else [c] + CollapseDashes(r)
  {
    assert ([c] + r)[1..] == r;
  }

  lemma Regroup(a: string, b: string, c: string, d: string)
    ensures (a + b) + c + d == a + (b + c + d)
  {
  }

  lemma DashedGrows(c: char, ws: seq<string>)
    requires ws != []
    ensures Dashed([[c] + ws[0]] + ws[1..]) == [c] + Dashed(ws)
  {
    var grown := [[c] + ws[0]] + ws[1..];
    assert |grown| == |ws| && grown[0] == [c] + ws[0] && grown[1..] == ws[1..];
    if |ws| > 1 {
      Regroup([c], ws[0], "-", Dashed(ws[1..]));
    }
  }

  lemma DashedCons(c: char, ws: seq<string>)
    ensures Dashed([[c]] + ws) == if ws == [] then [c] else [c] + ("-" + Dashed(ws))
  {
    assert ([[c]] + ws)[1..] == ws;
  }

  lemma ShapeInWord(s: string)
    requires |s| >= 2 && IsAlnum(s[0]) && IsAlnum(s[1])
    ensures Shape(s) == [s[0]] + Shape(s[1..])
  {
    FirstWordGrows(s);
    hide Words, Dashed;
    Prepended(s[0], Dashed(Words(s[1..])), Trail(s));
  }

  lemma FirstWordGrows(s: string)
    requires |s| >= 2 && IsAlnum(s[0]) && IsAlnum(s[1])
    ensures Words(s) != [] && Words(s[1..]) != [] && Dashed(Words(s)) == [s[0]] + Dashed(Words(s[1..]))
  {
    var ws := Words(s[1..]);
    assert Words(s) == [[s[0]] + ws[0]] + ws[1..];
    hide Words, Dashed;
    DashedGrows(s[0], ws);
  }

  lemma Prepended(c: char, d: string, t: string)
    ensures "" + (([c] + d) + t) == [c] + ("" + (d + t))
  {
  }

  lemma ShapeAtWordEnd(s: string)
    requires |s| >= 2 && IsAlnum(s[0]) && !IsAlnum(s[1])
    ensures Shape(s) == [s[0]] + Shape(s[1..])
  {
    var ws := Words(s[1..]);
    assert Words(s) == [[s[0]]] + ws;
    if ws == [] { NoWords(s[1..]); }
    DashedCons(s[0], ws);
    hide Words, Dashed;
    Regroup([s[0]], "-", Dashed(ws), Trail(s));
  }

  lemma ShapeOutside(s: string)
    requires |s| >= 2 && !IsAlnum(s[0])
    ensures Shape(s) == if IsAlnum(s[1]) then "-" + Shape(s[1..]) else Shape(s[1..])
  {
    assert Words(s) == Words(s[1..]);
    hide Words, Dashed;
  }

  lemma ShapeCons(s: string)
    requires |s| >= 2
    ensures Shape(s) == if !IsAlnum(s[0]) && !IsAlnum(s[1]) then Shape(s[1..])
                        else [if IsAlnum(s[0]) then s[0] else '-'] + Shape(s[1..])
  {
    hide Shape;
    if !IsAlnum(s[0]) {
      ShapeOutside(s);
    } else if IsAlnum(s[1]) {
      ShapeInWord(s);
    } else {
      ShapeAtWordEnd(s);
    }
  }

  lemma {:induction false} NoWords(s: string)
    requires Words(s) == []
    ensures forall i :: 0 <= i < |s| ==> !IsAlnum(s[i])
  {
    if s != [] {
      NoWords(s[1..]);
    }
  }

  lemma {:induction false} DashedEnds(ws: seq<string>)
    requires ws != [] && forall w :: w in ws ==> w != [] && forall i :: 0 <= i < |w| ==> IsAlnum(w[i])
    ensures var d := Dashed(ws); d != [] && IsAlnum(d[0]) && IsAlnum(d[|d| - 1])
  {
    assert ws[0] in ws;
    if |ws| > 1 {
      DashedEnds(ws[1..]);
    }
  }

  lemma StrippedIs(lead: string, d: string, trail: string)
    requires lead in {"", "-"} && trail in {"", "-"} && d != [] && IsAlnum(d[0]) && IsAlnum(d[|d| - 1])
    ensures StripDashes(lead + (d + trail)) == d
  {
    assert DropFirstDash(lead + (d + trail)) == d + trail;
  }

  // The sanitiser's result: the runs of letters and digits of the lowered text, joined by single dashes.
  lemma SanitizeIs(lower: string -> string, s: string)
    ensures Sanitize(lower, s) == Dashed(Words(lower(s)))
  {
    var t := lower(s);
    CollapsedShape(t);
    if Words(t) != [] {
      DashedEnds(Words(t));
      hide Words, Dashed, StripDashes;
      StrippedIs(Lead(t), Dashed(Words(t)), Trail(t));
    }
  }

  // cwd.split(/[/\\]/).pop()
  function LastSegment(cwd: string): (r: string)
    ensures |r| <= |cwd| && r == cwd[|cwd| - |r|..]
    ensures '/' !in r && '\\' !in r
    ensures |r| < |cwd| ==> cwd[|cwd| - |r| - 1] in {'/', '\\'}
  {
    if cwd == [] || cwd[|cwd| - 1] in {'/', '\\'} then []
    else
      var r := LastSegment(cwd[..|cwd| - 1]);
      assert cwd == cwd[..|cwd| - 1] + [cwd[|cwd| - 1]];
      r + [cwd[|cwd| - 1]]
  }

  function Slice(s: string, n: nat): string { if |s| <= n then s else s[..n] }

  function BaseId(lower: string -> string, host: string, cwd: string): string {
    var h := Slice(Sanitize(lower, host), 20);
    var hostPart := if h == [] then "peer" else h;
    var cwdPart := Slice(Sanitize(lower, LastSegment(cwd)), 12);
    if cwdPart == [] then hostPart else hostPart + "-" + cwdPart
  }

  // ----- numerals -----

  function Numeral(d: nat): char
    requires d < 36
  {
    if d < 10 then ('0' as int + d) as char else ('a' as int + d - 10) as char
  }

  // Number.prototype.toString(radix)
  function ToRadix(n: nat, radix: nat): (s: string)
    requires 2 <= radix <= 36
    ensures s != []
    decreases n
  {
    if n < radix then [Numeral(n)] else ToRadix(n / radix, radix) + [Numeral(n % radix)]
  }

  ghost predicate IsDigitOf(c: char, radix: nat) {
    ('0' <= c <= '9' && c as int - '0' as int < radix) || ('a' <= c <= 'z' && c as int - 'a' as int + 10 < radix)
  }

  ghost function DigitValue(c: char): int {
    if c <= '9' then c as int - '0' as int else c as int - 'a' as int + 10
  }

  ghost function ValueOf(s: string, radix: nat): int {
    if s == [] then 0 else ValueOf(s[..|s| - 1], radix) * radix + DigitValue(s[|s| - 1])
  }

  lemma NumeralIs(d: nat, radix: nat)
    requires d < radix <= 36
    ensures IsDigitOf(Numeral(d), radix) && DigitValue(Numeral(d)) == d && (Numeral(d) == '0' ==> d == 0)
  {
  }

  lemma ValueAppend(s: string, c: char, radix: nat)
    ensures ValueOf(s + [c], radix) == ValueOf(s, radix) * radix + DigitValue(c)
  {
    assert (s + [c])[..|s|] == s;
  }

  lemma Divides(n: nat, radix: nat)
    requires radix >= 2
    ensures n == n / radix * radix + n % radix && n % radix < radix && (n >= radix ==> 0 < n / radix < n)
  {
  }

  // Positional notation: digits of the radix that amount to n, the first not zero unless n is.
  lemma {:induction false} NumeralMeans(n: nat, radix: nat)
    requires 2 <= radix <= 36
    ensures var s := ToRadix(n, radix);
            && (forall i :: 0 <= i < |s| ==> IsDigitOf(s[i], radix)) && ValueOf(s, radix) == n
            && (s[0] == '0' ==> n == 0)
    decreases n
  {
    hide IsDigitOf, DigitValue, Numeral, ValueOf;
    Divides(n, radix);
    if n < radix {
      NumeralIs(n, radix);
      ValueAppend([], Numeral(n), radix);
      NoDigits(radix);
      assert [] + [Numeral(n)] == [Numeral(n)];
    } else {
      var q, d := n / radix, n % radix;
      NumeralMeans(q, radix);
      NumeralIs(d, radix);
      ValueAppend(ToRadix(q, radix), Numeral(d), radix);
      assert ToRadix(n, radix) == ToRadix(q, radix) + [Numeral(d)];
    }
  }

  lemma NoDigits(radix: nat)
    ensures ValueOf([], radix) == 0
  {
  }

  // All numerals but the last.
  function Front(n: nat): string {
    if n < 10 then [] else ToRadix(n / 10, 10)
  }

  lemma LastNumeral(n: nat)
    ensures ToRadix(n, 10) == Front(n) + [Numeral(n % 10)]
  {
  }

  lemma SameLast(a: string, c: char, b: string, d: char)
    requires a + [c] == b + [d]
    ensures a == b && c == d
  {
    assert (a + [c])[|a|] == c && (b + [d])[|b|] == d;
    assert a == (a + [c])[..|a|] && b == (b + [d])[..|b|];
  }

  lemma {:induction false} DecimalInjective(a: nat, b: nat)
    requires ToRadix(a, 10) == ToRadix(b, 10)
    ensures a == b
    decreases a
  {
    LastNumeral(a);
    LastNumeral(b);
    SameLast(Front(a), Numeral(a % 10), Front(b), Numeral(b % 10));
    FrontInjective(a, b);
  }

  lemma {:induction false} FrontInjective(a: nat, b: nat)
    requires Front(a) == Front(b) && Numeral(a % 10) == Numeral(b % 10)
    ensures a == b
    decreases a, 0
  {
    if a >= 10 && b >= 10 {
      DecimalInjective(a / 10, b / 10);
    }
  }

  // ----- the free name -----

  const MAX_SUFFIX: nat := 1000

  function Candidate(base: string, k: nat): string {
    if k <= 1 then base else base + "-" + ToRadix(k, 10)
  }

  // `stamp` is Date.now() at the time the suffixes run out.
  function Fallback(base: string, stamp: nat): string {
    base + "-" + ToRadix(stamp, 36)
  }

  // base, then base with a dash and the number in decimal; the last resort has the clock in base 36.
  lemma NamesAre(base: string, k: nat, stamp: nat)
    requires k > 1
    ensures Candidate(base, 0) == Candidate(base, 1) == base
    ensures Candidate(base, k)[..|base| + 1] == Fallback(base, stamp)[..|base| + 1] == base + "-"
    ensures ValueOf(Candidate(base, k)[|base| + 1..], 10) == k
    ensures ValueOf(Fallback(base, stamp)[|base| + 1..], 36) == stamp
  {
    NumeralMeans(k, 10);
    NumeralMeans(stamp, 36);
    assert Candidate(base, k)[|base| + 1..] == ToRadix(k, 10);
    assert Fallback(base, stamp)[|base| + 1..] == ToRadix(stamp, 36);
  }

  ghost function Cut(s: string, n: nat): string { s[..if |s| < n then |s| else n] }

  // What follows the last separator.
  ghost predicate IsLastSegment(cwd: string, last: string) {
    exists front :: cwd == front + last && '/' !in last && '\\' !in last
                 && (front == "" || front[|front| - 1] == '/' || front[|front| - 1] == '\\')
  }

  // The derived base: at most 20 characters of the host's slug, "peer" if it has none, then a dash and
  // at most 12 of the last directory's, if it has any.
  lemma BaseIs(lower: string -> string, host: string, cwd: string, last: string)
    requires IsLastSegment(cwd, last)
    ensures var h, d := Dashed(Words(lower(host))), Dashed(Words(lower(last)));
            BaseId(lower, host, cwd)
              == (if h == "" then "peer" else Cut(h, 20)) + (if d == "" then "" else "-" + Cut(d, 12))
  {
    SanitizeIs(lower, host);
    SanitizeIs(lower, last);
    LastSegmentIs(cwd, last);
    hide Sanitize, Words, Dashed, IsLastSegment, LastSegment, Cut, BaseId;
    BaseFrom(lower, host, cwd);
  }

  lemma BaseFrom(lower: string -> string, host: string, cwd: string)
    ensures var h, d := Sanitize(lower, host), Sanitize(lower, LastSegment(cwd));
            BaseId(lower, host, cwd)
              == (if h == "" then "peer" else Cut(h, 20)) + (if d == "" then "" else "-" + Cut(d, 12))
  {
    var h, d := Sanitize(lower, host), Sanitize(lower, LastSegment(cwd));
    hide Sanitize, Cut, Slice;
    CutIs(h, 20);
    CutIs(d, 12);
    DashBetween(if h == "" then "peer" else Cut(h, 20), Cut(d, 12));
  }

  lemma DashBetween(x: string, y: string)
    ensures x + "-" + y == x + ("-" + y) && x + "" == x
  {
  }

  lemma CutIs(s: string, n: nat)
    requires n > 0
    ensures Slice(s, n) == Cut(s, n) && (Cut(s, n) == "" <==> s == "")
  {
    assert |s| <= n ==> s[..|s|] == s;
  }

  lemma LastSegmentIs(cwd: string, last: string)
    requires IsLastSegment(cwd, last)
    ensures LastSegment(cwd) == last
  {
    var front :| cwd == front + last && (front == "" || front[|front| - 1] == '/' || front[|front| - 1] == '\\');
    SegmentAfter(front, last);
  }

  lemma {:induction false} SegmentAfter(front: string, last: string)
    requires '/' !in last && '\\' !in last
    requires front == "" || front[|front| - 1] == '/' || front[|front| - 1] == '\\'
    ensures LastSegment(front + last) == last
  {
    if last == "" {
      assert front + last == front;
    } else {
      var n := |last| - 1;
      assert last[n] in last && last == last[..n] + [last[n]];
      assert front + last == (front + last[..n]) + [last[n]];
      SegmentAfter(front, last[..n]);
      SegmentGrows(front + last[..n], last[n]);
    }
  }

  lemma SegmentGrows(p: string, c: char)
    requires c != '/' && c != '\\'
    ensures LastSegment(p + [c]) == LastSegment(p) + [c]
  {
    assert (p + [c])[..|p + [c]| - 1] == p;
  }

  lemma CandidatesDiffer(base: string, j: nat, k: nat)
    requires 1 <= j < k
    ensures Candidate(base, j) != Candidate(base, k)
  {
    if j > 1 && Candidate(base, j) == Candidate(base, k) {
      assert ToRadix(j, 10) == Candidate(base, j)[|base| + 1..];
      assert ToRadix(k, 10) == Candidate(base, k)[|base| + 1..];
      DecimalInjective(j, k);
    }
  }

  function FirstFree(taken: set<string>, base: string, stamp: nat, k: nat): string
    requires 1 <= k <= MAX_SUFFIX
    decreases MAX_SUFFIX - k
  {
    if Candidate(base, k) !in taken then Candidate(base, k)
    else if k == MAX_SUFFIX then Fallback(base, stamp)
    else FirstFree(taken, base, stamp, k + 1)
  }

  function DeriveId(taken: set<string>, base: string, stamp: nat): string {
    FirstFree(taken, base, stamp, 1)
  }

  ghost predicate AllTaken(taken: set<string>, base: string) {
    forall k :: 1 <= k <= MAX_SUFFIX ==> Candidate(base, k) in taken
  }

  lemma {:induction false} FirstFreeIs(taken: set<string>, base: string, stamp: nat, k: nat, free: nat)
    requires 1 <= k <= free <= MAX_SUFFIX
    requires Candidate(base, free) !in taken && forall j :: k <= j < free ==> Candidate(base, j) in taken
    ensures FirstFree(taken, base, stamp, k) == Candidate(base, free)
    decreases free - k
  {
    if k < free {
      assert Candidate(base, k) in taken;
      assert FirstFree(taken, base, stamp, k) == FirstFree(taken, base, stamp, k + 1);
      FirstFreeIs(taken, base, stamp, k + 1, free);
    }
  }

  lemma {:induction false} FirstFreeFallsBack(taken: set<string>, base: string, stamp: nat, k: nat)
    requires 1 <= k <= MAX_SUFFIX && AllTaken(taken, base)
    ensures FirstFree(taken, base, stamp, k) == Fallback(base, stamp)
    decreases MAX_SUFFIX - k
  {
    if k < MAX_SUFFIX {
      FirstFreeFallsBack(taken, base, stamp, k + 1);
    }
  }

  // The derived name is taken exactly when every candidate and the clock-stamped name are.
  lemma DerivedIdTakenIff(taken: set<string>, base: string, stamp: nat)
    ensures DeriveId(taken, base, stamp) in taken <==> AllTaken(taken, base) && Fallback(base, stamp) in taken
    ensures AllTaken(taken, base) ==> DeriveId(taken, base, stamp) == Fallback(base, stamp)
  {
    if AllTaken(taken, base) {
      FirstFreeFallsBack(taken, base, stamp, 1);
    } else {
      var k :| 1 <= k <= MAX_SUFFIX && Candidate(base, k) !in taken;
      var free := LeastFree(taken, base, k);
      FirstFreeIs(taken, base, stamp, 1, free);
    }
  }

  lemma {:induction false} LeastFree(taken: set<string>, base: string, k: nat) returns (free: nat)
    requires 1 <= k && Candidate(base, k) !in taken
    ensures 1 <= free <= k && Candidate(base, free) !in taken
    ensures forall j :: 1 <= j < free ==> Candidate(base, j) in taken
    decreases k
  {
    if j :| 1 <= j < k && Candidate(base, j) !in taken {
      free := LeastFree(taken, base, j);
    } else {
      free := k;
    }
  }

  // With fewer than 1000 names taken some candidate is free, and the first of them is the answer.
  lemma FewNamesLeaveOneFree(taken: set<string>, base: string, stamp: nat)
    requires |taken| < MAX_SUFFIX
    ensures exists free :: 1 <= free <= MAX_SUFFIX
                        && DeriveId(taken, base, stamp) == Candidate(base, free)
                        && Candidate(base, free) !in taken
                        && forall j :: 1 <= j < free ==> Candidate(base, j) in taken
  {
    if AllTaken(taken, base) {
      var names := CandidateSet(base, MAX_SUFFIX);
      assert names <= taken;
      SubsetSize(names, taken);
    } else {
      var k :| 1 <= k <= MAX_SUFFIX && Candidate(base, k) !in taken;
      var free := LeastFree(taken, base, k);
      FirstFreeIs(taken, base, stamp, 1, free);
    }
  }

  lemma {:induction false} CandidateSet(base: string, n: nat) returns (names: set<string>)
    ensures |names| == n
    ensures forall s :: s in names ==> exists k :: 1 <= k <= n && s == Candidate(base, k)
  {
    if n == 0 {
      names := {};
    } else {
      var smaller := CandidateSet(base, n - 1);
      forall s | s in smaller ensures s != Candidate(base, n) {
        var k :| 1 <= k <= n - 1 && s == Candidate(base, k);
        CandidatesDiffer(base, k, n);
      }
      names := smaller + {Candidate(base, n)};
    }
  }

  lemma {:induction false} SubsetSize<T>(a: set<T>, b: set<T>)
    requires a <= b
    ensures |a| <= |b|
  {
    if a != {} {
      var x :| x in a;
      SubsetSize(a - {x}, b - {x});
    }
  }
}
