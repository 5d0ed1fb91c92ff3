// The JavaScript text operations the modelled code relies on.
module JsText {
  import opened Options

  // What \s matches and String.prototype.trim removes.
  predicate IsSpace(c: char) {
    || '\t' <= c <= '\r' || c == ' ' || c == '\U{A0}' || c == '\U{1680}' || '\U{2000}' <= c <= '\U{200A}'
    || c == '\U{2028}' || c == '\U{2029}' || c == '\U{202F}' || c == '\U{205F}' || c == '\U{3000}' || c == '\U{FEFF}'
  }

  // What `.` does not match.
  predicate IsLineBreak(c: char) {
    c == '\n' || c == '\r' || c == '\U{2028}' || c == '\U{2029}'
  }

  function TrimStart(s: string): (r: string)
    ensures |r| <= |s| && (r != [] ==> !IsSpace(r[0]))
  {
    if s != [] && IsSpace(s[0]) then TrimStart(s[1..]) else s
  }

  function TrimEnd(s: string): (r: string)
    ensures |r| <= |s| && (r != [] ==> !IsSpace(r[|r| - 1]))
  {
    if s != [] && IsSpace(s[|s| - 1]) then TrimEnd(s[..|s| - 1]) else s
  }

  // What is gone was white space at that end.
  lemma {:induction false} TrimStartIs(s: string) returns (gone: string)
    ensures s == gone + TrimStart(s) && forall i :: 0 <= i < |gone| ==> IsSpace(gone[i])
  {
    gone := "";
    if s != [] && IsSpace(s[0]) {
      gone := TrimStartIs(s[1..]);
      assert s == [s[0]] + s[1..];
      gone := [s[0]] + gone;
    }
  }

  lemma {:induction false} TrimEndIs(s: string) returns (gone: string)
    ensures s == TrimEnd(s) + gone && forall i :: 0 <= i < |gone| ==> IsSpace(gone[i])
  {
    gone := "";
    if s != [] && IsSpace(s[|s| - 1]) {
      gone := TrimEndIs(s[..|s| - 1]);
      assert s == s[..|s| - 1] + [s[|s| - 1]];
      gone := gone + [s[|s| - 1]];
    }
  }

  function Trim(s: string): string { TrimEnd(TrimStart(s)) }

  lemma TrimNothing(s: string)
    requires s == [] || (!IsSpace(s[0]) && !IsSpace(s[|s| - 1]))
    ensures Trim(s) == s
  {
  }

  // ----- String.prototype.indexOf -----

  predicate At(s: string, m: string, j: nat) {
    j + |m| <= |s| && s[j..j + |m|] == m
  }

  function IndexOf(s: string, m: string, from: nat): (r: Option<nat>)
    ensures r.Some? ==> from <= r.value && r.value + |m| <= |s|
    decreases |s| - from
  {
    if from + |m| > |s| then None
    else if At(s, m, from) then Some(from)
    else IndexOf(s, m, from + 1)
  }

  // It is the first occurrence, and there is one whenever the text occurs.
  lemma {:induction false} IndexOfIs(s: string, m: string, from: nat)
    ensures var r := IndexOf(s, m, from);
            && (r.Some? ==> At(s, m, r.value) && forall j: nat :: from <= j < r.value ==> !At(s, m, j))
            && (r.None? ==> forall j: nat :: from <= j ==> !At(s, m, j))
    decreases |s| - from
  {
    if from + |m| <= |s| && !At(s, m, from) {
      IndexOfIs(s, m, from + 1);
    }
  }

  predicate Contains(s: string, m: string) { IndexOf(s, m, 0).Some? }

  lemma AtPrefix(p: string, r: string, m: string, j: nat)
    requires j + |m| <= |p|
    ensures At(p + r, m, j) <==> At(p, m, j)
  {
    assert (p + r)[j..j + |m|] == p[j..j + |m|];
  }

  // An occurrence does not move when more text arrives.
  lemma FindExtends(p: string, r: string, m: string, from: nat)
    requires IndexOf(p, m, from).Some?
    ensures IndexOf(p + r, m, from) == IndexOf(p, m, from)
  {
    var i := IndexOf(p, m, from).value;
    IndexOfIs(p, m, from);
    IndexOfIs(p + r, m, from);
    forall j: nat | from <= j < i ensures !At(p + r, m, j) {
      AtPrefix(p, r, m, j);
    }
    AtPrefix(p, r, m, i);
  }
}
