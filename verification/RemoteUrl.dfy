// One key for a git remote, however its URL is written. toLowerCase is a parameter.
module RemoteUrl {
  import opened JsText
  import opened Options

  // /\.git$/i
  predicate EndsWithGit(s: string) {
    && |s| >= 4 && s[|s| - 4] == '.' && s[|s| - 3] in {'g', 'G'} && s[|s| - 2] in {'i', 'I'} && s[|s| - 1] in {'t', 'T'}
  }

  function StripGit(s: string): string {
    if EndsWithGit(s) then s[..|s| - 4] else s
  }

  function StripSlashes(s: string): string {
    if s != "" && s[0] == '/' then StripSlashes(s[1..]) else s
  }

  predicate HasNo(s: string, stop: char -> bool) {
    forall i :: 0 <= i < |s| ==> !stop(s[i])
  }

  // [^@\s:/] and [^:\s/]
  predicate EndsUser(c: char) { c == '@' || EndsHost(c) }

  predicate EndsHost(c: char) { c == ':' || c == '/' || IsSpace(c) }

  // [a-z+], ignoring case
  predicate InScheme(c: char) { 'a' <= c <= 'z' || 'A' <= c <= 'Z' || c == '+' }

  // host and path of host:path
  function HostColonPath(s: string): Option<(string, string)> {
    match IndexOf(s, ":", 0)
    case None => None
    case Some(colon) =>
      var host, path := s[..colon], s[colon + 1..];
      if host != "" && HasNo(host, EndsHost) && path != "" && path[0] != '/' && HasNo(path, IsLineBreak)
      then Some((host, path)) else None
  }

  // the same of user@host:path
  function ScpMatch(s: string): Option<(string, string)> {
    match IndexOf(s, "@", 0)
    case None => None
    case Some(at) => if s[..at] != "" && HasNo(s[..at], EndsUser) then HostColonPath(s[at + 1..]) else None
  }

  function SchemeLength(s: string): (n: nat)
    ensures n <= |s| && (forall i :: 0 <= i < n ==> InScheme(s[i])) && (n < |s| ==> !InScheme(s[n]))
  {
    if s != "" && InScheme(s[0]) then 1 + SchemeLength(s[1..]) else 0
  }

  // What follows scheme://
  function ProtoMatch(s: string): Option<string> {
    var n := SchemeLength(s);
    if n > 0 && At(s, "://", n) && s[n + 3..] != "" && HasNo(s[n + 3..], IsLineBreak) then Some(s[n + 3..]) else None
  }

  function StripUserInfo(rest: string): string {
    var at, slash := IndexOf(rest, "@", 0), IndexOf(rest, "/", 0);
    if at.Some? && (slash.None? || at.value < slash.value) then rest[at.value + 1..] else rest
  }

  function StripPort(host: string): string {
    match IndexOf(host, ":", 0)
    case Some(colon) => host[..colon]
    case None => host
  }

  function HostAndPath(rest: string, lower: string -> string): string {
    match IndexOf(rest, "/", 0)
    case None => lower(rest)
    case Some(slash) => lower(StripPort(rest[..slash])) + "/" + rest[slash + 1..]
  }

  function Keyed(s: string, lower: string -> string): string {
    if ScpMatch(s).Some? && !Contains(s, "://")
    then lower(ScpMatch(s).value.0) + "/" + StripSlashes(ScpMatch(s).value.1)
    else
      match ProtoMatch(s)
      case Some(rest) => HostAndPath(StripUserInfo(rest), lower)
      case None => lower(s)
  }

  function NormalizeRemoteUrl(url: string, lower: string -> string): Option<string> {
    var s := Trim(url);
    if s == "" then None else Some(Keyed(StripGit(s), lower))
  }

  // ----- the forms of one remote -----

  predicate IsName(s: string) { s != "" && HasNo(s, EndsUser) }

  predicate Plain(s: string) { HasNo(s, c => c == '@' || c == '/' || IsLineBreak(c)) }

  predicate IsScheme(s: string) { s != "" && forall i :: 0 <= i < |s| ==> InScheme(s[i]) }

  predicate IsPath(s: string) {
    s != "" && s[0] != '/' && HasNo(s, IsLineBreak) && !Contains(s, "://")
  }

  function ScpForm(user: string, host: string, path: string): string {
    ScpHead(user, host) + path
  }

  function ScpHead(user: string, host: string): string { user + "@" + host + ":" }

  function ProtoForm(scheme: string, userInfo: Option<string>, host: string, port: Option<string>,
                     path: string): string {
    ProtoHead(scheme, userInfo, host, port) + path
  }

  function ProtoHead(scheme: string, userInfo: Option<string>, host: string, port: Option<string>): string {
    scheme + "://" + Prefix(userInfo) + (host + Port(port)) + "/"
  }

  function Prefix(userInfo: Option<string>): string {
    match userInfo
    case Some(u) => u + "@"
    case None => ""
  }

  function Port(port: Option<string>): string {
    match port
    case Some(p) => ":" + p
    case None => ""
  }

  // ----- searching -----

  lemma AtChar(s: string, c: char, j: nat)
    ensures At(s, [c], j) <==> j < |s| && s[j] == c
  {
    if j < |s| {
      assert s[j..j + 1] == [s[j]];
    }
  }

  lemma FindsFirst(a: string, c: char, b: string)
    requires c !in a
    ensures IndexOf(a + [c] + b, [c], 0) == Some(|a|)
  {
    var s := a + [c] + b;
    IndexOfIs(s, [c], 0);
    AtChar(s, c, |a|);
    forall j: nat | j < |a| ensures !At(s, [c], j) {
      AtChar(s, c, j);
    }
  }

  lemma FindsNone(s: string, c: char)
    requires c !in s
    ensures IndexOf(s, [c], 0).None?
  {
    IndexOfIs(s, [c], 0);
    forall j: nat ensures !At(s, [c], j) {
      AtChar(s, c, j);
    }
  }

  lemma AppearsAt(s: string, m: string, j: nat)
    requires At(s, m, j)
    ensures Contains(s, m)
  {
    IndexOfIs(s, m, 0);
  }

  // ----- the scp form -----

  lemma MarkChars(s: string, i: nat)
    ensures At(s, "://", i) ==> s[i] == ':' && s[i + 1] == '/'
  {
    if At(s, "://", i) {
      assert s[i] == s[i..i + 3][0] && s[i + 1] == s[i..i + 3][1];
    }
  }

  lemma AtSuffix(head: string, s: string, m: string, i: nat)
    requires |head| <= i
    ensures At(head + s, m, i) <==> At(s, m, i - |head|)
  {
    if i + |m| <= |head + s| {
      assert (head + s)[i..i + |m|] == s[i - |head|..i - |head| + |m|];
    }
  }

  lemma NoSchemeMark(user: string, host: string, path: string)
    requires IsName(user) && IsName(host) && IsPath(path)
    ensures !Contains(ScpForm(user, host, path), "://")
  {
    var s, head := ScpForm(user, host, path), ScpHead(user, host);
    IndexOfIs(s, "://", 0);
    IndexOfIs(path, "://", 0);
    forall i: nat ensures !At(s, "://", i) {
      if i < |head| {
        MarkChars(s, i);
        assert s[i] == head[i] && s[|head|] == path[0];
      } else {
        AtSuffix(head, path, "://", i);
      }
    }
  }

  lemma HostParts(host: string, path: string)
    requires IsName(host) && path != "" && path[0] != '/' && HasNo(path, IsLineBreak)
    ensures HostColonPath(host + [':'] + path) == Some((host, path))
  {
    var s := host + [':'] + path;
    FindsFirst(host, ':', path);
    assert s[..|host|] == host && s[|host| + 1..] == path;
  }

  lemma ScpParts(user: string, host: string, path: string)
    requires IsName(user) && IsName(host) && path != "" && path[0] != '/' && HasNo(path, IsLineBreak)
    ensures ScpMatch(ScpForm(user, host, path)) == Some((host, path))
  {
    var s, rest := ScpForm(user, host, path), host + [':'] + path;
    assert s == user + ['@'] + rest;
    FindsFirst(user, '@', rest);
    assert s[|user| + 1..] == rest && s[..|user|] == user;
    HostParts(host, path);
  }

  lemma ScpKey(user: string, host: string, path: string, lower: string -> string)
    requires IsName(user) && IsName(host) && IsPath(path)
    ensures Keyed(ScpForm(user, host, path), lower) == lower(host) + "/" + path
  {
    NoSchemeMark(user, host, path);
    ScpParts(user, host, path);
  }

  // ----- the forms with a scheme -----

  lemma SchemeIs(scheme: string, rest: string)
    requires IsScheme(scheme) && rest != "" && HasNo(rest, IsLineBreak)
    ensures ProtoMatch(scheme + "://" + rest) == Some(rest) && Contains(scheme + "://" + rest, "://")
  {
    var s := scheme + "://" + rest;
    var n := SchemeLength(s);
    assert s[|scheme|] == ':';
    assert forall i :: 0 <= i < |scheme| ==> s[i] == scheme[i];
    assert n == |scheme|;
    assert s[n..n + 3] == "://" && s[n + 3..] == rest;
    AppearsAt(s, "://", n);
  }

  lemma UserInfoGoes(userInfo: Option<string>, authority: string, path: string)
    requires Plain(authority) && (userInfo.Some? ==> Plain(userInfo.value))
    ensures StripUserInfo(Prefix(userInfo) + (authority + "/" + path)) == authority + "/" + path
  {
    var tail := authority + "/" + path;
    match userInfo {
      case Some(u) => InfoGoes(u, authority, path);
      case None => assert "" + tail == tail; NoInfoStays(authority, path);
    }
  }

  lemma InfoGoes(u: string, authority: string, path: string)
    requires Plain(u) && Plain(authority)
    ensures StripUserInfo(u + "@" + (authority + "/" + path)) == authority + "/" + path
  {
    var tail := authority + "/" + path;
    var rest := u + ['@'] + tail;
    FindsFirst(u, '@', tail);
    assert rest == (u + ['@'] + authority) + ['/'] + path;
    FindsFirst(u + ['@'] + authority, '/', path);
    assert rest[|u| + 1..] == tail;
  }

  lemma NoInfoStays(authority: string, path: string)
    requires Plain(authority)
    ensures StripUserInfo(authority + "/" + path) == authority + "/" + path
  {
    var tail := authority + ['/'] + path;
    FindsFirst(authority, '/', path);
    IndexOfIs(tail, "@", 0);
    forall i: nat | i <= |authority| ensures !At(tail, "@", i) {
      AtChar(tail, '@', i);
    }
  }

  lemma PortGoes(host: string, port: Option<string>)
    requires IsName(host)
    ensures StripPort(host + Port(port)) == host
  {
    match port {
      case Some(p) =>
        assert host + Port(port) == host + [':'] + p;
        FindsFirst(host, ':', p);
      case None =>
        assert host + "" == host;
        FindsNone(host, ':');
    }
  }

  lemma Splits(host: string, port: Option<string>, path: string, lower: string -> string)
    requires IsName(host) && (port.Some? ==> Plain(port.value))
    ensures HostAndPath((host + Port(port)) + "/" + path, lower) == lower(host) + "/" + path
  {
    var authority, tail := host + Port(port), (host + Port(port)) + "/" + path;
    assert tail == authority + ['/'] + path;
    FindsFirst(authority, '/', path);
    assert tail[..|authority|] == authority && tail[|authority| + 1..] == path;
    PortGoes(host, port);
  }

  lemma ProtoKey(scheme: string, userInfo: Option<string>, host: string, port: Option<string>, path: string,
                 lower: string -> string)
    requires IsScheme(scheme) && IsName(host) && HasNo(path, IsLineBreak)
    requires (userInfo.Some? ==> Plain(userInfo.value)) && (port.Some? ==> Plain(port.value))
    ensures Keyed(ProtoForm(scheme, userInfo, host, port, path), lower) == lower(host) + "/" + path
  {
    var s := ProtoForm(scheme, userInfo, host, port, path);
    var rest := ProtoRest(scheme, userInfo, host, port, path);
    SchemeIs(scheme, rest);
    KeyedByScheme(s, rest, lower);
    UserInfoGoes(userInfo, host + Port(port), path);
    Splits(host, port, path, lower);
  }

  lemma ProtoRest(scheme: string, userInfo: Option<string>, host: string, port: Option<string>, path: string)
    returns (rest: string)
    requires IsName(host) && HasNo(path, IsLineBreak)
    requires (userInfo.Some? ==> Plain(userInfo.value)) && (port.Some? ==> Plain(port.value))
    ensures rest == Prefix(userInfo) + ((host + Port(port)) + "/" + path)
    ensures ProtoForm(scheme, userInfo, host, port, path) == scheme + "://" + rest
    ensures rest != "" && HasNo(rest, IsLineBreak)
    ensures Plain(host + Port(port))
  {
    var u, a := Prefix(userInfo), host + Port(port);
    rest := u + (a + "/" + path);
    Regroups(scheme + "://", u, a, "/", path);
    assert HasNo(u, IsLineBreak) && HasNo(a, IsLineBreak);
    assert |rest| == |u| + |a| + 1 + |path|;
  }

  lemma Regroups(a: string, b: string, c: string, d: string, e: string)
    ensures (a + b + c + d) + e == a + (b + (c + d + e))
  {
  }

  lemma KeyedByScheme(s: string, rest: string, lower: string -> string)
    requires ProtoMatch(s) == Some(rest) && Contains(s, "://")
    ensures Keyed(s, lower) == HostAndPath(StripUserInfo(rest), lower)
  {
  }

  // ----- trimming and the suffix -----

  // What normalising keeps of the text after the host.
  function Kept(text: string): string { StripGit(TrimEnd(text)) }

  lemma {:induction false} TrimEndAfter(head: string, text: string)
    requires head != "" && !IsSpace(head[|head| - 1])
    ensures TrimEnd(head + text) == head + TrimEnd(text)
  {
    if text == "" {
      assert head + "" == head;
    } else if IsSpace(text[|text| - 1]) {
      assert (head + text)[..|head + text| - 1] == head + text[..|text| - 1];
      TrimEndAfter(head, text[..|text| - 1]);
    }
  }

  lemma StripGitAfter(head: string, text: string)
    requires head != "" && head[|head| - 1] in {':', '/'}
    ensures StripGit(head + text) == head + StripGit(text)
  {
    EndingStays(head, text);
    if EndsWithGit(text) {
      TakeBehind(head, text, |text| - 4);
    }
  }

  lemma TakeBehind(head: string, text: string, n: nat)
    requires n <= |text|
    ensures (head + text)[..|head| + n] == head + text[..n]
  {
  }

  lemma EndingStays(head: string, text: string)
    requires head != "" && head[|head| - 1] in {':', '/'}
    ensures EndsWithGit(head + text) <==> EndsWithGit(text)
  {
    var u := head + text;
    if |text| >= 4 {
      assert u[|u| - 1] == text[|text| - 1] && u[|u| - 2] == text[|text| - 2];
      assert u[|u| - 3] == text[|text| - 3] && u[|u| - 4] == text[|text| - 4];
    } else {
      var stop := u[|u| - |text| - 1];
      assert stop == head[|head| - 1];
      assert stop !in ".gGiItT";
    }
  }

  // A head that starts with a visible character and ends in ':' or '/' is out of reach of both.
  lemma HeadStays(head: string, text: string)
    requires head != "" && !IsSpace(head[0]) && head[|head| - 1] in {':', '/'}
    ensures StripGit(Trim(head + text)) == head + Kept(text) && Trim(head + text) != ""
  {
    assert (head + text)[0] == head[0];
    assert TrimStart(head + text) == head + text;
    TrimEndAfter(head, text);
    StripGitAfter(head, TrimEnd(text));
  }

  lemma ScpNormalizes(user: string, host: string, text: string, lower: string -> string)
    requires IsName(user) && IsName(host) && IsPath(Kept(text))
    ensures NormalizeRemoteUrl(ScpForm(user, host, text), lower) == Some(lower(host) + "/" + Kept(text))
  {
    HeadStays(ScpHead(user, host), text);
    ScpKey(user, host, Kept(text), lower);
  }

  lemma ProtoNormalizes(scheme: string, userInfo: Option<string>, host: string, port: Option<string>, text: string,
                        lower: string -> string)
    requires IsScheme(scheme) && IsName(host) && HasNo(Kept(text), IsLineBreak)
    requires (userInfo.Some? ==> Plain(userInfo.value)) && (port.Some? ==> Plain(port.value))
    ensures NormalizeRemoteUrl(ProtoForm(scheme, userInfo, host, port, text), lower) ==
        Some(lower(host) + "/" + Kept(text))
  {
    HeadStays(ProtoHead(scheme, userInfo, host, port), text);
    ProtoKey(scheme, userInfo, host, port, Kept(text), lower);
  }

  function HttpsForm(host: string, text: string): string { ProtoForm("https", None, host, None, text) }

  function SshForm(user: string, host: string, port: string, text: string): string {
    ProtoForm("ssh", Some(user), host, Some(port), text)
  }

  lemma HttpsNormalizes(host: string, text: string, lower: string -> string)
    requires IsName(host) && HasNo(Kept(text), IsLineBreak)
    ensures NormalizeRemoteUrl(HttpsForm(host, text), lower) == Some(lower(host) + "/" + Kept(text))
  {
    ProtoNormalizes("https", None, host, None, text, lower);
  }

  lemma SshNormalizes(user: string, host: string, port: string, text: string, lower: string -> string)
    requires IsName(user) && IsName(host) && Plain(port) && HasNo(Kept(text), IsLineBreak)
    ensures NormalizeRemoteUrl(SshForm(user, host, port, text), lower) == Some(lower(host) + "/" + Kept(text))
  {
    ProtoNormalizes("ssh", Some(user), host, Some(port), text, lower);
  }

  // ----- agreement -----

  // The scp form, the https form and the ssh form with user and port all give this key.
  predicate AllGive(user: string, host: string, port: string, text: string, lower: string -> string, key: string) {
    && NormalizeRemoteUrl(ScpForm(user, host, text), lower) == Some(key)
    && NormalizeRemoteUrl(HttpsForm(host, text), lower) == Some(key)
    && NormalizeRemoteUrl(SshForm(user, host, port, text), lower) == Some(key)
  }

  predicate IsGit(suffix: string) { |suffix| == 4 && EndsWithGit(suffix) }

  // A .git suffix, in any case, is all that is taken off.
  lemma SuffixGoes(path: string, suffix: string)
    requires IsGit(suffix)
    ensures Kept(path + suffix) == path
  {
    var s := path + suffix;
    assert s[|s| - 1] == suffix[3] && s[|s| - 2] == suffix[2] && s[|s| - 3] == suffix[1] && s[|s| - 4] == suffix[0];
    assert s[..|s| - 4] == path;
  }

  // A path that neither ends in .git itself nor in white space.
  predicate StandsBare(path: string) {
    path == "" || (!EndsWithGit(path) && !IsSpace(path[|path| - 1]))
  }

  lemma BarePathKept(path: string)
    ensures Kept(path) == path <==> StandsBare(path)
  {
    var t := TrimEnd(path);
    assert |Kept(path)| <= |t| <= |path|;
  }

  // What is kept of a path is a path, unless it is nothing.
  lemma KeptIsPath(path: string)
    requires IsPath(path)
    ensures HasNo(Kept(path), IsLineBreak) && (Kept(path) != "" ==> IsPath(Kept(path)))
  {
    var k, t := Kept(path), TrimEnd(path);
    var gone := TrimEndIs(path);
    assert k == t[..|k|] == path[..|k|];
    assert k + path[|k|..] == path;
    if Contains(k, "://") {
      FindExtends(k, path[|k|..], "://", 0);
    }
  }

  // However the repository is written, what is kept of its path decides the key: the three forms
  // agree with one another.
  lemma FormsAgree(user: string, host: string, port: string, text: string, lower: string -> string)
    requires IsName(user) && IsName(host) && Plain(port) && IsPath(Kept(text))
    ensures AllGive(user, host, port, text, lower, lower(host) + "/" + Kept(text))
  {
    ScpNormalizes(user, host, text, lower);
    HttpsNormalizes(host, text, lower);
    SshNormalizes(user, host, port, text, lower);
  }

  // With .git, in any case, that key is lower(host)/path, path case kept.
  lemma SuffixedFormsAgree(user: string, host: string, port: string, path: string, suffix: string,
                           lower: string -> string)
    requires IsName(user) && IsName(host) && Plain(port) && IsPath(path) && IsGit(suffix)
    ensures AllGive(user, host, port, path + suffix, lower, lower(host) + "/" + path)
  {
    SuffixGoes(path, suffix);
    FormsAgree(user, host, port, path + suffix, lower);
  }

  // Without it, exactly when the path stands bare.
  lemma BareFormsAgree(user: string, host: string, port: string, path: string, lower: string -> string)
    requires IsName(user) && IsName(host) && Plain(port) && IsPath(path)
    ensures AllGive(user, host, port, path, lower, lower(host) + "/" + path) <==> StandsBare(path)
  {
    BarePathKept(path);
    KeptIsPath(path);
    if StandsBare(path) {
      FormsAgree(user, host, port, path, lower);
    } else {
      HttpsNormalizes(host, path, lower);
      assert |lower(host) + "/" + Kept(path)| != |lower(host) + "/" + path|;
    }
  }

  lemma HeadHasNoPath(user: string, host: string)
    requires IsName(user) && IsName(host)
    ensures ScpMatch(ScpHead(user, host)).None?
  {
    var s := ScpHead(user, host);
    assert s == user + ['@'] + (host + [':']);
    FindsFirst(user, '@', host + [':']);
    assert s[|user| + 1..] == host + [':'] + "";
    FindsFirst(host, ':', "");
  }

  lemma HeadHasNoScheme(user: string, host: string)
    requires IsName(user) && IsName(host)
    ensures ProtoMatch(ScpHead(user, host)).None?
  {
    var s := ScpHead(user, host);
    var n := SchemeLength(s);
    MarkChars(s, n);
  }

  // The forms part ways only when nothing of the path is kept: the scheme keeps its slash.
  lemma EmptyPathsDisagree(user: string, host: string, text: string, lower: string -> string)
    requires IsName(user) && IsName(host) && Kept(text) == "" && '/' !in lower(ScpHead(user, host))
    ensures NormalizeRemoteUrl(ScpForm(user, host, text), lower) != NormalizeRemoteUrl(HttpsForm(host, text), lower)
  {
    HttpsNormalizes(host, text, lower);
    HeadStays(ScpHead(user, host), text);
    HeadHasNoPath(user, host);
    HeadHasNoScheme(user, host);
    assert ScpHead(user, host) + "" == ScpHead(user, host);
    var key := lower(host) + "/" + "";
    assert key[|lower(host)|] == '/';
  }

  // ----- everything else -----

  lemma {:induction false} LeadingSpaceGoes(space: string, s: string)
    requires forall i :: 0 <= i < |space| ==> IsSpace(space[i])
    ensures TrimStart(space + s) == TrimStart(s)
  {
    if space == "" {
      assert "" + s == s;
    } else {
      assert (space + s)[1..] == space[1..] + s;
      LeadingSpaceGoes(space[1..], s);
    }
  }

  // White space around a URL is ignored, and a URL of nothing else has no key.
  lemma SpaceAroundIsIgnored(before: string, url: string, after: string, lower: string -> string)
    requires forall i :: 0 <= i < |before| ==> IsSpace(before[i])
    requires forall i :: 0 <= i < |after| ==> IsSpace(after[i])
    requires url != "" ==> !IsSpace(url[0]) && !IsSpace(url[|url| - 1])
    ensures NormalizeRemoteUrl(before + (url + after), lower) == NormalizeRemoteUrl(url, lower)
    ensures NormalizeRemoteUrl(before + (url + after), lower) == None <==> url == ""
  {
    LeadingSpaceGoes(before, url + after);
    if url == "" {
      assert "" + after == after;
      LeadingSpaceGoes(after, "");
      assert after + "" == after;
    } else {
      assert (url + after)[0] == url[0];
      TrimEndAfter(url, after);
      TrimEndAllSpace(after);
      assert url + "" == url;
    }
  }

  lemma {:induction false} TrimEndAllSpace(s: string)
    requires forall i :: 0 <= i < |s| ==> IsSpace(s[i])
    ensures TrimEnd(s) == ""
  {
    if s != "" {
      TrimEndAllSpace(s[..|s| - 1]);
    }
  }

  // A text without a colon is of neither form: it is lowered as a whole, without its .git.
  lemma OtherTextIsLowered(path: string, suffix: string, lower: string -> string)
    requires ':' !in path && path != "" && !IsSpace(path[0]) && !IsSpace(path[|path| - 1])
    requires suffix == "" || IsGit(suffix)
    ensures NormalizeRemoteUrl(path + suffix, lower) ==
        Some(lower(if suffix == "" && EndsWithGit(path) then path[..|path| - 4] else path))
  {
    var s := path + suffix;
    assert s[0] == path[0] && !IsSpace(s[|s| - 1]);
    TrimNothing(s);
    if suffix == "" {
      assert s == path;
    } else {
      SuffixGoes(path, suffix);
    }
    NoColonNoForm(StripGit(s));
  }

  lemma NoColonNoForm(s: string)
    requires ':' !in s
    ensures ScpMatch(s).None? && ProtoMatch(s).None?
  {
    var at := IndexOf(s, "@", 0);
    if at.Some? {
      FindsNone(s[at.value + 1..], ':');
    }
    MarkChars(s, SchemeLength(s));
  }

  // A scheme and a host without a path: the whole rest is lowered, port included.
  lemma NoPathIsLowered(scheme: string, userInfo: Option<string>, authority: string, lower: string -> string)
    requires IsScheme(scheme) && Plain(authority) && authority != "" && (userInfo.Some? ==> Plain(userInfo.value))
    ensures Keyed(scheme + "://" + (Prefix(userInfo) + authority), lower) == lower(authority)
  {
    var rest := Prefix(userInfo) + authority;
    SchemeIs(scheme, rest);
    KeyedByScheme(scheme + "://" + rest, rest, lower);
    LoneHost(userInfo, authority);
    FindsNone(authority, '/');
  }

  lemma LoneHost(userInfo: Option<string>, authority: string)
    requires Plain(authority) && (userInfo.Some? ==> Plain(userInfo.value))
    ensures StripUserInfo(Prefix(userInfo) + authority) == authority
  {
    var rest := Prefix(userInfo) + authority;
    FindsNone(rest, '/');
    match userInfo {
      case Some(u) =>
        assert rest == u + ['@'] + authority;
        FindsFirst(u, '@', authority);
        assert rest[|u| + 1..] == authority;
      case None =>
        assert rest == authority;
        FindsNone(rest, '@');
    }
  }
}
