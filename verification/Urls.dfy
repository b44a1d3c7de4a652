/** Canonical URLs: the join key of web externals. */
module Urls {
  import opened Text
  import opened Query
  import D = Decimal

  /** What the source calls but this model takes as given: which texts `ipaddress` reads as an
      IPv6 address, and which parameter names the blocklist matches. */
  datatype Rules = Rules(isIp: string -> bool, tracking: string -> bool)

  /** A URL with a host, which stands in brackets or does not. */
  datatype Url = Url(scheme: string, userinfo: Option<string>, host: string, bracketed: bool, port: Option<string>,
                     path: string, query: Option<string>, fragment: Option<string>)

  const DELIMS := {'/', '?', '#'}
  const UNSAFE := {'\t', '\r', '\n'}
  const BRACKETS := {'[', ']'}

  // ---------------------------------------------------------------- blocklist

  function LowerChar(c: char): char {
    if 'A' <= c <= 'Z' then c - 'A' + 'a' else c
  }

  /** `str.lower()`, on ASCII letters. */
  function Lower(s: string): (r: string)
    ensures |r| == |s|
  {
    seq(|s|, i requires 0 <= i < |s| => LowerChar(s[i]))
  }

  predicate MatchesEntry(name: string, entry: string) {
    if entry != "" && entry[|entry| - 1] == '*' then Lower(entry[..|entry| - 1]) <= Lower(name)
    else Lower(name) == Lower(entry)
  }

  predicate IsTrackingParam(name: string, blocklist: seq<string>) {
    exists entry :: entry in blocklist && MatchesEntry(name, entry)
  }

  // ---------------------------------------------------------------- reading: urlsplit

  function LStripControls(s: string): string {
    if s != "" && s[0] <= ' ' then LStripControls(s[1..]) else s
  }

  function RemoveUnsafe(s: string): string {
    if s == "" then "" else (if s[0] in UNSAFE then "" else [s[0]]) + RemoveUnsafe(s[1..])
  }

  function Clean(s: string): string {
    RemoveUnsafe(LStripControls(Strip(s)))
  }

  predicate IsAlpha(c: char) {
    'a' <= c <= 'z' || 'A' <= c <= 'Z'
  }

  predicate IsSchemeChar(c: char) {
    IsAlpha(c) || IsDigit(c) || c in {'+', '-', '.'}
  }

  predicate AllSchemeChars(s: string) {
    forall i :: 0 <= i < |s| ==> IsSchemeChar(s[i])
  }

  function SplitScheme(s: string): (string, string) {
    var k := Cut(s, {':'});
    if 0 < k < |s| && IsAlpha(s[0]) && AllSchemeChars(s[..k]) then (Lower(s[..k]), s[k + 1..]) else ("", s)
  }

  function SplitNetloc(t: string): (string, string) {
    if |t| >= 2 && t[0] == '/' && t[1] == '/' then
      var k := Cut(t[2..], DELIMS);
      (t[2..][..k], t[2..][k..])
    else ("", t)
  }

  /** The path and the query; the fragment is dropped. */
  function SplitTail(t: string): (string, string) {
    var f := t[..Cut(t, {'#'})];
    var k := Cut(f, {'?'});
    (f[..k], After(f, k))
  }

  /** `s.rpartition("@")[2]` */
  function AfterLastAt(s: string): string
    decreases |s|
  {
    var k := Cut(s, {'@'});
    if k == |s| then s else AfterLastAt(s[k + 1..])
  }

  function HexRun(s: string, i: nat): (j: nat)
    requires i <= |s|
    ensures i <= j <= |s|
    decreases |s| - i
  {
    if i < |s| && HexValue(s[i]).Some? then HexRun(s, i + 1) else i
  }

  /** `\Av[a-fA-F0-9]+\..+\z` */
  predicate IsFutureAddress(h: string) {
    && h != "" && h[0] == 'v'
    && var k := HexRun(h, 1); 1 < k && k + 1 < |h| && h[k] == '.' && Avoids(h[k + 1..], {'\n'})
  }

  predicate BracketedHostOk(h: string, r: Rules) {
    if h != "" && h[0] == 'v' then IsFutureAddress(h) else r.isIp(h)
  }

  predicate BracketsOk(netloc: string, r: Rules) {
    if ('[' in netloc) != (']' in netloc) then false
    else if '[' !in netloc then true
    else
      var info := AfterLastAt(netloc);
      var b := Cut(info, {'['});
      if b < |info| then
        var e := Cut(info[b + 1..], {']'});
        var port := After(info[b + 1..], e);
        b == 0 && (port == "" || port[0] == ':') && BracketedHostOk(info[b + 1..][..e], r)
      else BracketedHostOk(info[..Cut(info, {':'})], r)
  }

  /** The host without brackets, and the text of the port. */
  function HostInfo(netloc: string): (string, string) {
    var info := AfterLastAt(netloc);
    var b := Cut(info, {'['});
    if b < |info| then
      var e := Cut(info[b + 1..], {']'});
      var after := After(info[b + 1..], e);
      (info[b + 1..][..e], After(after, Cut(after, {':'})))
    else
      var c := Cut(info, {':'});
      (info[..c], After(info, c))
  }

  predicate AllDigits(s: string) {
    forall i :: 0 <= i < |s| ==> IsDigit(s[i])
  }

  predicate PortOk(port: string) {
    port == "" || (AllDigits(port) && D.ParseDigits(port).Some? && D.ParseDigits(port).value <= 65535)
  }

  function PortValue(port: string): Option<nat> {
    if port == "" then None else D.ParseDigits(port)
  }

  // ---------------------------------------------------------------- printing: urlunsplit

  function Prefix(scheme: string): string {
    if scheme == "" then "//" else scheme + "://"
  }

  function HostText(host: string, bracketed: bool): string {
    if bracketed then "[" + (host + "]") else host
  }

  function PortPart(port: Option<string>): string {
    if port.Some? then ":" + port.value else ""
  }

  function QueryText(u: Url): string {
    if u.query.Some? then u.query.value else ""
  }

  function PortText(u: Url): string {
    if u.port.Some? then u.port.value else ""
  }

  function HostPort(u: Url): string {
    HostText(u.host, u.bracketed) + PortPart(u.port)
  }

  function Netloc(u: Url): string {
    if u.userinfo.Some? then u.userinfo.value + ("@" + HostPort(u)) else HostPort(u)
  }

  function FragmentPart(u: Url): string {
    if u.fragment.Some? then "#" + u.fragment.value else ""
  }

  function QueryPart(u: Url): string {
    if u.query.Some? then "?" + u.query.value else ""
  }

  function Tail(u: Url): string {
    (u.path + QueryPart(u)) + FragmentPart(u)
  }

  function Spell(u: Url): string {
    Prefix(u.scheme) + (Netloc(u) + Tail(u))
  }

  // ---------------------------------------------------------------- canonical form

  function DefaultPort(scheme: string): Option<nat> {
    if scheme == "http" then Some(80) else if scheme == "https" then Some(443) else None
  }

  function CanonicalPort(scheme: string, port: Option<nat>): Option<string> {
    if port.None? || port == DefaultPort(scheme) then None else Some(D.Print(port.value))
  }

  function RStripSlashes(p: string): string {
    if p != "" && p[|p| - 1] == '/' then RStripSlashes(p[..|p| - 1]) else p
  }

  function CanonicalPath(path: string): string {
    if path == "" || path == "/" then "/"
    else if path[|path| - 1] == '/' then
      var p := RStripSlashes(path);
      if p == "" then "/" else p
    else path
  }

  /** The canonical URL of one read as these parts. */
  function CanonicalOf(scheme: string, host: string, port: string, path: string, query: string, r: Rules): Url {
    var q := CanonicalQuery(query, r.tracking);
    Url(Lower(scheme), None, Lower(host), ':' in Lower(host),
        CanonicalPort(Lower(scheme), PortValue(port)), CanonicalPath(path),
        if q == "" then None else Some(q), None)
  }

  /** ValueError, a text without a host (which this model leaves out), or the canonical URL. */
  datatype Outcome = Malformed | NoHost | Ok(url: Url)

  /** The canonical URL of cleaned text. */
  function CanonicalOfText(t: string, r: Rules): Outcome {
    var (scheme, rest) := SplitScheme(t);
    var (netloc, tail) := SplitNetloc(rest);
    var (path, query) := SplitTail(tail);
    var (host, port) := HostInfo(netloc);
    if !BracketsOk(netloc, r) || !PortOk(port) then Malformed
    else if host == "" then NoHost
    else Ok(CanonicalOf(scheme, host, port, path, query, r))
  }

  datatype Result = Error | HostMissing | Text(text: string)

  function Canonicalize(s: string, r: Rules): Result {
    match CanonicalOfText(Clean(s), r)
    case Malformed => Error
    case NoHost => HostMissing
    case Ok(u) => Text(Spell(u))
  }

  // ---------------------------------------------------------------- well-formed URLs

  predicate SchemeOk(s: string) {
    s == "" || (IsAlpha(s[0]) && AllSchemeChars(s))
  }

  predicate HostOk(h: string) {
    && h != "" && Avoids(h, DELIMS + UNSAFE + {'@'})
    && if ':' in h then ']' !in h else '[' !in h || ']' !in h
  }

  predicate PathOk(p: string) {
    Avoids(p, {'?', '#'} + UNSAFE) && (p != "" ==> p[0] == '/')
  }

  /** Everything but what the brackets and the end of the text need. */
  predicate Shaped(u: Url) {
    && SchemeOk(u.scheme) && HostOk(u.host) && PathOk(u.path)
    && (if u.bracketed then ']' !in u.host else ':' !in u.host)
    && (u.userinfo.Some? ==> Avoids(u.userinfo.value, DELIMS + UNSAFE + BRACKETS))
    && (u.port.Some? ==> PortOk(u.port.value))
    && (u.query.Some? ==> Avoids(u.query.value, {'#'} + UNSAFE))
    && (u.fragment.Some? ==> Avoids(u.fragment.value, UNSAFE))
  }

  predicate BracketsFit(u: Url, r: Rules) {
    if u.bracketed then BracketedHostOk(u.host, r) else Avoids(u.host, BRACKETS)
  }

  predicate EndsVisible(s: string) {
    s != "" && !IsSpace(s[|s| - 1])
  }

  predicate Typed(u: Url, r: Rules) {
    Shaped(u) && BracketsFit(u, r) && EndsVisible(Spell(u))
  }

  // ---------------------------------------------------------------- reading what was printed

  lemma AvoidsConcat(a: string, b: string, stops: set<char>)
    ensures Avoids(a + b, stops) <==> Avoids(a, stops) && Avoids(b, stops)
  {
    assert forall i :: 0 <= i < |a| ==> (a + b)[i] == a[i];
    assert forall i :: 0 <= i < |b| ==> (a + b)[|a| + i] == b[i];
  }

  lemma {:induction false} AfterUserinfo(x: string, rest: string)
    requires Avoids(rest, {'@'})
    ensures AfterLastAt(rest) == rest && AfterLastAt(x + ("@" + rest)) == rest
    decreases |x|
  {
    var k := Cut(x, {'@'});
    if k == |x| {
      CutAt(x, "@" + rest, {'@'});
      assert (x + ("@" + rest))[|x| + 1..] == rest;
    } else {
      CutInFirst(x, "@" + rest, {'@'});
      AfterUserinfo(x[k + 1..], rest);
    }
  }

  lemma SchemeOfPrefix(scheme: string, rest: string)
    requires SchemeOk(scheme)
    ensures SplitScheme(Prefix(scheme) + rest) == (Lower(scheme), "//" + rest)
  {
    var s := Prefix(scheme) + rest;
    if scheme == "" {
      assert s[0] == '/';
    } else {
      assert s == scheme + ("://" + rest);
      CutAt(scheme, "://" + rest, {':'});
      assert ("://" + rest)[1..] == "//" + rest;
    }
  }

  lemma NetlocOfRest(netloc: string, tail: string)
    requires Avoids(netloc, DELIMS) && (tail == "" || tail[0] in DELIMS)
    ensures SplitNetloc("//" + (netloc + tail)) == (netloc, tail)
  {
    assert ("//" + (netloc + tail))[2..] == netloc + tail;
    CutAt(netloc, tail, DELIMS);
  }

  lemma TailOf(u: Url)
    requires Shaped(u)
    ensures SplitTail(Tail(u)) == (u.path, QueryText(u))
  {
    AvoidsConcat(u.path, QueryPart(u), {'#'});
    if u.query.Some? { AvoidsConcat("?", u.query.value, {'#'}); }
    CutAt(u.path + QueryPart(u), FragmentPart(u), {'#'});
    CutAt(u.path, QueryPart(u), {'?'});
    if u.query.Some? { assert QueryPart(u)[1..] == u.query.value; }
  }

  lemma HostPortAvoids(u: Url)
    requires Shaped(u)
    ensures Avoids(HostPort(u), DELIMS + UNSAFE + {'@'}) && Avoids(PortPart(u.port), BRACKETS)
    ensures Avoids(Netloc(u), DELIMS + UNSAFE)
  {
    var stops := DELIMS + UNSAFE + {'@'};
    AvoidsConcat(u.host, "]", stops);
    AvoidsConcat("[", u.host + "]", stops);
    if u.port.Some? { AvoidsConcat(":", u.port.value, stops); }
    AvoidsConcat(HostText(u.host, u.bracketed), PortPart(u.port), stops);
    if u.userinfo.Some? {
      AvoidsConcat(u.userinfo.value, "@" + HostPort(u), DELIMS + UNSAFE);
      AvoidsConcat("@", HostPort(u), DELIMS + UNSAFE);
    }
  }

  lemma InfoOf(u: Url)
    requires Shaped(u)
    ensures AfterLastAt(Netloc(u)) == HostPort(u)
  {
    HostPortAvoids(u);
    AfterUserinfo(if u.userinfo.Some? then u.userinfo.value else "", HostPort(u));
  }

  lemma BracketedInfo(host: string, port: Option<string>)
    requires ']' !in host
    ensures var info := HostText(host, true) + PortPart(port);
            && info != "" && Cut(info, {'['}) == 0
            && Cut(info[1..], {']'}) == |host| && info[1..][..|host|] == host
            && After(info[1..], |host|) == PortPart(port)
  {
    var part := PortPart(port);
    var inner := host + ("]" + part);
    ConcatAssociates("[", host + "]", part);
    ConcatAssociates(host, "]", part);
    assert ("[" + inner)[1..] == inner && ("[" + inner)[0] == '[';
    CutAt(host, "]" + part, {']'});
    assert ("]" + part)[1..] == part;
  }

  lemma PlainInfo(host: string, port: Option<string>)
    requires ':' !in host && Avoids(PortPart(port), BRACKETS)
    ensures var info := HostText(host, false) + PortPart(port);
            && ('[' !in host ==> Cut(info, {'['}) == |info|)
            && Cut(info, {':'}) == |host| && info[..|host|] == host
            && After(info, |host|) == if port.Some? then port.value else ""
  {
    var info := HostText(host, false) + PortPart(port);
    CutAt(host, PortPart(port), {':'});
    if '[' !in host {
      AvoidsConcat(host, PortPart(port), {'['});
      CutAt(info, "", {'['});
      EmptyIsUnit(info);
    }
  }

  lemma PortOfPart(port: Option<string>)
    ensures var p := PortPart(port); After(p, Cut(p, {':'})) == if port.Some? then port.value else ""
  {
    if port.Some? { CutAt("", ":" + port.value, {':'}); }
  }

  /** Printed hosts are read back. */
  lemma HostOfNetloc(u: Url)
    requires Shaped(u) && (u.bracketed || '[' !in u.host)
    ensures HostInfo(Netloc(u)) == (u.host, PortText(u))
  {
    InfoOf(u);
    HostPortAvoids(u);
    if u.bracketed {
      BracketedInfo(u.host, u.port);
      PortOfPart(u.port);
    } else {
      PlainInfo(u.host, u.port);
    }
  }

  lemma HasBracket(a: string, b: string, c: char)
    ensures c in a + b <==> c in a || c in b
  {
  }

  lemma BracketsOfNetloc(u: Url, c: char)
    requires Shaped(u) && c in BRACKETS
    ensures c in Netloc(u) <==> u.bracketed || c in u.host
  {
    HostPortAvoids(u);
    HasBracket(u.host, "]", c);
    HasBracket("[", u.host + "]", c);
    HasBracket(HostText(u.host, u.bracketed), PortPart(u.port), c);
    if u.userinfo.Some? {
      HasBracket(u.userinfo.value, "@" + HostPort(u), c);
      HasBracket("@", HostPort(u), c);
    }
  }

  lemma PlainCheck(host: string, netloc: string, r: Rules)
    requires '[' !in host || ']' !in host
    requires ('[' in netloc <==> '[' in host) && (']' in netloc <==> ']' in host)
    ensures BracketsOk(netloc, r) <==> Avoids(host, BRACKETS)
  {
  }

  lemma BracketsAround(netloc: string, info: string, host: string, part: string, r: Rules)
    requires info == AfterLastAt(netloc) && '[' in netloc && ']' in netloc
    requires info != "" && Cut(info, {'['}) == 0 && Cut(info[1..], {']'}) == |host| && info[1..][..|host|] == host
    requires After(info[1..], |host|) == part && (part == "" || part[0] == ':')
    ensures BracketsOk(netloc, r) <==> BracketedHostOk(host, r)
  {
  }

  lemma BracketedCheck(host: string, port: Option<string>, netloc: string, r: Rules)
    requires ']' !in host && '[' in netloc && ']' in netloc
    requires AfterLastAt(netloc) == HostText(host, true) + PortPart(port)
    ensures BracketsOk(netloc, r) <==> BracketedHostOk(host, r)
  {
    BracketedInfo(host, port);
    BracketsAround(netloc, HostText(host, true) + PortPart(port), host, PortPart(port), r);
  }

  /** The bracket check passes exactly when the host is one that its spelling may bracket. */
  lemma BracketsOkIffFit(u: Url, r: Rules)
    requires Shaped(u)
    ensures BracketsOk(Netloc(u), r) <==> BracketsFit(u, r)
  {
    BracketsOfNetloc(u, '[');
    BracketsOfNetloc(u, ']');
    if u.bracketed {
      InfoOf(u);
      BracketedCheck(u.host, u.port, Netloc(u), r);
    } else {
      PlainCheck(u.host, Netloc(u), r);
    }
  }

  lemma SplitOfSpelled(u: Url)
    requires Shaped(u)
    ensures SplitScheme(Spell(u)) == (Lower(u.scheme), "//" + (Netloc(u) + Tail(u)))
    ensures SplitNetloc("//" + (Netloc(u) + Tail(u))) == (Netloc(u), Tail(u))
    ensures SplitTail(Tail(u)) == (u.path, QueryText(u))
  {
    SchemeOfPrefix(u.scheme, Netloc(u) + Tail(u));
    HostPortAvoids(u);
    NetlocOfRest(Netloc(u), Tail(u));
    TailOf(u);
  }

  /** The canonical form of a URL. */
  function Norm(u: Url, r: Rules): Url {
    CanonicalOf(Lower(u.scheme), u.host, PortText(u), u.path, QueryText(u), r)
  }

  lemma TextOfSpelled(u: Url, r: Rules)
    requires Shaped(u)
    ensures CanonicalOfText(Spell(u), r) == if BracketsFit(u, r) then Ok(Norm(u, r)) else Malformed
  {
    SplitOfSpelled(u);
    BracketsOkIffFit(u, r);
    if BracketsFit(u, r) { HostOfNetloc(u); }
  }

  // ---------------------------------------------------------------- cleaning

  lemma {:induction false} RemoveRemoves(s: string)
    ensures Avoids(RemoveUnsafe(s), UNSAFE)
  {
    if s != "" { RemoveRemoves(s[1..]); }
  }

  lemma {:induction false} NothingToRemove(s: string)
    requires Avoids(s, UNSAFE)
    ensures RemoveUnsafe(s) == s
  {
    if s != "" { NothingToRemove(s[1..]); }
  }

  predicate StartsVisible(s: string) {
    s != "" && s[0] > ' ' && !IsSpace(s[0])
  }

  lemma CleanKeeps(s: string)
    requires StartsVisible(s) && EndsVisible(s) && Avoids(s, UNSAFE)
    ensures Clean(s) == s
  {
    NothingToRemove(s);
  }

  lemma TailIsSafe(u: Url)
    requires Shaped(u)
    ensures Avoids(Tail(u), UNSAFE)
  {
    if u.query.Some? { AvoidsConcat("?", u.query.value, UNSAFE); }
    if u.fragment.Some? { AvoidsConcat("#", u.fragment.value, UNSAFE); }
    AvoidsConcat(u.path, QueryPart(u), UNSAFE);
    AvoidsConcat(u.path + QueryPart(u), FragmentPart(u), UNSAFE);
  }

  lemma PrefixIsSafe(scheme: string)
    requires SchemeOk(scheme)
    ensures Avoids(Prefix(scheme), UNSAFE) && StartsVisible(Prefix(scheme))
  {
    AvoidsConcat(scheme, "://", UNSAFE);
  }

  lemma SpelledIsSafe(u: Url)
    requires Shaped(u)
    ensures Avoids(Spell(u), UNSAFE) && StartsVisible(Spell(u))
  {
    HostPortAvoids(u);
    TailIsSafe(u);
    PrefixIsSafe(u.scheme);
    AvoidsConcat(Netloc(u), Tail(u), UNSAFE);
    AvoidsConcat(Prefix(u.scheme), Netloc(u) + Tail(u), UNSAFE);
  }

  /** The canonical form of a well-formed URL, in terms of its components. */
  lemma CanonicalOfTyped(u: Url, r: Rules)
    requires Typed(u, r)
    ensures CanonicalOfText(Clean(Spell(u)), r) == Ok(Norm(u, r))
    ensures Canonicalize(Spell(u), r) == Text(Spell(Norm(u, r)))
  {
    SpelledIsSafe(u);
    CleanKeeps(Spell(u));
    TextOfSpelled(u, r);
  }

  // ---------------------------------------------------------------- canonical URLs

  /** What every canonical URL is. */
  predicate IsCanonical(n: Url, r: Rules) {
    && Shaped(n) && Norm(n, r) == n
    && n.path != "" && (n.query.Some? ==> EndsVisible(n.query.value)) && (n.port.Some? ==> n.port.value != "")
  }

  lemma LowerKeeps(s: string, stops: set<char>)
    requires forall c :: c in stops ==> !IsAlpha(c)
    ensures Lower(Lower(s)) == Lower(s)
    ensures Avoids(Lower(s), stops) <==> Avoids(s, stops)
    ensures forall c :: c in stops ==> (c in Lower(s) <==> c in s)
  {
    forall i | 0 <= i < |s|
      ensures LowerChar(LowerChar(s[i])) == LowerChar(s[i])
      ensures forall c :: c in stops ==> (LowerChar(s[i]) == c <==> s[i] == c)
    {
    }
    forall c | c in stops ensures c in Lower(s) <==> c in s {
      if c in s { var i :| 0 <= i < |s| && s[i] == c; assert Lower(s)[i] == c; }
      if c in Lower(s) { var i :| 0 <= i < |s| && Lower(s)[i] == c; assert s[i] == c; }
    }
    forall i | 0 <= i < |s| ensures Lower(s)[i] in stops <==> s[i] in stops {
    }
  }

  /** Remark: the blocklist does not look at letter case. */
  lemma BlocklistIgnoresCase(name: string, blocklist: seq<string>)
    ensures IsTrackingParam(Lower(name), blocklist) <==> IsTrackingParam(name, blocklist)
  {
    LowerKeeps(name, {});
  }

  lemma {:induction false} StripSlashes(p: string)
    ensures var q := RStripSlashes(p);
            |q| <= |p| && q == p[..|q|] && (q != "" ==> q[|q| - 1] != '/')
    ensures p != "" && p[|p| - 1] == '/' ==> |RStripSlashes(p)| < |p|
    decreases |p|
  {
    if p != "" && p[|p| - 1] == '/' { StripSlashes(p[..|p| - 1]); }
  }

  lemma CanonicalPathFacts(p: string)
    requires PathOk(p)
    ensures var c := CanonicalPath(p);
            && PathOk(c) && c != "" && CanonicalPath(c) == c && (p != "" ==> |c| <= |p|)
            && c == if RStripSlashes(p) == "" then "/" else RStripSlashes(p)
  {
    StripSlashes(p);
    if p == "/" { assert p[..0] == ""; assert RStripSlashes(p) == RStripSlashes(p[..0]); }
  }

  lemma CanonicalPortFacts(scheme: string, port: string)
    requires PortOk(port)
    ensures var c := CanonicalPort(scheme, PortValue(port));
            var text := if c.Some? then c.value else "";
            PortOk(text) && CanonicalPort(scheme, PortValue(text)) == c && (c.Some? ==> c.value != "")
  {
    if port != "" {
      var n := D.ParseDigits(port).value;
      D.DigitsRoundTrip(n);
      D.PrintIsDigits(n);
    }
  }

  lemma QueryCharsAreSafe(q: string)
    requires forall i :: 0 <= i < |q| ==> IsQueryChar(q[i])
    ensures Avoids(q, {'#'} + UNSAFE) && (q != "" ==> EndsVisible(q))
  {
  }

  lemma CanonicalQueryFacts(query: string, r: Rules)
    ensures var q := CanonicalQuery(query, r.tracking);
            Avoids(q, {'#'} + UNSAFE) && (q != "" ==> EndsVisible(q)) && CanonicalQuery(q, r.tracking) == q
    ensures CanonicalQuery("", r.tracking) == ""
  {
    EncodedCharsOnly(Sorted(Kept(ParseQsl(query), r.tracking)));
    QueryCharsAreSafe(CanonicalQuery(query, r.tracking));
    CanonicalQueryIsStable(query, r.tracking);
  }

  lemma SchemeFacts(scheme: string)
    requires SchemeOk(scheme)
    ensures SchemeOk(Lower(scheme)) && Lower(Lower(scheme)) == Lower(scheme)
  {
    LowerKeeps(scheme, {});
    assert forall i :: 0 <= i < |scheme| ==> IsSchemeChar(scheme[i]) ==> IsSchemeChar(Lower(scheme)[i]);
  }

  lemma HostFacts(host: string)
    requires HostOk(host)
    ensures HostOk(Lower(host)) && Lower(Lower(host)) == Lower(host)
    ensures forall c :: c in BRACKETS + {':'} ==> (c in Lower(host) <==> c in host)
  {
    LowerKeeps(host, DELIMS + UNSAFE + {'@'});
    LowerKeeps(host, BRACKETS + {':'});
  }

  /** Canonical URLs are well formed and are their own canonical form. */
  lemma CanonicalFacts(scheme: string, host: string, port: string, path: string, query: string, r: Rules)
    requires SchemeOk(scheme) && HostOk(host) && PortOk(port) && PathOk(path)
    ensures IsCanonical(CanonicalOf(scheme, host, port, path, query, r), r)
  {
    SchemeFacts(scheme);
    HostFacts(host);
    CanonicalPortFacts(Lower(scheme), port);
    CanonicalPathFacts(path);
    CanonicalQueryFacts(query, r);
  }

  // ---------------------------------------------------------------- what reading any text gives

  lemma AvoidsSlice(s: string, i: nat, j: nat, stops: set<char>)
    requires i <= j <= |s| && Avoids(s, stops)
    ensures Avoids(s[i..j], stops)
  {
  }

  lemma PartsOfScheme(t: string)
    requires Avoids(t, UNSAFE)
    ensures SchemeOk(SplitScheme(t).0) && Avoids(SplitScheme(t).1, UNSAFE)
  {
    var k := Cut(t, {':'});
    if 0 < k < |t| && IsAlpha(t[0]) && AllSchemeChars(t[..k]) {
      SchemeFacts(t[..k]);
      AvoidsSlice(t, k + 1, |t|, UNSAFE);
      assert t[k + 1..|t|] == t[k + 1..];
    }
  }

  lemma PartsOfNetloc(t: string)
    requires Avoids(t, UNSAFE)
    ensures var (netloc, tail) := SplitNetloc(t);
            && Avoids(netloc, DELIMS + UNSAFE) && Avoids(tail, UNSAFE)
            && (netloc != "" && tail != "" ==> tail[0] in DELIMS)
  {
    if |t| >= 2 && t[0] == '/' && t[1] == '/' {
      var u := t[2..];
      var k := Cut(u, DELIMS);
      AvoidsSlice(t, 2, |t|, UNSAFE);
      assert t[2..|t|] == u;
      AvoidsSlice(u, 0, k, UNSAFE);
      AvoidsSlice(u, k, |u|, UNSAFE);
      assert u[0..k] == u[..k] && u[k..|u|] == u[k..];
    }
  }

  lemma PartsOfTail(tail: string)
    requires Avoids(tail, UNSAFE) && (tail != "" ==> tail[0] in DELIMS)
    ensures PathOk(SplitTail(tail).0)
  {
    var f := tail[..Cut(tail, {'#'})];
    assert SplitTail(tail).0 == f[..Cut(f, {'?'})];
  }

  lemma {:induction false} PartsOfInfo(netloc: string, stops: set<char>)
    requires Avoids(netloc, stops)
    ensures Avoids(AfterLastAt(netloc), stops + {'@'})
    decreases |netloc|
  {
    var k := Cut(netloc, {'@'});
    if k < |netloc| { PartsOfInfo(netloc[k + 1..], stops); }
  }

  lemma PartsOfHost(netloc: string)
    requires Avoids(netloc, DELIMS + UNSAFE)
    ensures HostInfo(netloc).0 != "" ==> HostOk(HostInfo(netloc).0)
  {
    var info := AfterLastAt(netloc);
    PartsOfInfo(netloc, DELIMS + UNSAFE);
    var b := Cut(info, {'['});
    if b < |info| {
      var inner := info[b + 1..];
      var e := Cut(inner, {']'});
      AvoidsSlice(info, b + 1, |info|, DELIMS + UNSAFE + {'@'});
      assert info[b + 1..|info|] == inner;
      AvoidsSlice(inner, 0, e, DELIMS + UNSAFE + {'@'});
      assert inner[0..e] == inner[..e];
    } else {
      var c := Cut(info, {':'});
      AvoidsSlice(info, 0, c, DELIMS + UNSAFE + {'@'});
      assert info[0..c] == info[..c];
    }
  }

  /** Whatever text comes in, the canonical URL is canonical. */
  lemma TextIsCanonical(t: string, r: Rules)
    requires Avoids(t, UNSAFE) && CanonicalOfText(t, r).Ok?
    ensures IsCanonical(CanonicalOfText(t, r).url, r)
  {
    var (scheme, rest) := SplitScheme(t);
    var (netloc, tail) := SplitNetloc(rest);
    var (path, query) := SplitTail(tail);
    var (host, port) := HostInfo(netloc);
    PartsOfScheme(t);
    PartsOfNetloc(rest);
    if netloc == "" { NoHostInNothing(); }
    PartsOfTail(tail);
    PartsOfHost(netloc);
    CanonicalFacts(scheme, host, port, path, query, r);
  }

  lemma NoHostInNothing()
    ensures HostInfo("").0 == ""
  {
  }

  /** What IPv6 addresses are like: written in either case, and none starts with a V. */
  ghost predicate ReadsAddresses(r: Rules) {
    forall h :: r.isIp(h) ==> r.isIp(Lower(h)) && (h != "" ==> h[0] != 'V' && h[0] != 'v')
  }

  lemma {:induction false} HexRunOfLower(h: string, i: nat)
    requires i <= |h|
    ensures HexRun(Lower(h), i) == HexRun(h, i)
    decreases |h| - i
  {
    if i < |h| {
      assert HexValue(LowerChar(h[i])).Some? <==> HexValue(h[i]).Some?;
      HexRunOfLower(h, i + 1);
    }
  }

  lemma BracketedHostLower(h: string, r: Rules)
    requires ReadsAddresses(r) && BracketedHostOk(h, r)
    ensures BracketedHostOk(Lower(h), r)
  {
    if h != "" && h[0] == 'v' {
      HexRunOfLower(h, 1);
      LowerKeeps(h[HexRun(h, 1) + 1..], {'\n'});
      assert Lower(h)[HexRun(h, 1) + 1..] == Lower(h[HexRun(h, 1) + 1..]);
    }
  }

  /** What the canonical URL must be like to be left alone the second time. */
  predicate Settles(n: Url) {
    (':' in n.host || Avoids(n.host, BRACKETS)) && (n.query.Some? || EndsVisible(n.path))
  }

  /** The same of the text given: a host that is either bracketed for its colon or without a bracket,
      and a parameter that the blocklist leaves or a path that ends visibly but for its slashes. */
  predicate SettlesText(s: string, r: Rules) {
    var (netloc, tail) := SplitNetloc(SplitScheme(Clean(s)).1);
    var (path, query) := SplitTail(tail);
    var host, bare := HostInfo(netloc).0, RStripSlashes(path);
    && (':' in host || Avoids(host, BRACKETS))
    && (Kept(ParseQsl(query), r.tracking) != [] || bare == "" || EndsVisible(bare))
  }

  lemma QueryIsLeftIff(query: string, r: Rules)
    ensures CanonicalQuery(query, r.tracking) != "" <==> Kept(ParseQsl(query), r.tracking) != []
  {
    var kept := Kept(ParseQsl(query), r.tracking);
    EncodedCharsOnly(Sorted(kept));
    SortedSorts(kept);
    assert |multiset(Sorted(kept))| == |Sorted(kept)| && |multiset(kept)| == |kept|;
  }

  lemma CanonicalSettlesIff(scheme: string, host: string, port: string, path: string, query: string, r: Rules)
    requires PathOk(path)
    ensures Settles(CanonicalOf(scheme, host, port, path, query, r))
            <==> && (':' in host || Avoids(host, BRACKETS))
                 && (|| Kept(ParseQsl(query), r.tracking) != [] || RStripSlashes(path) == ""
                     || EndsVisible(RStripSlashes(path)))
  {
    LowerKeeps(host, BRACKETS);
    LowerKeeps(host, {':'});
    QueryIsLeftIff(query, r);
    CanonicalPathFacts(path);
  }

  lemma {:induction false} InfoIsPart(s: string, c: char)
    ensures c in AfterLastAt(s) ==> c in s
    decreases |s|
  {
    var k := Cut(s, {'@'});
    if k < |s| { InfoIsPart(s[k + 1..], c); }
  }

  lemma ColonMeansBrackets(t: string, r: Rules)
    requires ReadsAddresses(r) && CanonicalOfText(t, r).Ok? && ':' in CanonicalOfText(t, r).url.host
    ensures BracketsFit(CanonicalOfText(t, r).url, r)
  {
    var netloc := SplitNetloc(SplitScheme(t).1).0;
    var host := HostInfo(netloc).0;
    LowerKeeps(host, {':'});
    var info := AfterLastAt(netloc);
    if Cut(info, {'['}) < |info| {
      InfoIsPart(netloc, '[');
      BracketedHostLower(host, r);
    }
  }

  /** The text of a canonical URL that ends in white space, cleaned. */
  function Trimmed(n: Url): Url {
    if n.query.Some? then n else n.(path := RStrip(n.path))
  }

  lemma {:induction false} RStripFacts(p: string)
    requires p != "" && !IsSpace(p[0])
    ensures var q := RStrip(p); q != "" && q[0] == p[0] && EndsVisible(q) && |q| <= |p| && q == p[..|q|]
    ensures EndsVisible(p) <==> RStrip(p) == p
    decreases |p|
  {
    if IsSpace(p[|p| - 1]) { RStripFacts(p[..|p| - 1]); }
  }

  lemma {:induction false} RStripOfConcat(a: string, p: string)
    requires p != "" && !IsSpace(p[0])
    ensures RStrip(a + p) == a + RStrip(p)
    decreases |p|
  {
    if IsSpace(p[|p| - 1]) {
      assert (a + p)[..|a + p| - 1] == a + p[..|p| - 1];
      RStripOfConcat(a, p[..|p| - 1]);
    }
  }

  lemma EndOfConcat(a: string, b: string)
    requires b != ""
    ensures EndsVisible(a + b) <==> EndsVisible(b)
  {
  }

  lemma SpellOfBare(n: Url)
    requires n.userinfo.None? && n.query.None? && n.fragment.None?
    ensures Spell(n) == (Prefix(n.scheme) + Netloc(n)) + n.path
  {
    EmptyIsUnit(n.path);
    ConcatAssociates(Prefix(n.scheme), Netloc(n), n.path);
  }

  lemma SpellOfQuery(n: Url)
    requires n.query.Some? && n.fragment.None? && EndsVisible(n.query.value)
    ensures EndsVisible(Spell(n))
  {
    var tail := n.path + QueryPart(n);
    EmptyIsUnit(tail);
    EndOfConcat("?", n.query.value);
    EndOfConcat(n.path, QueryPart(n));
    EndOfConcat(Netloc(n), tail);
    EndOfConcat(Prefix(n.scheme), Netloc(n) + tail);
  }

  lemma TrimmedSpells(n: Url, r: Rules)
    requires IsCanonical(n, r)
    ensures Shaped(Trimmed(n)) && EndsVisible(Spell(Trimmed(n))) && Strip(Spell(n)) == Spell(Trimmed(n))
  {
    var m := Trimmed(n);
    SpelledIsSafe(n);
    if n.query.Some? {
      SpellOfQuery(n);
    } else {
      var a := Prefix(n.scheme) + Netloc(n);
      RStripFacts(n.path);
      AvoidsSlice(n.path, 0, |m.path|, {'?', '#'} + UNSAFE);
      assert n.path[0..|m.path|] == m.path;
      SpellOfBare(n);
      SpellOfBare(m);
      RStripOfConcat(a, n.path);
      EndOfConcat(a, m.path);
    }
  }

  lemma CleanOfCanonical(n: Url, r: Rules)
    requires IsCanonical(n, r)
    ensures Clean(Spell(n)) == Spell(Trimmed(n))
  {
    TrimmedSpells(n, r);
    SpelledIsSafe(Trimmed(n));
    NothingToRemove(Spell(Trimmed(n)));
  }

  // ---------------------------------------------------------------- idempotence

  lemma ShorterPathSpellsShorter(n: Url, path: string)
    requires n.userinfo.None? && n.query.None? && n.fragment.None? && |path| < |n.path|
    ensures Spell(n.(path := path)) != Spell(n)
  {
    SpellOfBare(n);
    SpellOfBare(n.(path := path));
  }

  lemma NormOfTrimmed(n: Url, r: Rules)
    requires IsCanonical(n, r) && Shaped(Trimmed(n))
    ensures Norm(Trimmed(n), r) == n.(path := CanonicalPath(Trimmed(n).path))
    ensures |CanonicalPath(Trimmed(n).path)| <= |Trimmed(n).path|
    ensures Trimmed(n).path == n.path <==> n.query.Some? || EndsVisible(n.path)
    ensures |Trimmed(n).path| <= |n.path| && (Trimmed(n).path != n.path ==> |Trimmed(n).path| < |n.path|)
  {
    RStripFacts(n.path);
    CanonicalPathFacts(Trimmed(n).path);
  }

  lemma SettlesIffTextDoes(s: string, r: Rules)
    requires CanonicalOfText(Clean(s), r).Ok?
    ensures Settles(CanonicalOfText(Clean(s), r).url) <==> SettlesText(s, r)
  {
    var (scheme, rest) := SplitScheme(Clean(s));
    var (netloc, tail) := SplitNetloc(rest);
    var (path, query) := SplitTail(tail);
    var (host, port) := HostInfo(netloc);
    RemoveRemoves(LStripControls(Strip(s)));
    PartsOfScheme(Clean(s));
    PartsOfNetloc(rest);
    if netloc == "" { NoHostInNothing(); }
    PartsOfTail(tail);
    CanonicalSettlesIff(scheme, host, port, path, query, r);
  }

  lemma CanonicalTwice(n: Url, r: Rules)
    requires IsCanonical(n, r) && (':' in n.host ==> BracketsFit(n, r))
    ensures Shaped(Trimmed(n))
    ensures Canonicalize(Spell(n), r) == if BracketsFit(n, r) then Text(Spell(Norm(Trimmed(n), r))) else Error
  {
    CleanOfCanonical(n, r);
    TrimmedSpells(n, r);
    TextOfSpelled(Trimmed(n), r);
  }

  lemma TrimmedIffSettled(n: Url, r: Rules)
    requires IsCanonical(n, r) && Shaped(Trimmed(n))
    requires BracketsFit(n, r) <==> ':' in n.host || Avoids(n.host, BRACKETS)
    ensures BracketsFit(n, r) && Spell(Norm(Trimmed(n), r)) == Spell(n) <==> Settles(n)
  {
    NormOfTrimmed(n, r);
    if Trimmed(n).path != n.path { ShorterPathSpellsShorter(n, CanonicalPath(Trimmed(n).path)); }
  }

  lemma TwiceIffSettled(s: string, r: Rules)
    requires ReadsAddresses(r) && CanonicalOfText(Clean(s), r).Ok?
    ensures var n := CanonicalOfText(Clean(s), r).url;
            && (Canonicalize(Spell(n), r) == Text(Spell(n)) <==> Settles(n))
            && (!BracketsFit(n, r) ==> Canonicalize(Spell(n), r) == Error)
  {
    var n := CanonicalOfText(Clean(s), r).url;
    RemoveRemoves(LStripControls(Strip(s)));
    TextIsCanonical(Clean(s), r);
    if ':' in n.host { ColonMeansBrackets(Clean(s), r); }
    CanonicalTwice(n, r);
    TrimmedIffSettled(n, r);
  }

  /** Canonicalising the canonical text of a text with a host changes nothing if and only if the text
      settles: the others have a bracket in a host without a colon, or a path that ends in white
      space but for its slashes and no parameter that is kept. */
  lemma IdempotentIffSettled(s: string, r: Rules)
    requires ReadsAddresses(r) && Canonicalize(s, r).Text?
    ensures Canonicalize(Canonicalize(s, r).text, r) == Canonicalize(s, r) <==> SettlesText(s, r)
  {
    TwiceIffSettled(s, r);
    SettlesIffTextDoes(s, r);
  }

  lemma BracketStays(h: string)
    requires '[' in h
    ensures '[' in Lower(h)
  {
    var k :| 0 <= k < |h| && h[k] == '[';
    assert Lower(h)[k] == '[';
  }

  function BracketedUrl(h: string): Url {
    Url("http", None, h, true, None, "/", None, None)
  }

  lemma BracketedUrlIsTyped(h: string, r: Rules)
    requires HostOk(h) && ']' !in h && BracketedHostOk(h, r)
    ensures Typed(BracketedUrl(h), r)
    ensures Norm(BracketedUrl(h), r).host == Lower(h) && Norm(BracketedUrl(h), r).bracketed == (':' in h)
  {
    var u := BracketedUrl(h);
    SpellOfBare(u);
    EndOfConcat(Prefix(u.scheme) + Netloc(u), u.path);
    LowerKeeps(h, {':'});
  }

  lemma StrayBracketsDoNotFit(n: Url, r: Rules)
    requires !n.bracketed && '[' in n.host
    ensures !BracketsFit(n, r)
  {
  }

  /** A host that stands in brackets, has no colon and holds a bracket is accepted once: without the
      brackets that the canonical form takes off, the text is malformed the second time. */
  lemma StrayBracketsDoNotSettle(h: string, r: Rules)
    requires ReadsAddresses(r) && HostOk(h) && ']' !in h && BracketedHostOk(h, r) && ':' !in h && '[' in h
    ensures var u := BracketedUrl(h);
            && Canonicalize(Spell(u), r) == Text(Spell(Norm(u, r)))
            && Canonicalize(Spell(Norm(u, r)), r) == Error
  {
    var u := BracketedUrl(h);
    BracketedUrlIsTyped(h, r);
    CanonicalOfTyped(u, r);
    BracketStays(h);
    StrayBracketsDoNotFit(Norm(u, r), r);
    TwiceIffSettled(Spell(u), r);
  }

  /** Such a host: `http://[v1.a[b]/`, an address of a future version. */
  lemma StrayBracketExample(r: Rules)
    requires ReadsAddresses(r)
    ensures var u := BracketedUrl("v1.a[b");
            && Canonicalize(Spell(u), r) == Text(Spell(Norm(u, r)))
            && Canonicalize(Spell(Norm(u, r)), r) == Error
  {
    var h := "v1.a[b";
    assert h[4] == '[' && HexRun(h, 2) == 2 && HexRun(h, 1) == 2 && h[3..] == "a[b";
    StrayBracketsDoNotSettle(h, r);
  }

  function Page(path: string): Url {
    Url("http", None, "h", false, None, path, None, None)
  }

  lemma PageFacts(path: string, r: Rules)
    requires PathOk(path) && path != ""
    ensures Shaped(Page(path)) && Norm(Page(path), r) == Page(CanonicalPath(path))
    ensures EndsVisible(path) ==> Typed(Page(path), r)
  {
    assert Lower("http") == "http" && Lower("h") == "h";
    CanonicalQueryFacts("", r);
    SpellOfBare(Page(path));
    EndOfConcat(Prefix("http") + Netloc(Page(path)), path);
  }

  lemma SpacedPaths()
    ensures CanonicalPath("/a /") == "/a " && CanonicalPath("/a ") == "/a " && CanonicalPath("/a") == "/a"
    ensures RStrip("/a ") == "/a"
  {
    assert "/a /"[..3] == "/a " && "/a "[..2] == "/a";
    assert RStripSlashes("/a /") == RStripSlashes("/a ");
  }

  /** A URL that does not settle: the slash after the space goes the first time, the space the second. */
  lemma SpaceBeforeSlashDoesNotSettle(r: Rules)
    ensures Canonicalize(Spell(Page("/a /")), r) == Text(Spell(Page("/a ")))
    ensures Canonicalize(Spell(Page("/a ")), r) == Text(Spell(Page("/a")))
    ensures Spell(Page("/a ")) != Spell(Page("/a"))
  {
    SpacedPaths();
    PageFacts("/a /", r);
    PageFacts("/a ", r);
    PageFacts("/a", r);
    CanonicalOfTyped(Page("/a /"), r);
    CleanOfCanonical(Page("/a "), r);
    TextOfSpelled(Page("/a"), r);
    ShorterPathSpellsShorter(Page("/a "), "/a");
  }

  // ---------------------------------------------------------------- what is the same source

  /** The port a URL connects to. */
  function EffectivePort(u: Url): Option<nat> {
    var given := PortValue(PortText(u));
    if given.Some? then given else DefaultPort(Lower(u.scheme))
  }

  /** The query parameters that the blocklist leaves. */
  function KeptPairs(u: Url, r: Rules): multiset<Pair> {
    multiset(Kept(ParseQsl(QueryText(u)), r.tracking))
  }

  /** Alike up to letter case of scheme and host, userinfo, a port that is the default, fragment,
      trailing slashes, the order of parameters, and parameters on the blocklist. */
  predicate SameSource(u: Url, v: Url, r: Rules) {
    && Lower(u.scheme) == Lower(v.scheme) && Lower(u.host) == Lower(v.host)
    && EffectivePort(u) == EffectivePort(v)
    && RStripSlashes(u.path) == RStripSlashes(v.path)
    && KeptPairs(u, r) == KeptPairs(v, r)
  }

  lemma PortsCompare(scheme: string, p: string, q: string)
    requires PortOk(p) && PortOk(q)
    ensures CanonicalPort(scheme, PortValue(p)) == CanonicalPort(scheme, PortValue(q))
            <==> (if PortValue(p).Some? then PortValue(p) else DefaultPort(scheme))
                 == (if PortValue(q).Some? then PortValue(q) else DefaultPort(scheme))
  {
    if PortValue(p).Some? && PortValue(q).Some? && D.Print(PortValue(p).value) == D.Print(PortValue(q).value) {
      D.PrintIsInjective(PortValue(p).value, PortValue(q).value);
    }
  }

  lemma PathsCompare(p: string, q: string)
    requires PathOk(p) && PathOk(q)
    ensures CanonicalPath(p) == CanonicalPath(q) <==> RStripSlashes(p) == RStripSlashes(q)
  {
    CanonicalPathFacts(p);
    CanonicalPathFacts(q);
    StripSlashes(p);
    StripSlashes(q);
  }

  lemma UrlsCompare(u: Url, v: Url, p: string, q: string)
    requires u.userinfo == v.userinfo && u.fragment == v.fragment && (u.host == v.host ==> u.bracketed == v.bracketed)
    requires u.query == (if p == "" then None else Some(p)) && v.query == (if q == "" then None else Some(q))
    ensures u == v <==> u.scheme == v.scheme && u.host == v.host && u.port == v.port && u.path == v.path && p == q
  {
  }

  predicate Readable(u: Url) {
    SchemeOk(u.scheme) && PathOk(u.path) && PortOk(PortText(u))
  }

  lemma NormsCompare(u: Url, v: Url, r: Rules)
    requires Readable(u) && Readable(v)
    ensures Norm(u, r) == Norm(v, r) <==> SameSource(u, v, r)
  {
    SchemeFacts(u.scheme);
    SchemeFacts(v.scheme);
    UrlsCompare(Norm(u, r), Norm(v, r),
                CanonicalQuery(QueryText(u), r.tracking), CanonicalQuery(QueryText(v), r.tracking));
    CanonicalQueriesCompare(QueryText(u), QueryText(v), r.tracking);
    PathsCompare(u.path, v.path);
    if Lower(u.scheme) == Lower(v.scheme) {
      PortsCompare(Lower(u.scheme), PortText(u), PortText(v));
    }
  }

  lemma NormIsCanonical(u: Url, r: Rules)
    requires Shaped(u)
    ensures IsCanonical(Norm(u, r), r)
  {
    SchemeFacts(u.scheme);
    CanonicalFacts(Lower(u.scheme), u.host, PortText(u), u.path, QueryText(u), r);
  }

  /** The authority determines host, brackets and port. */
  lemma NetlocDetermines(n: Url, m: Url)
    requires Shaped(n) && Shaped(m) && n.userinfo.None? && m.userinfo.None? && Netloc(n) == Netloc(m)
    ensures n.host == m.host && n.bracketed == m.bracketed && PortText(n) == PortText(m)
  {
    BracketsOfNetloc(n, '[');
    BracketsOfNetloc(n, ']');
    BracketsOfNetloc(m, '[');
    BracketsOfNetloc(m, ']');
    if n.bracketed {
      HostOfNetloc(n);
      HostOfNetloc(m);
    } else {
      HostPortAvoids(n);
      HostPortAvoids(m);
      PlainInfo(n.host, n.port);
      PlainInfo(m.host, m.port);
    }
  }

  /** A canonical URL is determined by its spelling. */
  lemma SpellingDetermines(n: Url, m: Url, r: Rules)
    requires IsCanonical(n, r) && IsCanonical(m, r) && Spell(n) == Spell(m)
    ensures n == m
  {
    SplitOfSpelled(n);
    SplitOfSpelled(m);
    NetlocDetermines(n, m);
  }

  /** The URL that a cleaned text is read as; userinfo and fragment are not kept. */
  function ReadUrl(t: string): Url {
    var (scheme, rest) := SplitScheme(t);
    var (netloc, tail) := SplitNetloc(rest);
    var (path, query) := SplitTail(tail);
    var (host, port) := HostInfo(netloc);
    Url(scheme, None, host, ':' in host, Some(port), path, Some(query), None)
  }

  lemma CanonicalOfRead(s: string, r: Rules)
    requires Canonicalize(s, r).Text?
    ensures var u := ReadUrl(Clean(s));
            Readable(u) && IsCanonical(Norm(u, r), r) && Canonicalize(s, r) == Text(Spell(Norm(u, r)))
  {
    var t := Clean(s);
    var (scheme, rest) := SplitScheme(t);
    var (netloc, tail) := SplitNetloc(rest);
    RemoveRemoves(LStripControls(Strip(s)));
    PartsOfScheme(t);
    PartsOfNetloc(rest);
    if netloc == "" { NoHostInNothing(); }
    PartsOfTail(tail);
    LowerKeeps(scheme, {});
    TextIsCanonical(t, r);
  }

  /** Two texts get one join key exactly when the URLs they are read as name the same source; this
      holds of every two texts that are accepted. */
  lemma SameKeyIffSameSource(s: string, t: string, r: Rules)
    requires Canonicalize(s, r).Text? && Canonicalize(t, r).Text?
    ensures Canonicalize(s, r) == Canonicalize(t, r) <==> SameSource(ReadUrl(Clean(s)), ReadUrl(Clean(t)), r)
  {
    var u, v := ReadUrl(Clean(s)), ReadUrl(Clean(t));
    CanonicalOfRead(s, r);
    CanonicalOfRead(t, r);
    NormsCompare(u, v, r);
    if Spell(Norm(u, r)) == Spell(Norm(v, r)) { SpellingDetermines(Norm(u, r), Norm(v, r), r); }
  }

  /** Of well-formed URLs: the texts they are spelled as, userinfo, port, fragment and all, get one
      key exactly when their components name the same source. */
  lemma SpelledKeysCompare(u: Url, v: Url, r: Rules)
    requires Typed(u, r) && Typed(v, r)
    ensures Canonicalize(Spell(u), r).Text? && Canonicalize(Spell(v), r).Text?
    ensures Canonicalize(Spell(u), r) == Canonicalize(Spell(v), r) <==> SameSource(u, v, r)
  {
    CanonicalOfTyped(u, r);
    CanonicalOfTyped(v, r);
    NormsCompare(u, v, r);
    NormIsCanonical(u, r);
    NormIsCanonical(v, r);
    if Spell(Norm(u, r)) == Spell(Norm(v, r)) { SpellingDetermines(Norm(u, r), Norm(v, r), r); }
  }

  // ---------------------------------------------------------------- which ports are left out

  /** The port of http is 80 and that of https is 443, however the scheme and the number are written. */
  predicate IsDefault(scheme: string, port: nat) {
    (Lower(scheme) == "http" && port == 80) || (Lower(scheme) == "https" && port == 443)
  }

  lemma PortIsVisible(p: string)
    requires PortOk(p)
    ensures EndsVisible(":" + p)
  {
    if p != "" { assert IsDigit(p[|p| - 1]); }
  }

  lemma WithPortIsTyped(u: Url, p: string, r: Rules)
    requires Typed(u, r) && u.port.None? && PortOk(p)
    ensures Typed(u.(port := Some(p)), r)
  {
    var v := u.(port := Some(p));
    PortIsVisible(p);
    SpellEnds(u);
    SpellEnds(v);
    assert Tail(v) == Tail(u) && PortPart(v.port) == ":" + p;
  }

  /** What the last character of a spelling is one of. */
  lemma SpellEnds(u: Url)
    requires Shaped(u)
    ensures Tail(u) != "" ==> (EndsVisible(Spell(u)) <==> EndsVisible(Tail(u)))
    ensures Tail(u) == "" && PortPart(u.port) != "" ==> (EndsVisible(Spell(u)) <==> EndsVisible(PortPart(u.port)))
  {
    if Tail(u) != "" {
      EndOfConcat(Netloc(u), Tail(u));
      EndOfConcat(Prefix(u.scheme), Netloc(u) + Tail(u));
    } else if PortPart(u.port) != "" {
      EmptyIsUnit(Netloc(u));
      EndOfConcat(HostText(u.host, u.bracketed), PortPart(u.port));
      if u.userinfo.Some? {
        EndOfConcat("@", HostPort(u));
        EndOfConcat(u.userinfo.value, "@" + HostPort(u));
      }
      EndOfConcat(Prefix(u.scheme), Netloc(u));
    }
  }

  lemma EffectivePortOfNone(u: Url)
    requires u.port.None?
    ensures EffectivePort(u) == Some(80) <==> Lower(u.scheme) == "http"
    ensures EffectivePort(u) == Some(443) <==> Lower(u.scheme) == "https"
    ensures EffectivePort(u).Some? ==> IsDefault(u.scheme, EffectivePort(u).value)
  {
    SchemesDiffer();
  }

  lemma SamePortIffDefault(u: Url, p: string)
    requires u.port.None? && PortOk(p)
    ensures EffectivePort(u.(port := Some(p))) == EffectivePort(u)
            <==> p == "" || IsDefault(u.scheme, D.ParseDigits(p).value)
  {
    EffectivePortOfNone(u);
  }

  /** Naming a port keeps the key exactly when the port is empty or the default of the scheme. */
  lemma PortKeepsKeyIffDefault(u: Url, p: string, r: Rules)
    requires Typed(u, r) && u.port.None? && PortOk(p)
    ensures var v := u.(port := Some(p));
            && Canonicalize(Spell(v), r).Text?
            && (Canonicalize(Spell(v), r) == Canonicalize(Spell(u), r)
                <==> p == "" || IsDefault(u.scheme, D.ParseDigits(p).value))
  {
    var v := u.(port := Some(p));
    WithPortIsTyped(u, p, r);
    SpelledKeysCompare(v, u, r);
    SamePortIffDefault(u, p);
    assert SameSource(v, u, r) <==> EffectivePort(v) == EffectivePort(u);
  }

  lemma SchemesDiffer()
    ensures "http" != "https"
  {
    assert |"http"| != |"https"|;
  }
}
