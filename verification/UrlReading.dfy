/** Which texts are read as URLs, and as what: exactly the spellings of well-formed URLs, but for brackets
    in the userinfo. */
module UrlReading {
  import opened Text
  import opened Query
  import opened Urls
  import D = Decimal

  // ---------------------------------------------------------------- the pieces of a text

  lemma NetlocJoins(rest: string)
    requires SplitNetloc(rest).0 != ""
    ensures rest == "//" + (SplitNetloc(rest).0 + SplitNetloc(rest).1)
  {
    var t := rest[2..];
    var k := Cut(t, DELIMS);
    assert rest[..2] == "//" && rest == rest[..2] + t && t == t[..k] + t[k..];
  }

  lemma SchemeWritten(t: string) returns (scheme: string)
    requires SplitNetloc(SplitScheme(t).1).0 != ""
    ensures SchemeOk(scheme)
    ensures var (netloc, tail) := SplitNetloc(SplitScheme(t).1); t == Prefix(scheme) + (netloc + tail)
  {
    var (netloc, tail) := SplitNetloc(SplitScheme(t).1);
    NetlocJoins(SplitScheme(t).1);
    scheme := SchemeText(t, netloc + tail);
  }

  lemma SchemeText(t: string, rest: string) returns (scheme: string)
    requires SplitScheme(t).1 == "//" + rest
    ensures SchemeOk(scheme) && t == Prefix(scheme) + rest
  {
    var k := Cut(t, {':'});
    scheme := if 0 < k < |t| && IsAlpha(t[0]) && AllSchemeChars(t[..k]) then t[..k] else "";
    if scheme != "" { SchemeJoins(t, k, rest); }
  }

  lemma SchemeJoins(t: string, k: nat, rest: string)
    requires 0 < k < |t| && t[k] == ':' && t[k + 1..] == "//" + rest
    ensures t == (t[..k] + "://") + rest
  {
    assert t == t[..k] + ([t[k]] + t[k + 1..]);
    assert ":" + ("//" + rest) == "://" + rest;
    ConcatAssociates(t[..k], "://", rest);
  }

  lemma SuffixOfSuffix(s: string, i: nat, j: nat)
    requires i + j <= |s|
    ensures s[i..][j..] == s[i + j..]
    ensures 0 < j ==> s[i..][j - 1] == s[i + j - 1]
  {
  }

  lemma {:induction false} InfoIsTheEnd(netloc: string)
    ensures var info := AfterLastAt(netloc);
            && '@' !in info && |info| <= |netloc| && netloc[|netloc| - |info|..] == info
            && (|info| < |netloc| ==> netloc[|netloc| - |info| - 1] == '@')
    decreases |netloc|
  {
    var k := Cut(netloc, {'@'});
    if k < |netloc| {
      InfoIsTheEnd(netloc[k + 1..]);
      SuffixOfSuffix(netloc, k + 1, |netloc| - k - 1 - |AfterLastAt(netloc)|);
    }
  }

  /** What stands before the last `@`. */
  function WrittenUserinfo(netloc: string): Option<string> {
    InfoIsTheEnd(netloc);
    var n := |netloc| - |AfterLastAt(netloc)|;
    if n == 0 then None else Some(netloc[..n - 1])
  }

  lemma UserinfoJoins(netloc: string)
    ensures var u := WrittenUserinfo(netloc);
            netloc == if u.Some? then u.value + ("@" + AfterLastAt(netloc)) else AfterLastAt(netloc)
  {
    InfoIsTheEnd(netloc);
    var info := AfterLastAt(netloc);
    var n := |netloc| - |info|;
    if n > 0 {
      SliceJoins(netloc, n - 1, n);
      assert netloc[n - 1..n] == "@" && netloc == netloc[..n - 1] + netloc[n - 1..];
    }
  }

  /** The port as it is written after a colon, or none. */
  function WrittenPort(part: string): Option<string> {
    if part == "" then None else Some(part[1..])
  }

  lemma PortWritten(part: string)
    requires part == "" || part[0] == ':'
    ensures PortPart(WrittenPort(part)) == part
    ensures After(part, Cut(part, {':'})) == if part == "" then "" else part[1..]
  {
    if part != "" { assert part == ":" + part[1..]; }
  }

  lemma PlainWritten(info: string) returns (port: Option<string>)
    requires Cut(info, {'['}) == |info|
    ensures var host := info[..Cut(info, {':'})];
            && info == HostText(host, false) + PortPart(port) && ':' !in host && '[' !in host
    ensures (if port.Some? then port.value else "") == After(info, Cut(info, {':'}))
  {
    var c := Cut(info, {':'});
    port := WrittenPort(info[c..]);
    PortWritten(info[c..]);
  }

  lemma BracketsJoin(inner: string, e: nat)
    requires e < |inner| && inner[e] == ']'
    ensures "[" + inner == HostText(inner[..e], true) + inner[e + 1..]
  {
    var host, part := inner[..e], inner[e + 1..];
    assert inner == host + ("]" + part);
    ConcatAssociates(host, "]", part);
    ConcatAssociates("[", host + "]", part);
  }

  lemma BracketedWritten(info: string) returns (port: Option<string>)
    requires ']' in info && Cut(info, {'['}) == 0 && info != ""
    requires var after := After(info[1..], Cut(info[1..], {']'})); after == "" || after[0] == ':'
    ensures var e := Cut(info[1..], {']'});
            var host := info[1..][..e];
            && info == HostText(host, true) + PortPart(port) && ']' !in host
            && (if port.Some? then port.value else "") == After(After(info[1..], e), Cut(After(info[1..], e), {':'}))
  {
    var inner := info[1..];
    assert info == "[" + inner && ']' in inner;
    var e := Cut(inner, {']'});
    var after := After(inner, e);
    port := WrittenPort(after);
    PortWritten(after);
    BracketsJoin(inner, e);
  }

  /** No bracket stands before the last `@` of the authority. */
  predicate PlainUserinfo(netloc: string) {
    WrittenUserinfo(netloc).Some? ==> Avoids(WrittenUserinfo(netloc).value, BRACKETS)
  }

  lemma BracketsAreInInfo(netloc: string, c: char)
    requires PlainUserinfo(netloc) && c in BRACKETS
    ensures c in netloc <==> c in AfterLastAt(netloc)
  {
    UserinfoJoins(netloc);
    var u, info := WrittenUserinfo(netloc), AfterLastAt(netloc);
    if u.Some? {
      HasBracket("@", info, c);
      HasBracket(u.value, "@" + info, c);
    }
  }

  lemma InfoWritten(netloc: string, r: Rules) returns (bracketed: bool, port: Option<string>)
    requires PlainUserinfo(netloc) && BracketsOk(netloc, r)
    ensures var host := HostInfo(netloc).0;
            && AfterLastAt(netloc) == HostText(host, bracketed) + PortPart(port)
            && (if bracketed then ']' !in host && BracketedHostOk(host, r) else ':' !in host && Avoids(host, BRACKETS))
    ensures (if port.Some? then port.value else "") == HostInfo(netloc).1
  {
    var info := AfterLastAt(netloc);
    BracketsAreInInfo(netloc, '[');
    BracketsAreInInfo(netloc, ']');
    bracketed := Cut(info, {'['}) < |info|;
    if bracketed {
      port := BracketedWritten(info);
    } else {
      port := PlainWritten(info);
      assert Avoids(info, BRACKETS);
    }
  }

  lemma TailWritten(tail: string) returns (query: Option<string>, fragment: Option<string>)
    requires Avoids(tail, UNSAFE)
    ensures var path := SplitTail(tail).0;
            tail == (path + (if query.Some? then "?" + query.value else ""))
                    + (if fragment.Some? then "#" + fragment.value else "")
    ensures query.Some? ==> Avoids(query.value, {'#'} + UNSAFE)
    ensures fragment.Some? ==> Avoids(fragment.value, UNSAFE)
  {
    var f := Cut(tail, {'#'});
    var before := tail[..f];
    var k := Cut(before, {'?'});
    query := if k < |before| then Some(before[k + 1..]) else None;
    fragment := if f < |tail| then Some(tail[f + 1..]) else None;
    MarkJoins(before, k, '?');
    MarkJoins(tail, f, '#');
  }

  lemma MarkJoins(s: string, k: nat, mark: char)
    requires k <= |s| && (k < |s| ==> s[k] == mark)
    ensures s == s[..k] + (if k < |s| then [mark] + s[k + 1..] else "")
  {
  }

  // ---------------------------------------------------------------- accepted texts

  /** What `u` is read as, told by its own components. */
  predicate ReadAs(u: Url, t: string, r: Rules) {
    && Shaped(u) && BracketsFit(u, r) && Spell(u) == t
    && ReadUrl(t).scheme == Lower(u.scheme) && ReadUrl(t).host == u.host
    && PortText(ReadUrl(t)) == PortText(u) && ReadUrl(t).path == u.path && QueryText(ReadUrl(t)) == QueryText(u)
  }

  lemma UserinfoIsSafe(netloc: string)
    requires Avoids(netloc, DELIMS + UNSAFE) && PlainUserinfo(netloc)
    ensures var u := WrittenUserinfo(netloc); u.Some? ==> Avoids(u.value, DELIMS + UNSAFE + BRACKETS)
  {
    InfoIsTheEnd(netloc);
  }

  lemma PartsAreSafe(t: string, r: Rules)
    requires Avoids(t, UNSAFE) && CanonicalOfText(t, r).Ok?
    ensures var (netloc, tail) := SplitNetloc(SplitScheme(t).1);
            && netloc != "" && Avoids(netloc, DELIMS + UNSAFE) && Avoids(tail, UNSAFE) && BracketsOk(netloc, r)
            && PathOk(SplitTail(tail).0) && HostOk(HostInfo(netloc).0) && PortOk(HostInfo(netloc).1)
  {
    var (netloc, tail) := SplitNetloc(SplitScheme(t).1);
    if netloc == "" { NoHostInNothing(); }
    PartsOfScheme(t);
    PartsOfNetloc(SplitScheme(t).1);
    PartsOfTail(tail);
    PartsOfHost(netloc);
  }

  lemma SpelledIsReadAs(u: Url, r: Rules)
    requires Shaped(u) && BracketsFit(u, r)
    ensures ReadAs(u, Spell(u), r)
  {
    SplitOfSpelled(u);
    HostOfNetloc(u);
  }

  lemma SpellingOf(u: Url, netloc: string, tail: string)
    requires Netloc(u) == netloc && Tail(u) == tail
    ensures Spell(u) == Prefix(u.scheme) + (netloc + tail)
  {
  }

  lemma NetlocOf(u: Url, netloc: string)
    requires u.userinfo == WrittenUserinfo(netloc) && HostPort(u) == AfterLastAt(netloc)
    ensures Netloc(u) == netloc
  {
    UserinfoJoins(netloc);
  }

  predicate AuthorityIs(u: Url, netloc: string, r: Rules) {
    && u.userinfo == WrittenUserinfo(netloc) && HostPort(u) == AfterLastAt(netloc)
    && HostOk(u.host) && PortOk(PortText(u))
    && if u.bracketed then ']' !in u.host && BracketedHostOk(u.host, r)
       else ':' !in u.host && Avoids(u.host, BRACKETS)
  }

  predicate TailIs(u: Url, tail: string) {
    && Tail(u) == tail && PathOk(u.path)
    && (u.query.Some? ==> Avoids(u.query.value, {'#'} + UNSAFE))
    && (u.fragment.Some? ==> Avoids(u.fragment.value, UNSAFE))
  }

  lemma AuthorityWritten(netloc: string, r: Rules) returns (u: Url)
    requires PlainUserinfo(netloc) && BracketsOk(netloc, r)
    requires HostOk(HostInfo(netloc).0) && PortOk(HostInfo(netloc).1)
    ensures AuthorityIs(u, netloc, r)
  {
    var bracketed, port := InfoWritten(netloc, r);
    u := Url("", WrittenUserinfo(netloc), HostInfo(netloc).0, bracketed, port, "", None, None);
  }

  lemma TailUrl(tail: string) returns (u: Url)
    requires Avoids(tail, UNSAFE) && PathOk(SplitTail(tail).0)
    ensures TailIs(u, tail)
  {
    var query, fragment := TailWritten(tail);
    u := Url("", None, "", false, None, SplitTail(tail).0, query, fragment);
  }

  /** The spelling put together from its parts. */
  lemma Assembled(u: Url, netloc: string, tail: string, r: Rules)
    requires AuthorityIs(u, netloc, r) && PlainUserinfo(netloc) && Avoids(netloc, DELIMS + UNSAFE)
    requires TailIs(u, tail) && SchemeOk(u.scheme)
    ensures Shaped(u) && BracketsFit(u, r) && Spell(u) == Prefix(u.scheme) + (netloc + tail)
  {
    UserinfoIsSafe(netloc);
    NetlocOf(u, netloc);
    SpellingOf(u, netloc, tail);
  }

  lemma AcceptedIsSpelled(t: string, r: Rules) returns (u: Url)
    requires Avoids(t, UNSAFE) && CanonicalOfText(t, r).Ok?
    requires PlainUserinfo(SplitNetloc(SplitScheme(t).1).0)
    ensures Shaped(u) && BracketsFit(u, r) && Spell(u) == t
  {
    var (netloc, tail) := SplitNetloc(SplitScheme(t).1);
    PartsAreSafe(t, r);
    var scheme := SchemeWritten(t);
    var v := AuthorityWritten(netloc, r);
    var w := TailUrl(tail);
    u := v.(scheme := scheme, path := w.path, query := w.query, fragment := w.fragment);
    Assembled(u, netloc, tail, r);
  }

  lemma AcceptedHasReading(t: string, r: Rules)
    requires Avoids(t, UNSAFE) && CanonicalOfText(t, r).Ok?
    requires PlainUserinfo(SplitNetloc(SplitScheme(t).1).0)
    ensures exists u: Url :: ReadAs(u, t, r)
  {
    var u := AcceptedIsSpelled(t, r);
    SpelledIsReadAs(u, r);
  }

  lemma ReadingIsAccepted(u: Url, t: string, r: Rules)
    requires ReadAs(u, t, r)
    ensures CanonicalOfText(t, r).Ok?
  {
    TextOfSpelled(u, r);
  }

  lemma AcceptedTextIffSpelled(t: string, r: Rules)
    requires Avoids(t, UNSAFE) && PlainUserinfo(SplitNetloc(SplitScheme(t).1).0)
    ensures CanonicalOfText(t, r).Ok? <==> exists u: Url :: ReadAs(u, t, r)
  {
    if CanonicalOfText(t, r).Ok? { AcceptedHasReading(t, r); }
    if u: Url :| ReadAs(u, t, r) { ReadingIsAccepted(u, t, r); }
  }

  /** The texts that are accepted, if no bracket is in the userinfo, are exactly those that some well-formed
      URL is spelled as; and it has the components that the text is read as. */
  lemma AcceptedIffSpelled(s: string, r: Rules)
    requires PlainUserinfo(SplitNetloc(SplitScheme(Clean(s)).1).0)
    ensures Canonicalize(s, r).Text? <==> exists u: Url :: ReadAs(u, Clean(s), r)
  {
    RemoveRemoves(LStripControls(Strip(s)));
    AcceptedTextIffSpelled(Clean(s), r);
  }

  /** With both brackets in the userinfo and none in the host, the host is checked as if it were bracketed. */
  lemma BracketsInUserinfoAreChecked(netloc: string, r: Rules)
    requires '[' in netloc && ']' in netloc && Avoids(AfterLastAt(netloc), BRACKETS + {':'})
    ensures BracketsOk(netloc, r) <==> BracketedHostOk(AfterLastAt(netloc), r)
    ensures HostInfo(netloc) == (AfterLastAt(netloc), "")
  {
    var info := AfterLastAt(netloc);
    assert Cut(info, {'['}) == |info| && Cut(info, {':'}) == |info| && info[..|info|] == info;
  }

  /** Ports are numbers up to 65535. */
  lemma PortOkIff(n: nat)
    ensures PortOk(D.Print(n)) <==> n <= 65_535
  {
    D.PrintIsDigits(n);
    D.DigitsRoundTrip(n);
  }
}
