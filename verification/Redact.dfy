/** Secret redaction: every match of every pattern is replaced by one fixed marker. */
module Redact {
  import opened Text

  const REDACTION_MARKER := "[redacted]"
  const MARKER_WORD := "redacted"

  /** A compiled pattern without anchors or look-around: the strings it matches, and which
      end the engine picks for a match that starts at a given place. */
  datatype Pattern = Pattern(matches: string -> bool, pick: (string, nat) -> nat)

  predicate MatchAt(p: Pattern, t: string, i: nat, e: nat) {
    i <= e <= |t| && p.matches(t[i..e])
  }

  predicate MatchesFrom(p: Pattern, t: string, i: nat) {
    exists e: nat | e <= |t| :: MatchAt(p, t, i, e)
  }

  /** The engine returns a real match wherever there is one. */
  ghost predicate Engine(p: Pattern) {
    forall t: string, i: nat :: MatchesFrom(p, t, i) ==> MatchAt(p, t, i, p.pick(t, i))
  }

  predicate BracketFree(s: string) {
    '[' !in s && ']' !in s
  }

  /** What the marker relies on: matches are not empty, hold no bracket, and do not occur
      in the word between the marker's brackets. */
  ghost predicate SafeBesideMarker(p: Pattern) {
    forall s: string :: p.matches(s) ==> s != "" && BracketFree(s) && !IsSubstring(s, MARKER_WORD)
  }

  ghost predicate Good(p: Pattern) {
    Engine(p) && SafeBesideMarker(p)
  }

  /** No match anywhere. */
  ghost predicate Clean(p: Pattern, t: string) {
    forall i: nat, e: nat :: !MatchAt(p, t, i, e)
  }

  /** `regex.subn(REDACTION_MARKER, text)` from position `i` on. */
  function SubN(p: Pattern, t: string, i: nat): (string, nat)
    requires i <= |t|
    decreases |t| - i
  {
    if i == |t| then ("", 0)
    else if MatchesFrom(p, t, i) && i < p.pick(t, i) <= |t| then
      var (rest, n) := SubN(p, t, p.pick(t, i));
      (REDACTION_MARKER + rest, n + 1)
    else
      var (rest, n) := SubN(p, t, i + 1);
      ([t[i]] + rest, n)
  }

  /** Patterns applied in order, counting the replacements. */
  function Redacted(t: string, ps: seq<Pattern>): (string, nat) {
    if ps == [] then (t, 0)
    else
      var (last, n) := Redacted(t, ps[..|ps| - 1]);
      var (out, m) := SubN(ps[|ps| - 1], last, 0);
      (out, n + m)
  }

  method RedactCounting(text: string, patterns: seq<Pattern>) returns (out: string, count: nat)
    ensures (out, count) == Redacted(text, patterns)
  {
    out, count := text, 0;
    for k := 0 to |patterns|
      invariant (out, count) == Redacted(text, patterns[..k])
    {
      var (replaced, n) := SubN(patterns[k], out, 0);
      out, count := replaced, count + n;
      assert patterns[..k + 1][..k] == patterns[..k];
    }
    assert patterns[..|patterns|] == patterns;
  }

  // ---------------------------------------------------------------- completeness

  lemma MatchBecomesMarker(p: Pattern, t: string, i: nat)
    requires Good(p) && i <= |t| && MatchesFrom(p, t, i)
    ensures i < p.pick(t, i) <= |t| && SubN(p, t, i).0 == REDACTION_MARKER + SubN(p, t, p.pick(t, i)).0
    ensures SubN(p, t, i).0[0] == '['
  {
    assert MatchAt(p, t, i, p.pick(t, i));
  }

  lemma UnmatchedIsCopied(p: Pattern, t: string, i: nat)
    requires i < |t| && !MatchesFrom(p, t, i)
    ensures SubN(p, t, i).0 == [t[i]] + SubN(p, t, i + 1).0
  {
  }

  lemma PrefixOfCons(c: char, rest: string, e: nat)
    requires 0 < e <= |rest| + 1
    ensures ([c] + rest)[..e] == [c] + rest[..e - 1]
    ensures BracketFree([c] + rest[..e - 1]) ==> BracketFree(rest[..e - 1])
  {
    var s := rest[..e - 1];
    assert forall k :: 0 <= k < |s| ==> s[k] == ([c] + s)[k + 1];
  }

  /** Up to its first bracket the output is a copy of unmatched input. */
  lemma {:induction false} PrefixIsCopied(p: Pattern, t: string, i: nat, e: nat)
    requires Good(p) && i <= |t|
    requires 0 < e <= |SubN(p, t, i).0| && BracketFree(SubN(p, t, i).0[..e])
    ensures i + e <= |t| && SubN(p, t, i).0[..e] == t[i..i + e] && !MatchesFrom(p, t, i)
    decreases |t| - i
  {
    var out := SubN(p, t, i).0;
    assert out[0] == out[..e][0];
    assert !MatchesFrom(p, t, i) by {
      if MatchesFrom(p, t, i) { MatchBecomesMarker(p, t, i); }
    }
    UnmatchedIsCopied(p, t, i);
    PrefixOfCons(t[i], SubN(p, t, i + 1).0, e);
    if e > 1 { PrefixIsCopied(p, t, i + 1, e - 1); }
    SliceStep(t, i, i + e);
  }

  /** A bracket-free piece that starts inside a bracketed word stays inside the word. */
  lemma BracketFreeInMarker(marker: string, rest: string, k: nat, e: nat)
    requires |marker| > 1 && marker[0] == '[' && marker[|marker| - 1] == ']'
    requires k < e <= |marker| + |rest| && k < |marker|
    ensures var s := (marker + rest)[k..e]; BracketFree(s) ==> IsSubstring(s, marker[1..|marker| - 1])
  {
    var s, last := (marker + rest)[k..e], |marker| - 1;
    assert s[0] == marker[k];
    if e > last {
      assert s[last - k] == marker[last];
    } else if k > 0 {
      assert s == marker[k..e];
      assert marker[1..last][k - 1..e - 1] == marker[k..e];
      assert OccursAt(s, marker[1..last], k - 1);
    }
  }

  /** A safe match in marked text starts after the marker. */
  lemma MatchIsPastMarker(q: Pattern, rest: string, k: nat, e: nat)
    requires Good(q) && MatchAt(q, REDACTION_MARKER + rest, k, e)
    ensures k >= 10 && e >= 10 && MatchAt(q, rest, k - 10, e - 10)
  {
    var out := REDACTION_MARKER + rest;
    var s := out[k..e];
    assert s != "" && BracketFree(s) && !IsSubstring(s, MARKER_WORD);
    assert REDACTION_MARKER[1..9] == MARKER_WORD;
    if k < 10 {
      BracketFreeInMarker(REDACTION_MARKER, rest, k, e);
    } else {
      assert s == rest[k - 10..e - 10];
    }
  }

  /** Replacing the matches of `p` leaves none of `p`, and makes none of a pattern that had none. */
  lemma {:induction false} SubLeavesClean(p: Pattern, q: Pattern, t: string, i: nat, k: nat, e: nat)
    requires Good(p) && Good(q) && (q == p || Clean(q, t)) && i <= |t|
    ensures !MatchAt(q, SubN(p, t, i).0, k, e)
    decreases |t| - i
  {
    var out := SubN(p, t, i).0;
    if MatchAt(q, out, k, e) {
      if MatchesFrom(p, t, i) {
        var next := p.pick(t, i);
        MatchBecomesMarker(p, t, i);
        MatchIsPastMarker(q, SubN(p, t, next).0, k, e);
        SubLeavesClean(p, q, t, next, k - 10, e - 10);
      } else if k > 0 {
        assert out[k..e] == SubN(p, t, i + 1).0[k - 1..e - 1];
        SubLeavesClean(p, q, t, i + 1, k - 1, e - 1);
      } else {
        assert out[k..e] == out[..e];
        PrefixIsCopied(p, t, i, e);
        assert MatchAt(q, t, i, i + e);
      }
    }
  }

  /** After the loop over all patterns, no pattern matches anywhere in the result. */
  lemma {:induction false} RedactionIsComplete(t: string, ps: seq<Pattern>, k: nat)
    requires forall p :: p in ps ==> Good(p)
    requires k < |ps|
    ensures Clean(ps[k], Redacted(t, ps).0)
  {
    var init := ps[..|ps| - 1];
    var mid := Redacted(t, init).0;
    if k < |init| {
      RedactionIsComplete(t, init, k);
    }
    forall i: nat, e: nat
      ensures !MatchAt(ps[k], Redacted(t, ps).0, i, e)
    {
      SubLeavesClean(ps[|ps| - 1], ps[k], mid, 0, i, e);
    }
  }

  lemma {:induction false} CleanIsFixed(p: Pattern, t: string, i: nat)
    requires i <= |t| && Clean(p, t)
    ensures SubN(p, t, i) == (t[i..], 0)
    decreases |t| - i
  {
    if i < |t| {
      CleanIsFixed(p, t, i + 1);
      assert [t[i]] + t[i + 1..] == t[i..];
    }
  }

  lemma {:induction false} CleanTextIsFixed(t: string, ps: seq<Pattern>)
    requires forall p :: p in ps ==> Clean(p, t)
    ensures Redacted(t, ps) == (t, 0)
  {
    if ps != [] {
      CleanTextIsFixed(t, ps[..|ps| - 1]);
      CleanIsFixed(ps[|ps| - 1], t, 0);
    }
  }

  /** A second run replaces nothing and changes nothing. */
  lemma RedactionIsIdempotent(t: string, ps: seq<Pattern>)
    requires forall p :: p in ps ==> Good(p)
    ensures Redacted(Redacted(t, ps).0, ps) == (Redacted(t, ps).0, 0)
  {
    forall p | p in ps
      ensures Clean(p, Redacted(t, ps).0)
    {
      var k :| 0 <= k < |ps| && ps[k] == p;
      RedactionIsComplete(t, ps, k);
    }
    CleanTextIsFixed(Redacted(t, ps).0, ps);
  }

  // ---------------------------------------------------------------- what a substitution touches

  type Span = (nat, nat)

  /** The matches that `subn` replaces. */
  function Replaced(p: Pattern, t: string, i: nat): seq<Span>
    requires i <= |t|
    decreases |t| - i
  {
    if i == |t| then []
    else if MatchesFrom(p, t, i) && i < p.pick(t, i) <= |t| then
      [(i, p.pick(t, i))] + Replaced(p, t, p.pick(t, i))
    else Replaced(p, t, i + 1)
  }

  ghost predicate InOrder(spans: seq<Span>, lo: nat, hi: nat) {
    if spans == [] then lo <= hi
    else lo <= spans[0].0 < spans[0].1 && InOrder(spans[1..], spans[0].1, hi)
  }

  /** `t[i..]` with each span written as the marker and everything else kept. */
  function Splice(t: string, i: nat, spans: seq<Span>): string
    requires InOrder(spans, i, |t|)
    decreases |spans|
  {
    if spans == [] then t[i..]
    else
      InOrderBounds(spans, i, |t|);
      t[i..spans[0].0] + REDACTION_MARKER + Splice(t, spans[0].1, spans[1..])
  }

  lemma {:induction false} InOrderBounds(spans: seq<Span>, lo: nat, hi: nat)
    requires InOrder(spans, lo, hi)
    ensures lo <= hi
    ensures forall m :: m in spans ==> lo <= m.0 < m.1 <= hi
  {
    if spans != [] {
      InOrderBounds(spans[1..], spans[0].1, hi);
    }
  }

  lemma SliceStep(t: string, i: nat, stop: nat)
    requires i < stop <= |t|
    ensures t[i..stop] == [t[i]] + t[i + 1..stop]
  {
  }

  lemma SpliceStep(t: string, i: nat, spans: seq<Span>)
    requires i < |t| && InOrder(spans, i + 1, |t|)
    ensures InOrder(spans, i, |t|) && Splice(t, i, spans) == [t[i]] + Splice(t, i + 1, spans)
  {
    InOrderBounds(spans, i + 1, |t|);
    if spans == [] {
      SliceStep(t, i, |t|);
    } else {
      var (from, next) := spans[0];
      assert i < from < next <= |t| && InOrder(spans[1..], next, |t|) by { assert spans[0] in spans; }
      var rest := Splice(t, next, spans[1..]);
      SliceStep(t, i, from);
      ConcatAssociates([t[i]], t[i + 1..from], REDACTION_MARKER);
      ConcatAssociates([t[i]], t[i + 1..from] + REDACTION_MARKER, rest);
    }
  }

  lemma SpliceMarker(t: string, i: nat, next: nat, spans: seq<Span>)
    requires i < next && InOrder(spans, next, |t|)
    ensures InOrder([(i, next)] + spans, i, |t|)
    ensures Splice(t, i, [(i, next)] + spans) == REDACTION_MARKER + Splice(t, next, spans)
  {
    InOrderBounds(spans, next, |t|);
    assert ([(i, next)] + spans)[1..] == spans;
    assert t[i..i] + REDACTION_MARKER == REDACTION_MARKER;
  }

  /** A substitution replaces disjoint matches in order, counts them, and keeps all other text. */
  lemma {:induction false} SubReplacesOnlyMatches(p: Pattern, t: string, i: nat)
    requires Good(p) && i <= |t|
    ensures InOrder(Replaced(p, t, i), i, |t|)
    ensures forall m :: m in Replaced(p, t, i) ==> MatchAt(p, t, m.0, m.1)
    ensures SubN(p, t, i) == (Splice(t, i, Replaced(p, t, i)), |Replaced(p, t, i)|)
    decreases |t| - i
  {
    if i == |t| {
      assert t[i..] == "";
    } else if MatchesFrom(p, t, i) {
      MatchBecomesMarker(p, t, i);
      var next := p.pick(t, i);
      SubReplacesOnlyMatches(p, t, next);
      assert MatchAt(p, t, i, next);
      SpliceMarker(t, i, next, Replaced(p, t, next));
    } else {
      SubReplacesOnlyMatches(p, t, i + 1);
      SpliceStep(t, i, Replaced(p, t, i + 1));
    }
  }

  /** Every match in the input starts inside a replaced stretch: none is missed. */
  lemma {:induction false} EverySecretIsTouched(p: Pattern, t: string, i: nat, k: nat, e: nat)
    requires Good(p) && i <= k && MatchAt(p, t, k, e)
    ensures exists m :: m in Replaced(p, t, i) && m.0 <= k < m.1
    decreases |t| - i
  {
    assert k < e;
    if MatchesFrom(p, t, i) {
      MatchBecomesMarker(p, t, i);
      var next := p.pick(t, i);
      if k < next {
        assert (i, next) in Replaced(p, t, i);
      } else {
        EverySecretIsTouched(p, t, next, k, e);
      }
    } else {
      EverySecretIsTouched(p, t, i + 1, k, e);
    }
  }

  // ---------------------------------------------------------------- what is counted

  /** How many opening brackets a text has. */
  function Brackets(s: string): nat {
    if s == "" then 0 else (if s[0] == '[' then 1 else 0) + Brackets(s[1..])
  }

  lemma {:induction false} BracketsOfConcat(a: string, b: string)
    ensures Brackets(a + b) == Brackets(a) + Brackets(b)
  {
    if a == "" {
      assert a + b == b;
    } else {
      assert (a + b)[1..] == a[1..] + b;
      BracketsOfConcat(a[1..], b);
    }
  }

  lemma {:induction false} BracketFreeHasNone(s: string)
    requires BracketFree(s)
    ensures Brackets(s) == 0
  {
    if s != "" {
      assert s[0] in s && forall k :: 0 <= k < |s| - 1 ==> s[1..][k] in s;
      BracketFreeHasNone(s[1..]);
    }
  }

  lemma MarkerHasOne()
    ensures Brackets(REDACTION_MARKER) == 1
  {
    assert BracketFree(REDACTION_MARKER[1..9]) && REDACTION_MARKER[1..] == REDACTION_MARKER[1..9] + "]";
    BracketFreeHasNone(REDACTION_MARKER[1..9]);
    BracketsOfConcat(REDACTION_MARKER[1..9], "]");
  }

  lemma MatchCountsOne(t: string, i: nat, e: nat, rest: string)
    requires i <= e <= |t| && BracketFree(t[i..e])
    ensures Brackets(REDACTION_MARKER + rest) == 1 + Brackets(rest) && Brackets(t[i..]) == Brackets(t[e..])
  {
    MarkerHasOne();
    BracketsOfConcat(REDACTION_MARKER, rest);
    BracketFreeHasNone(t[i..e]);
    BracketsOfConcat(t[i..e], t[e..]);
    SliceJoins(t, i, e);
  }

  lemma {:induction false} SubCountsMarkers(p: Pattern, t: string, i: nat)
    requires Good(p) && i <= |t|
    ensures Brackets(SubN(p, t, i).0) == Brackets(t[i..]) + SubN(p, t, i).1
    decreases |t| - i
  {
    if i == |t| {
    } else if MatchesFrom(p, t, i) {
      MatchBecomesMarker(p, t, i);
      SubCountsMarkers(p, t, p.pick(t, i));
      MatchCountsOne(t, i, p.pick(t, i), SubN(p, t, p.pick(t, i)).0);
    } else {
      UnmatchedIsCopied(p, t, i);
      SubCountsMarkers(p, t, i + 1);
      BracketsOfConcat([t[i]], SubN(p, t, i + 1).0);
      BracketsOfConcat([t[i]], t[i + 1..]);
      SliceStep(t, i, |t|);
    }
  }

  /** The count is the number of markers put in: the result has that many more opening brackets. */
  lemma {:induction false} RedactionCountsMarkers(t: string, ps: seq<Pattern>)
    requires forall p :: p in ps ==> Good(p)
    ensures Brackets(Redacted(t, ps).0) == Brackets(t) + Redacted(t, ps).1
  {
    if ps != [] {
      var init, last := ps[..|ps| - 1], ps[|ps| - 1];
      RedactionCountsMarkers(t, init);
      SubCountsMarkers(last, Redacted(t, init).0, 0);
      WholeSlice(Redacted(t, init).0);
    }
  }

  // ---------------------------------------------------------------- the seed set

  /** One seed pattern: a choice of heads, then a run of one character class. */
  datatype Seed = Seed(heads: seq<string>, member: char -> bool, least: nat, most: Option<nat>) {
    predicate Matches(s: string) {
      exists k :: 0 <= k < |heads| && MatchesAfter(heads[k], s)
    }

    predicate MatchesAfter(head: string, s: string) {
      && head <= s
      && least <= |s| - |head|
      && (most.Some? ==> |s| - |head| <= most.value)
      && forall k :: |head| <= k < |s| ==> member(s[k])
    }

    /** Greedy repetition: the longest match that starts at `i` and ends by `e`. */
    function Longest(t: string, i: nat, e: nat): nat {
      if e <= i || (e <= |t| && Matches(t[i..e])) then e else Longest(t, i, e - 1)
    }

    function Compiled(): Pattern {
      Pattern((s: string) => Matches(s), (t: string, i: nat) => Longest(t, i, |t|))
    }

    ghost predicate Distinctive() {
      && !member('[') && !member(']')
      && (forall h :: h in heads ==> BracketFree(h))
      && (forall h :: h in heads ==> |h| + least > |MARKER_WORD|)
    }
  }

  predicate IsUpperOrDigit(c: char) {
    'A' <= c <= 'Z' || IsDigit(c)
  }

  predicate IsAlnum(c: char) {
    'a' <= c <= 'z' || IsUpperOrDigit(c)
  }

  predicate IsAlnumDash(c: char) {
    IsAlnum(c) || c == '-'
  }

  predicate IsAlnumUnderscore(c: char) {
    IsAlnum(c) || c == '_'
  }

  predicate IsAlnumUnderscoreDash(c: char) {
    IsAlnumUnderscore(c) || c == '-'
  }

  function PemHead(kind: string): string {
    "-----BEGIN " + kind + "PRIVATE KEY-----"
  }

  const PEM_HEADER := Seed(
    [PemHead(""), PemHead("RSA "), PemHead("EC "), PemHead("DSA "), PemHead("OPENSSH "), PemHead("PGP ")],
    IsAlnum, 0, Some(0))
  const AWS_KEY_ID := Seed(["AKIA", "ASIA"], IsUpperOrDigit, 16, Some(16))
  const GITHUB_TOKEN := Seed(["ghp_", "gho_", "ghu_", "ghs_", "ghr_"], IsAlnum, 36, Some(36))
  const GITHUB_PAT := Seed(["github_pat_"], IsAlnumUnderscore, 82, Some(82))
  const SLACK_TOKEN := Seed(["xoxb-", "xoxa-", "xoxp-", "xoxr-", "xoxs-"], IsAlnumDash, 10, None)
  const STRIPE_KEY := Seed(["sk_live_", "rk_live_"], IsAlnum, 24, None)
  const GOOGLE_KEY := Seed(["AIza"], IsAlnumUnderscoreDash, 35, Some(35))
  const ANTHROPIC_KEY := Seed(["sk-ant-"], IsAlnumUnderscoreDash, 20, None)

  const SEEDS := [PEM_HEADER, AWS_KEY_ID, GITHUB_TOKEN, GITHUB_PAT, SLACK_TOKEN, STRIPE_KEY, GOOGLE_KEY, ANTHROPIC_KEY]

  function CompileAll(seeds: seq<Seed>): seq<Pattern> {
    seq(|seeds|, i requires 0 <= i < |seeds| => seeds[i].Compiled())
  }

  predicate AllIn(s: string, i: nat, test: char -> bool) {
    forall k :: i <= k < |s| ==> test(s[k])
  }

  lemma MatchesIff(sd: Seed, n: nat, s: string)
    requires forall h :: h in sd.heads ==> |h| == n
    ensures sd.Matches(s)
            <==> && |s| >= n && s[..n] in sd.heads && sd.least <= |s| - n
                 && (sd.most.Some? ==> |s| - n <= sd.most.value) && AllIn(s, n, sd.member)
  {
    if |s| >= n && s[..n] in sd.heads {
      var k :| 0 <= k < |sd.heads| && sd.heads[k] == s[..n];
      assert sd.heads[k] <= s;
      if sd.least <= |s| - n && (sd.most.Some? ==> |s| - n <= sd.most.value) && AllIn(s, n, sd.member) {
        assert sd.MatchesAfter(sd.heads[k], s);
      }
    }
    if sd.Matches(s) {
      var k :| 0 <= k < |sd.heads| && sd.MatchesAfter(sd.heads[k], s);
      assert sd.heads[k] in sd.heads && s[..n] == sd.heads[k];
    }
  }

  lemma ExactIff(sd: Seed, s: string)
    requires sd.least == 0 && sd.most == Some(0)
    ensures sd.Matches(s) <==> s in sd.heads
  {
    if s in sd.heads {
      var k :| 0 <= k < |sd.heads| && sd.heads[k] == s;
      assert sd.MatchesAfter(sd.heads[k], s);
    }
    if sd.Matches(s) {
      var k :| 0 <= k < |sd.heads| && sd.MatchesAfter(sd.heads[k], s);
      assert s == sd.heads[k];
    }
  }

  /** What each seed pattern matches, written out. */
  lemma PemHeaderMatches(s: string)
    ensures PEM_HEADER.Matches(s)
            <==> exists kind :: kind in {"", "RSA ", "EC ", "DSA ", "OPENSSH ", "PGP "}
                                && s == "-----BEGIN " + kind + "PRIVATE KEY-----"
  {
    ExactIff(PEM_HEADER, s);
    if kind :| kind in {"", "RSA ", "EC ", "DSA ", "OPENSSH ", "PGP "} && s == PemHead(kind) {
      assert PEM_HEADER.heads[0] == PemHead("") && PEM_HEADER.heads[1] == PemHead("RSA ");
      assert PEM_HEADER.heads[2] == PemHead("EC ") && PEM_HEADER.heads[3] == PemHead("DSA ");
      assert PEM_HEADER.heads[4] == PemHead("OPENSSH ") && PEM_HEADER.heads[5] == PemHead("PGP ");
    }
  }

  lemma AwsKeyIdMatches(s: string)
    ensures AWS_KEY_ID.Matches(s) <==> |s| == 20 && s[..4] in {"AKIA", "ASIA"} && AllIn(s, 4, IsUpperOrDigit)
  {
    MatchesIff(AWS_KEY_ID, 4, s);
  }

  lemma GithubTokenMatches(s: string)
    ensures GITHUB_TOKEN.Matches(s)
            <==> |s| == 40 && s[..4] in {"ghp_", "gho_", "ghu_", "ghs_", "ghr_"} && AllIn(s, 4, IsAlnum)
  {
    MatchesIff(GITHUB_TOKEN, 4, s);
  }

  lemma GithubPatMatches(s: string)
    ensures GITHUB_PAT.Matches(s) <==> |s| == 93 && s[..11] == "github_pat_" && AllIn(s, 11, IsAlnumUnderscore)
  {
    MatchesIff(GITHUB_PAT, 11, s);
  }

  lemma SlackTokenMatches(s: string)
    ensures SLACK_TOKEN.Matches(s)
            <==> |s| >= 15 && s[..5] in {"xoxb-", "xoxa-", "xoxp-", "xoxr-", "xoxs-"} && AllIn(s, 5, IsAlnumDash)
  {
    MatchesIff(SLACK_TOKEN, 5, s);
  }

  lemma StripeKeyMatches(s: string)
    ensures STRIPE_KEY.Matches(s) <==> |s| >= 32 && s[..8] in {"sk_live_", "rk_live_"} && AllIn(s, 8, IsAlnum)
  {
    MatchesIff(STRIPE_KEY, 8, s);
  }

  lemma GoogleKeyMatches(s: string)
    ensures GOOGLE_KEY.Matches(s) <==> |s| == 39 && s[..4] == "AIza" && AllIn(s, 4, IsAlnumUnderscoreDash)
  {
    MatchesIff(GOOGLE_KEY, 4, s);
  }

  lemma AnthropicKeyMatches(s: string)
    ensures ANTHROPIC_KEY.Matches(s) <==> |s| >= 27 && s[..7] == "sk-ant-" && AllIn(s, 7, IsAlnumUnderscoreDash)
  {
    MatchesIff(ANTHROPIC_KEY, 7, s);
  }

  /** The seed set is these eight patterns. */
  lemma SeedsAre(sd: Seed)
    ensures sd in SEEDS
            <==> sd == PEM_HEADER || sd == AWS_KEY_ID || sd == GITHUB_TOKEN || sd == GITHUB_PAT || sd == SLACK_TOKEN
                 || sd == STRIPE_KEY || sd == GOOGLE_KEY || sd == ANTHROPIC_KEY
  {
  }

  /** The classes of characters that the patterns repeat. */
  lemma ClassesAre(c: char)
    ensures IsAlnum(c) <==> '0' <= c <= '9' || 'A' <= c <= 'Z' || 'a' <= c <= 'z'
    ensures IsUpperOrDigit(c) <==> '0' <= c <= '9' || 'A' <= c <= 'Z'
    ensures IsAlnumDash(c) <==> IsAlnum(c) || c == '-'
    ensures IsAlnumUnderscore(c) <==> IsAlnum(c) || c == '_'
    ensures IsAlnumUnderscoreDash(c) <==> IsAlnum(c) || c == '_' || c == '-'
  {
  }

  lemma LongestStep(sd: Seed, t: string, i: nat, top: nat)
    requires i < top <= |t|
    ensures sd.Longest(t, i, top) == if sd.Matches(t[i..top]) then top else sd.Longest(t, i, top - 1)
  {
  }

  lemma {:induction false} LongestFindsAMatch(sd: Seed, t: string, i: nat, e: nat, top: nat)
    requires i < e <= top <= |t| && sd.Matches(t[i..e])
    ensures e <= sd.Longest(t, i, top) <= top && sd.Matches(t[i..sd.Longest(t, i, top)])
    decreases top
  {
    LongestStep(sd, t, i, top);
    if !sd.Matches(t[i..top]) {
      LongestFindsAMatch(sd, t, i, e, top - 1);
    }
  }

  lemma SeedMatchIsSafe(sd: Seed, s: string)
    requires sd.Distinctive() && sd.Matches(s)
    ensures s != "" && BracketFree(s) && !IsSubstring(s, MARKER_WORD)
  {
    var k :| 0 <= k < |sd.heads| && sd.MatchesAfter(sd.heads[k], s);
    var h := sd.heads[k];
    assert h in sd.heads;
    forall n | 0 <= n < |s|
      ensures s[n] != '[' && s[n] != ']'
    {
      if n < |h| { assert s[n] == h[n]; }
    }
  }

  lemma SeedIsGood(sd: Seed)
    requires sd.Distinctive()
    ensures Good(sd.Compiled())
  {
    var p := sd.Compiled();
    forall t: string, i: nat | MatchesFrom(p, t, i)
      ensures MatchAt(p, t, i, p.pick(t, i))
    {
      var e: nat :| e <= |t| && MatchAt(p, t, i, e);
      SeedMatchIsSafe(sd, t[i..e]);
      LongestFindsAMatch(sd, t, i, e, |t|);
    }
    forall s: string | p.matches(s)
      ensures s != "" && BracketFree(s) && !IsSubstring(s, MARKER_WORD)
    {
      SeedMatchIsSafe(sd, s);
    }
  }

  lemma PemHeadIsPlain(kind: string)
    requires BracketFree(kind)
    ensures BracketFree(PemHead(kind)) && |PemHead(kind)| > 8
  {
    assert BracketFree("-----BEGIN ") && BracketFree("PRIVATE KEY-----");
  }

  lemma PemHeaderIsDistinctive()
    ensures PEM_HEADER.Distinctive()
  {
    PemHeadIsPlain("");
    PemHeadIsPlain("RSA ");
    PemHeadIsPlain("EC ");
    PemHeadIsPlain("DSA ");
    PemHeadIsPlain("OPENSSH ");
    PemHeadIsPlain("PGP ");
  }

  lemma AwsKeyIdIsDistinctive()
    ensures AWS_KEY_ID.Distinctive()
  {
    assert forall h :: h in AWS_KEY_ID.heads ==> BracketFree(h);
  }

  lemma GithubTokenIsDistinctive()
    ensures GITHUB_TOKEN.Distinctive()
  {
    assert forall h :: h in GITHUB_TOKEN.heads ==> BracketFree(h);
  }

  lemma GithubPatIsDistinctive()
    ensures GITHUB_PAT.Distinctive()
  {
    assert forall h :: h in GITHUB_PAT.heads ==> BracketFree(h);
  }

  lemma SlackTokenIsDistinctive()
    ensures SLACK_TOKEN.Distinctive()
  {
    assert forall h :: h in SLACK_TOKEN.heads ==> BracketFree(h);
  }

  lemma StripeKeyIsDistinctive()
    ensures STRIPE_KEY.Distinctive()
  {
    assert forall h :: h in STRIPE_KEY.heads ==> BracketFree(h);
  }

  lemma GoogleKeyIsDistinctive()
    ensures GOOGLE_KEY.Distinctive()
  {
    assert forall h :: h in GOOGLE_KEY.heads ==> BracketFree(h);
  }

  lemma AnthropicKeyIsDistinctive()
    ensures ANTHROPIC_KEY.Distinctive()
  {
    assert forall h :: h in ANTHROPIC_KEY.heads ==> BracketFree(h);
  }

  lemma SeedSetIsDistinctive(k: nat)
    requires k < |SEEDS|
    ensures SEEDS[k].Distinctive()
  {
    match k
    case 0 => PemHeaderIsDistinctive();
    case 1 => AwsKeyIdIsDistinctive();
    case 2 => GithubTokenIsDistinctive();
    case 3 => GithubPatIsDistinctive();
    case 4 => SlackTokenIsDistinctive();
    case 5 => StripeKeyIsDistinctive();
    case 6 => GoogleKeyIsDistinctive();
    case _ => AnthropicKeyIsDistinctive();
  }

  /** Redacting with any distinctive seeds leaves no match, and a second run is a no-op. */
  lemma SeedRedaction(t: string, seeds: seq<Seed>)
    requires forall sd :: sd in seeds ==> sd.Distinctive()
    ensures forall p :: p in CompileAll(seeds) ==> Clean(p, Redacted(t, CompileAll(seeds)).0)
    ensures Redacted(Redacted(t, CompileAll(seeds)).0, CompileAll(seeds)) == (Redacted(t, CompileAll(seeds)).0, 0)
  {
    var ps := CompileAll(seeds);
    forall k | 0 <= k < |ps| ensures Good(ps[k]) { SeedIsGood(seeds[k]); }
    forall k | 0 <= k < |ps| ensures Clean(ps[k], Redacted(t, ps).0) { RedactionIsComplete(t, ps, k); }
    RedactionIsIdempotent(t, ps);
  }

  /** The shipped seed set. */
  lemma ShippedRedaction(t: string)
    ensures forall p :: p in CompileAll(SEEDS) ==> Clean(p, Redacted(t, CompileAll(SEEDS)).0)
    ensures Redacted(Redacted(t, CompileAll(SEEDS)).0, CompileAll(SEEDS)) == (Redacted(t, CompileAll(SEEDS)).0, 0)
  {
    forall k | 0 <= k < |SEEDS| ensures SEEDS[k].Distinctive() { SeedSetIsDistinctive(k); }
    SeedRedaction(t, SEEDS);
  }

  /** The condition on the marker's word is needed: a pattern for a piece of that word
      matches inside its own replacement. */
  lemma MarkerWordMustBeSafe()
    ensures var p := Pattern((s: string) => s == "act", (t: string, i: nat) => i + 3);
            Engine(p) && !Clean(p, Redacted("act", [p]).0)
  {
    var p := Pattern((s: string) => s == "act", (t: string, i: nat) => i + 3);
    assert [p][..0] == [];
    assert MatchAt(p, "act", 0, 3);
    assert Redacted("act", [p]).0 == REDACTION_MARKER;
    assert REDACTION_MARKER[4..7] == "act";
    assert MatchAt(p, REDACTION_MARKER, 4, 7);
  }
}
