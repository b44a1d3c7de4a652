/** Step 1 of the faithfulness gate: does a quoted span occur in a body, up to white space? */
module Faithfulness {
  import opened Text

  // ---------------------------------------------------------------- normal form

  /** `re.sub(r"\s+", " ", text)` */
  function Collapse(s: string): string {
    if s == "" then ""
    else if !IsSpace(s[0]) then [s[0]] + Collapse(s[1..])
    else if |s| > 1 && IsSpace(s[1]) then Collapse(s[1..])
    else " " + Collapse(s[1..])
  }

  function NormalizeWhitespace(s: string): string {
    Strip(Collapse(s))
  }

  /** The same normal form read off character by character: what the proofs use. */
  function Norm(s: string): string {
    if s == "" then ""
    else if IsSpace(s[0]) then Norm(s[1..])
    else if |s| > 1 && !IsSpace(s[1]) then [s[0]] + Norm(s[1..])
    else if Norm(s[1..]) == "" then [s[0]]
    else [s[0]] + " " + Norm(s[1..])
  }

  lemma {:induction false} NormTight(s: string)
    ensures Norm(s) == "" || Tight(Norm(s))
    ensures s != "" && !IsSpace(s[0]) ==> Norm(s) != "" && Norm(s)[0] == s[0]
  {
    if s != "" {
      NormTight(s[1..]);
    }
  }

  lemma {:induction false} RStripCons(c: char, s: string)
    requires !IsSpace(c) || RStrip(s) != ""
    ensures RStrip([c] + s) == [c] + RStrip(s)
    decreases |s|
  {
    var cs := [c] + s;
    if s == "" {
    } else if IsSpace(s[|s| - 1]) {
      assert cs[..|cs| - 1] == [c] + s[..|s| - 1];
      RStripCons(c, s[..|s| - 1]);
    }
  }

  lemma {:induction false} RStripSpace(s: string)
    requires RStrip(s) == ""
    ensures RStrip(" " + s) == ""
    decreases |s|
  {
    var cs := " " + s;
    if s != "" {
      assert IsSpace(s[|s| - 1]);
      assert cs[..|cs| - 1] == " " + s[..|s| - 1];
      RStripSpace(s[..|s| - 1]);
    } else {
      assert cs[..0] == "";
    }
  }

  /** Collapsed text has its visible part, read without leading space, equal to `Norm`. */
  lemma {:induction false} CollapseIsNorm(s: string)
    ensures RStrip(Collapse(s)) == if s != "" && IsSpace(s[0]) && Norm(s) != "" then " " + Norm(s) else Norm(s)
  {
    if s == "" {
    } else {
      CollapseIsNorm(s[1..]);
      NormTight(s[1..]);
      var rest := Collapse(s[1..]);
      if !IsSpace(s[0]) {
        RStripCons(s[0], rest);
      } else if |s| > 1 && IsSpace(s[1]) {
      } else if RStrip(rest) == "" {
        RStripSpace(rest);
      } else {
        RStripCons(' ', rest);
      }
    }
  }

  lemma {:induction false} StripCommutes(s: string)
    ensures RStrip(LStrip(s)) == LStrip(RStrip(s))
    decreases |s|
  {
    if s != "" && IsSpace(s[0]) {
      StripCommutes(s[1..]);
      assert s == [s[0]] + s[1..];
      if RStrip(s[1..]) == "" {
        RStripAllSpace(s[1..]);
        RStripAllSpace(s);
        assert AllSpace(s) by {
          forall i | 0 <= i < |s| ensures IsSpace(s[i]) {
            if i > 0 { assert s[i] == s[1..][i - 1]; }
          }
        }
      } else {
        RStripCons(s[0], s[1..]);
      }
    } else {
      if s != "" {
        assert s == [s[0]] + s[1..];
        RStripCons(s[0], s[1..]);
      }
    }
  }

  lemma {:induction false} RStripAllSpace(s: string)
    ensures RStrip(s) == "" <==> AllSpace(s)
    decreases |s|
  {
    if s != "" && IsSpace(s[|s| - 1]) {
      RStripAllSpace(s[..|s| - 1]);
    }
  }

  lemma NormalizeIsNorm(s: string)
    ensures NormalizeWhitespace(s) == Norm(s)
  {
    StripCommutes(Collapse(s));
    CollapseIsNorm(s);
    NormTight(s);
    if s != "" && IsSpace(s[0]) && Norm(s) != "" {
      assert (" " + Norm(s))[1..] == Norm(s);
    }
  }

  // ---------------------------------------------------------------- Norm and slices

  lemma {:induction false} NormOfPrefix(s: string, j: nat)
    requires j <= |s|
    ensures Norm(s[..j]) <= Norm(s)
  {
    if j > 0 {
      assert s[..j][1..] == s[1..][..j - 1];
      NormOfPrefix(s[1..], j - 1);
    }
  }

  predicate IsSuffix(t: string, s: string) {
    |t| <= |s| && s[|s| - |t|..] == t
  }

  lemma {:induction false} NormOfSuffix(s: string, i: nat)
    requires i <= |s|
    ensures IsSuffix(Norm(s[i..]), Norm(s))
  {
    if i > 0 {
      assert s[i..] == s[1..][i - 1..];
      NormOfSuffix(s[1..], i - 1);
      assert IsSuffix(Norm(s[1..]), Norm(s));
    } else {
      assert s[i..] == s;
    }
  }

  /** Cutting a slice out of a body cuts a slice out of its normal form. */
  lemma NormOfSlice(s: string, i: nat, j: nat)
    requires i <= j <= |s|
    ensures IsSubstring(Norm(s[i..j]), Norm(s))
  {
    NormOfPrefix(s, j);
    NormOfSuffix(s[..j], i);
    assert s[..j][i..] == s[i..j];
    assert OccursAt(Norm(s[i..j]), Norm(s), |Norm(s[..j])| - |Norm(s[i..j])|);
  }

  /** A prefix of the normal form that ends in a visible character is the normal form of a prefix. */
  lemma {:induction false} PullBackPrefix(s: string, q: nat) returns (j: nat)
    requires 0 < q <= |Norm(s)| && !IsSpace(Norm(s)[q - 1])
    ensures 0 < j <= |s| && Norm(s[..j]) == Norm(s)[..q] && !IsSpace(s[j - 1])
  {
    if IsSpace(s[0]) {
      j := PullBackPrefix(s[1..], q);
      j := j + 1;
      assert s[..j][1..] == s[1..][..j - 1];
    } else if q == 1 {
      j := 1;
    } else if |s| > 1 && !IsSpace(s[1]) {
      j := PullBackPrefix(s[1..], q - 1);
      j := j + 1;
      assert s[..j][1..] == s[1..][..j - 1];
    } else {
      assert Norm(s)[1] == ' ';
      j := PullBackPrefix(s[1..], q - 2);
      j := j + 1;
      assert s[..j][1..] == s[1..][..j - 1];
    }
  }

  lemma OccursInTail(t: string, n: string, p: nat, k: nat)
    requires OccursAt(t, n, p) && k <= p
    ensures OccursAt(t, n[k..], p - k)
  {
  }

  /** A piece of the normal form with visible ends is the normal form of a slice with visible ends. */
  lemma {:induction false} PullBack(s: string, t: string, p: nat) returns (i: nat, j: nat)
    requires Tight(t) && OccursAt(t, Norm(s), p)
    ensures i < j <= |s| && Norm(s[i..j]) == t && !IsSpace(s[i]) && !IsSpace(s[j - 1])
  {
    var n := Norm(s);
    if p == 0 && !IsSpace(s[0]) {
      i := 0;
      assert n[|t| - 1] == t[|t| - 1];
      j := PullBackPrefix(s, |t|);
      assert s[0..j] == s[..j];
    } else {
      var k := if IsSpace(s[0]) then 0 else if |s| > 1 && !IsSpace(s[1]) then 1 else 2;
      assert n[k..] == Norm(s[1..]);
      assert k <= p by {
        assert n[p] == t[0];
      }
      OccursInTail(t, n, p, k);
      i, j := PullBack(s[1..], t, p - k);
      assert s[1..][i..j] == s[i + 1..j + 1];
      i, j := i + 1, j + 1;
    }
  }

  // ---------------------------------------------------------------- the flexible pattern

  /** `body[i..e]` is matched, whole, by the escaped tokens joined with `\s+`. */
  ghost predicate FlexMatches(tokens: seq<string>, body: string, i: nat, e: nat)
    decreases |tokens|
  {
    && tokens != [] && OccursAt(tokens[0], body, i)
    && var j := i + |tokens[0]|;
       if |tokens| == 1 then j == e
       else exists k: nat :: Gap(body, j, k) && FlexMatches(tokens[1..], body, k, e)
  }

  /** At least one white space character, and nothing else, from `j` to `k`. */
  predicate Gap(body: string, j: nat, k: nat) {
    j < k <= |body| && forall n :: j <= n < k ==> IsSpace(body[n])
  }

  function SkipSpace(s: string, i: nat): (k: nat)
    requires i <= |s|
    ensures i <= k <= |s| && (k < |s| ==> !IsSpace(s[k]))
    ensures forall n :: i <= n < k ==> IsSpace(s[n])
    decreases |s| - i
  {
    if i < |s| && IsSpace(s[i]) then SkipSpace(s, i + 1) else i
  }

  /** Where the flexible pattern, tried at `i`, stops. */
  function FlexEnd(tokens: seq<string>, body: string, i: nat): (r: Option<nat>)
    requires tokens != [] && i <= |body|
    ensures r.Some? ==> i <= r.value <= |body|
    decreases |tokens|
  {
    if !OccursAt(tokens[0], body, i) then None
    else
      var j := i + |tokens[0]|;
      if |tokens| == 1 then Some(j)
      else
        var k := SkipSpace(body, j);
        if k == j then None else FlexEnd(tokens[1..], body, k)
  }

  ghost predicate ProperTokens(tokens: seq<string>) {
    tokens != [] && forall i :: 0 <= i < |tokens| ==> tokens[i] != "" && NoSpace(tokens[i])
  }

  lemma {:induction false} FlexMatchesVisible(tokens: seq<string>, body: string, i: nat, e: nat)
    requires ProperTokens(tokens) && FlexMatches(tokens, body, i, e)
    ensures i < e <= |body| && !IsSpace(body[i])
    decreases |tokens|
  {
    assert body[i] == body[i..i + |tokens[0]|][0];
    if |tokens| > 1 {
      var k: nat :| Gap(body, i + |tokens[0]|, k) && FlexMatches(tokens[1..], body, k, e);
      FlexMatchesVisible(tokens[1..], body, k, e);
    }
  }

  lemma {:induction false} FlexEndSound(tokens: seq<string>, body: string, i: nat)
    requires ProperTokens(tokens) && i <= |body| && FlexEnd(tokens, body, i).Some?
    ensures FlexMatches(tokens, body, i, FlexEnd(tokens, body, i).value)
    decreases |tokens|
  {
    if |tokens| > 1 {
      var j := i + |tokens[0]|;
      var k := SkipSpace(body, j);
      FlexEndSound(tokens[1..], body, k);
      assert Gap(body, j, k);
    }
  }

  /** The pattern has at most one match at a position, and `FlexEnd` finds it. */
  lemma {:induction false} FlexEndComplete(tokens: seq<string>, body: string, i: nat, e: nat)
    requires ProperTokens(tokens) && i <= e <= |body| && FlexMatches(tokens, body, i, e)
    ensures FlexEnd(tokens, body, i) == Some(e)
    decreases |tokens|
  {
    if |tokens| > 1 {
      var j := i + |tokens[0]|;
      var k: nat :| Gap(body, j, k) && FlexMatches(tokens[1..], body, k, e);
      FlexMatchesVisible(tokens[1..], body, k, e);
      assert SkipSpace(body, j) == k;
      FlexEndComplete(tokens[1..], body, k, e);
    }
  }

  lemma {:induction false} WordsOfPrefix(t: string, rest: string)
    requires t != "" && NoSpace(t) && (rest == "" || IsSpace(rest[0]))
    ensures Words(t + rest) == [t] + Words(rest)
  {
    var s := t + rest;
    assert s[1..] == t[1..] + rest;
    if |t| == 1 {
      assert s[1..] == rest;
      assert [s[0]] == t;
    } else {
      assert s[1] == t[1];
      WordsOfPrefix(t[1..], rest);
      assert [t[0]] + t[1..] == t;
    }
  }

  /** Leading white space contributes no word. */
  lemma {:induction false} WordsSkipSpace(body: string, j: nat, k: nat, e: nat)
    requires j <= k <= e <= |body| && forall n :: j <= n < k ==> IsSpace(body[n])
    ensures Words(body[j..e]) == Words(body[k..e])
    decreases k - j
  {
    if j < k {
      assert body[j..e][1..] == body[j + 1..e];
      WordsSkipSpace(body, j + 1, k, e);
    }
  }

  lemma WordsSplitAt(body: string, i: nat, j: nat, k: nat, e: nat)
    requires i < j < k <= e <= |body| && NoSpace(body[i..j]) && Gap(body, j, k)
    ensures Words(body[i..e]) == [body[i..j]] + Words(body[k..e])
  {
    assert body[i..e] == body[i..j] + body[j..e];
    WordsOfPrefix(body[i..j], body[j..e]);
    WordsSkipSpace(body, j, k, e);
  }

  lemma WordsOfOne(t: string)
    requires t != "" && NoSpace(t)
    ensures Words(t) == [t]
  {
    WordsOfPrefix(t, "");
    assert t + "" == t;
  }

  /** What matches the tokens has exactly those tokens as its words. */
  lemma {:induction false} FlexMatchesWords(tokens: seq<string>, body: string, i: nat, e: nat)
    requires ProperTokens(tokens) && FlexMatches(tokens, body, i, e)
    ensures i <= e <= |body| && Words(body[i..e]) == tokens
    decreases |tokens|
  {
    var t := tokens[0];
    var j := i + |t|;
    if |tokens| == 1 {
      WordsOfOne(t);
    } else {
      var k: nat :| Gap(body, j, k) && FlexMatches(tokens[1..], body, k, e);
      FlexMatchesVisible(tokens[1..], body, k, e);
      FlexMatchesWords(tokens[1..], body, k, e);
      WordsSplitAt(body, i, j, k, e);
    }
  }

  function WordEnd(s: string, i: nat): (e: nat)
    requires i <= |s|
    ensures i <= e <= |s| && (e < |s| ==> IsSpace(s[e]))
    ensures forall n :: i <= n < e ==> !IsSpace(s[n])
    ensures i < |s| && !IsSpace(s[i]) ==> i < e
    decreases |s| - i
  {
    if i < |s| && !IsSpace(s[i]) then WordEnd(s, i + 1) else i
  }

  lemma {:induction false} TightMatchesItsWords(body: string, i: nat, e: nat)
    requires i < e <= |body| && !IsSpace(body[i]) && !IsSpace(body[e - 1])
    ensures Words(body[i..e]) != [] && FlexMatches(Words(body[i..e]), body, i, e)
    decreases e - i
  {
    var we := WordEnd(body, i);
    if e <= we {
      WordsOfOne(body[i..e]);
    } else {
      var k := SkipSpace(body, we);
      assert Gap(body, we, k);
      assert k < e;
      WordsSplitAt(body, i, we, k, e);
      TightMatchesItsWords(body, k, e);
      var ws := Words(body[i..e]);
      assert ws[0] == body[i..we] && ws[1..] == Words(body[k..e]);
    }
  }

  /** The normal form is the words joined by one space. */
  lemma {:induction false} NormIsJoinedWords(s: string)
    ensures Norm(s) == Join(Words(s), " ")
    ensures Norm(s) == "" <==> Words(s) == []
  {
    if s != "" {
      NormIsJoinedWords(s[1..]);
      if !IsSpace(s[0]) {
        WordsNonEmpty(s);
        if |s| > 1 && !IsSpace(s[1]) {
          WordsNonEmpty(s[1..]);
          var w := Words(s[1..]);
          assert Words(s) == [[s[0]] + w[0]] + w[1..];
          assert Words(s)[1..] == w[1..];
        } else {
          assert Words(s)[1..] == Words(s[1..]);
        }
      }
    }
  }

  lemma {:induction false} WordsOfNorm(s: string)
    ensures Words(Norm(s)) == Words(s)
  {
    if s != "" {
      WordsOfNorm(s[1..]);
      NormTight(s[1..]);
      if !IsSpace(s[0]) {
        var n, r := Norm(s), Norm(s[1..]);
        if |s| > 1 && !IsSpace(s[1]) {
          assert n[1..] == r;
        } else if r == "" {
        } else {
          assert n[1..] == " " + r && n[1..][1..] == r;
        }
      }
    }
  }

  // ---------------------------------------------------------------- searching

  type Span = (nat, nat)

  /** What `re.finditer` is given: a literal, or the tokens of a span joined by `\s+`. */
  datatype Pattern = Literal(text: string) | Flexible(tokens: seq<string>) {
    predicate Valid() {
      Flexible? ==> tokens != []
    }

    /** Where a match tried at `i` stops. */
    function End(body: string, i: nat): (r: Option<nat>)
      requires Valid() && i <= |body|
      ensures r.Some? ==> i <= r.value <= |body|
    {
      match this
      case Literal(t) => if i + |t| <= |body| && body[i..i + |t|] == t then Some(i + |t|) else None
      case Flexible(ts) => FlexEnd(ts, body, i)
    }

    /** `re.search` (and `str.find`) from `i` on: the leftmost match. */
    function Search(body: string, i: nat): (r: Option<Span>)
      requires Valid() && i <= |body|
      ensures r.Some? ==> i <= r.value.0 <= r.value.1 <= |body| && End(body, r.value.0) == Some(r.value.1)
      ensures r.Some? ==> forall k :: i <= k < r.value.0 ==> End(body, k).None?
      ensures r.None? ==> forall k :: i <= k <= |body| ==> End(body, k).None?
      decreases |body| - i
    {
      if End(body, i).Some? then Some((i, End(body, i).value))
      else if i < |body| then Search(body, i + 1)
      else None
    }

    /** `re.finditer`: non-overlapping matches, left to right. */
    function FindAll(body: string, i: nat): (r: seq<Span>)
      requires Valid() && i <= |body|
      ensures r == [] <==> Search(body, i).None?
      ensures forall m :: m in r ==> m.0 <= m.1 <= |body| && End(body, m.0) == Some(m.1)
      decreases |body| - i
    {
      match Search(body, i)
      case None => []
      case Some(m) =>
        var next := if m.1 > i then m.1 else i + 1;
        [m] + if next <= |body| then FindAll(body, next) else []
    }
  }

  function Distance(m: Span, hint: int): nat {
    if m.0 < hint then hint - m.0 else m.0 - hint
  }

  /** `min(candidates, key=...)`: the first of the nearest. */
  function Nearest(candidates: seq<Span>, hint: int): (m: Span)
    requires candidates != []
    ensures m in candidates
    ensures forall c :: c in candidates ==> Distance(m, hint) <= Distance(c, hint)
    ensures exists k :: 0 <= k < |candidates| && candidates[k] == m
                        && forall j :: 0 <= j < k ==> Distance(candidates[j], hint) > Distance(m, hint)
  {
    if |candidates| == 1 then candidates[0]
    else
      var rest := Nearest(candidates[1..], hint);
      if Distance(candidates[0], hint) <= Distance(rest, hint) then candidates[0] else rest
  }

  function LocateSpan(span: string, body: string, hint: Option<int>): Option<Span> {
    var tokens := Words(span);
    match hint
    case None =>
      var exact := Literal(span).Search(body, 0);
      if exact.Some? then exact
      else if tokens == [] then None
      else Flexible(tokens).Search(body, 0)
    case Some(h) =>
      var candidates := Literal(span).FindAll(body, 0)
                        + if tokens == [] then [] else Flexible(tokens).FindAll(body, 0);
      if candidates == [] then None else Some(Nearest(candidates, h))
  }

  predicate SpanOccurs(span: string, body: string) {
    LocateSpan(span, body, None).Some?
  }

  // ---------------------------------------------------------------- the agreement

  /** A match of either pattern has the span's normal form. */
  lemma MatchHasNorm(span: string, body: string, p: Pattern, i: nat, j: nat)
    requires Words(span) != [] && (p == Literal(span) || p == Flexible(Words(span)))
    requires i <= |body| && p.End(body, i) == Some(j)
    ensures Norm(body[i..j]) == Norm(span)
  {
    if p.Flexible? {
      WordsAreVisible(span);
      FlexEndSound(p.tokens, body, i);
      FlexMatchesWords(p.tokens, body, i, j);
      NormIsJoinedWords(span);
      NormIsJoinedWords(body[i..j]);
    }
  }

  /** A body whose normal form contains the span's has a flexible match. */
  lemma FlexibleFinds(span: string, body: string)
    requires Words(span) != [] && IsSubstring(Norm(span), Norm(body))
    ensures Flexible(Words(span)).Search(body, 0).Some?
  {
    var p: nat :| OccursAt(Norm(span), Norm(body), p);
    assert Tight(Norm(span)) by { NormTight(span); NormIsJoinedWords(span); }
    var i, j := PullBack(body, Norm(span), p);
    var text := body[i..j];
    assert Words(text) == Words(span) by { WordsOfNorm(span); WordsOfNorm(text); }
    TightMatchesItsWords(body, i, j);
    WordsAreVisible(span);
    FlexEndComplete(Words(span), body, i, j);
    assert Flexible(Words(span)).End(body, i).Some?;
  }

  /** A hint chooses among occurrences; it never makes one appear or disappear. */
  lemma HintKeepsTheVerdict(span: string, body: string, hint: int)
    ensures LocateSpan(span, body, Some(hint)).Some? <==> LocateSpan(span, body, None).Some?
  {
  }

  /** Locating a span agrees with normalising both sides and searching, and the slice it
      returns is the span up to white space. */
  lemma LocateAgreesWithNormalizedSearch(span: string, body: string, hint: Option<int>)
    requires Words(span) != []
    ensures LocateSpan(span, body, hint).Some?
            <==> IsSubstring(NormalizeWhitespace(span), NormalizeWhitespace(body))
    ensures LocateSpan(span, body, hint).Some? ==>
              var (i, j) := LocateSpan(span, body, hint).value;
              i <= j <= |body| && NormalizeWhitespace(body[i..j]) == NormalizeWhitespace(span)
  {
    NormalizeIsNorm(span);
    NormalizeIsNorm(body);
    var r := LocateSpan(span, body, hint);
    if r.Some? {
      var (i, j) := r.value;
      var p := if Literal(span).End(body, i) == Some(j) then Literal(span) else Flexible(Words(span));
      MatchHasNorm(span, body, p, i, j);
      NormalizeIsNorm(body[i..j]);
      NormOfSlice(body, i, j);
    } else if IsSubstring(Norm(span), Norm(body)) {
      FlexibleFinds(span, body);
    }
  }

  /** Without a hint the leftmost exact occurrence wins over every reflowed one. */
  lemma ExactOccurrenceWins(span: string, body: string, p: nat)
    requires OccursAt(span, body, p)
    ensures LocateSpan(span, body, None).Some?
    ensures var (i, j) := LocateSpan(span, body, None).value;
            i <= p && OccursAt(span, body, i) && j == i + |span|
  {
    assert Literal(span).End(body, p).Some?;
  }

  // ---------------------------------------------------------------- which match a hint picks

  /** The listed matches of a pattern are matches, and every match starts at or inside one of them. */
  lemma {:induction false} FindAllMissesNone(p: Pattern, body: string, i: nat, k: nat)
    requires p.Valid() && i <= k <= |body| && p.End(body, k).Some?
    ensures exists m :: m in p.FindAll(body, i) && m.0 <= k && (m.0 == k || k < m.1)
    decreases |body| - i
  {
    var m := p.Search(body, i).value;
    assert m in p.FindAll(body, i);
    var next := if m.1 > i then m.1 else i + 1;
    if m.0 != k && m.1 <= k { FindAllMissesNone(p, body, next, k); }
  }

  /** From `lo` on, from left to right, none overlapping another. */
  predicate LeftToRight(ms: seq<Span>, lo: nat) {
    && (forall k :: 0 <= k < |ms| ==> lo <= ms[k].0)
    && forall j, k :: 0 <= j < k < |ms| ==> ms[j].0 < ms[k].0 && ms[j].1 <= ms[k].0
  }

  lemma LeftToRightCons(m: Span, rest: seq<Span>, lo: nat, next: nat)
    requires lo <= m.0 < next && m.1 <= next && LeftToRight(rest, next)
    ensures LeftToRight([m] + rest, lo)
  {
  }

  lemma {:induction false} FindAllIsLeftToRight(p: Pattern, body: string, i: nat)
    requires p.Valid() && i <= |body|
    ensures LeftToRight(p.FindAll(body, i), i)
    decreases |body| - i
  {
    var found := p.Search(body, i);
    if found.Some? {
      var m := found.value;
      var from := if m.1 > i then m.1 else i + 1;
      if from <= |body| {
        FindAllIsLeftToRight(p, body, from);
        LeftToRightCons(m, p.FindAll(body, from), i, from);
      } else {
        LeftToRightCons(m, [], i, m.1 + m.0 + 1);
      }
    }
  }

  /** A match that a hint may choose: an exact one, or one up to white space. */
  predicate Listed(m: Span, span: string, body: string) {
    m in Literal(span).FindAll(body, 0) || (Words(span) != [] && m in Flexible(Words(span)).FindAll(body, 0))
  }

  /** With a hint the result is a listed match, and none starts nearer to the hint. */
  lemma HintedIsNearest(span: string, body: string, hint: int, other: Span)
    requires Listed(other, span, body)
    ensures LocateSpan(span, body, Some(hint)).Some?
    ensures var m := LocateSpan(span, body, Some(hint)).value;
            Listed(m, span, body) && Abs(m.0 - hint) <= Abs(other.0 - hint)
  {
    var candidates := Literal(span).FindAll(body, 0)
                      + if Words(span) == [] then [] else Flexible(Words(span)).FindAll(body, 0);
    assert other in candidates;
    var m := Nearest(candidates, hint);
    assert Distance(m, hint) <= Distance(other, hint);
  }

  function Abs(n: int): nat {
    if n < 0 then -n else n
  }
}
