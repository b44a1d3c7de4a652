/** The faithfulness gate: span check, extractive coupling, entailment, in that order. */
module Gate {
  import opened Text
  import opened Faithfulness

  datatype Target = Version(id: string) | Snapshot(id: string)

  datatype Support = Support(target: Target, quotedSpan: string, bodyOffset: Option<int>)

  datatype Claim = Claim(text: string, support: seq<Support>)

  /** What the gate is given besides the answer: `str.casefold`, the regex class `\w`, the
      entailment scorer and its threshold. */
  datatype Judge = Judge(fold: string -> string, wordChar: char -> bool,
                         entailment: (string, string) -> real, threshold: real)

  // ---------------------------------------------------------------- step 1: spans

  /** `bodies.get(target_id, "")` */
  function BodyOf(bodies: map<string, string>, id: string): string {
    if id in bodies then bodies[id] else ""
  }

  predicate SpansVerified(claim: Claim, bodies: map<string, string>) {
    forall s :: s in claim.support ==> SpanOccurs(s.quotedSpan, BodyOf(bodies, s.target.id))
  }

  // ---------------------------------------------------------------- step 2: coupling

  const STOPWORDS := {"a", "an", "the", "is", "are", "was", "were", "be", "been", "being", "am"}
  const NEGATION_WORDS := {"not", "no", "never", "cannot", "nothing", "nobody", "none", "neither", "nor", "without"}

  function RunEnd(s: string, i: nat, inRun: char -> bool): (j: nat)
    requires i <= |s|
    ensures i <= j <= |s|
    decreases |s| - i
  {
    if i < |s| && inRun(s[i]) then RunEnd(s, i + 1, inRun) else i
  }

  /** `re.findall(r"[^\W_]+", s)` from `i` on, as a set. */
  function WordsFrom(s: string, i: nat, wordChar: char -> bool): set<string>
    requires i <= |s|
    decreases |s| - i
  {
    var j := RunEnd(s, i, (c: char) => wordChar(c) && c != '_');
    if i == |s| then {}
    else if i < j then {s[i..j]} + WordsFrom(s, j, wordChar)
    else WordsFrom(s, i + 1, wordChar)
  }

  function WordTokens(s: string, j: Judge): set<string> {
    WordsFrom(j.fold(s), 0, j.wordChar)
  }

  const APOSTROPHES := {'\'', '\U{2019}'}

  /** Where `\w+n['’]t\b` ends when tried at `i`: the run of word characters must end in `n`
      and be more than that. */
  function ContractionEnd(s: string, i: nat, wordChar: char -> bool): (e: Option<nat>)
    requires i <= |s|
    ensures e.Some? ==> i < e.value <= |s|
  {
    var r := RunEnd(s, i, wordChar);
    if r > i + 1 && s[r - 1] == 'n' && r + 1 < |s| && s[r] in APOSTROPHES && s[r + 1] == 't'
       && (r + 2 == |s| || !wordChar(s[r + 2]))
    then Some(r + 2)
    else None
  }

  function Contractions(s: string, i: nat, wordChar: char -> bool): set<string>
    requires i <= |s|
    decreases |s| - i
  {
    if i == |s| then {}
    else
      match ContractionEnd(s, i, wordChar)
      case Some(e) => {s[i..e]} + Contractions(s, e, wordChar)
      case None => Contractions(s, i + 1, wordChar)
  }

  /** The words of the folded text are folded again. */
  function NegationCues(s: string, j: Judge): set<string> {
    WordTokens(j.fold(s), j) * NEGATION_WORDS + Contractions(j.fold(s), 0, j.wordChar)
  }

  function Payload(claim: Claim, j: Judge): set<string> {
    WordTokens(claim.text, j) - STOPWORDS
  }

  predicate CoupledTo(claim: Claim, span: string, j: Judge) {
    && Payload(claim, j) <= WordTokens(span, j)
    && NegationCues(span, j) <= NegationCues(claim.text, j)
  }

  predicate ExtractivelyCoupled(claim: Claim, j: Judge) {
    Payload(claim, j) != {} && exists s :: s in claim.support && CoupledTo(claim, s.quotedSpan, j)
  }

  // ---------------------------------------------------------------- step 3: entailment

  function Quotes(support: seq<Support>): seq<string> {
    seq(|support|, k requires 0 <= k < |support| => support[k].quotedSpan)
  }

  predicate Entailed(claim: Claim, j: Judge) {
    j.entailment(Join(Quotes(claim.support), " "), claim.text) >= j.threshold
  }

  predicate Survives(claim: Claim, bodies: map<string, string>, j: Judge) {
    if !SpansVerified(claim, bodies) then false
    else if ExtractivelyCoupled(claim, j) then true
    else Entailed(claim, j)
  }

  function ApplyGate(claims: seq<Claim>, bodies: map<string, string>, j: Judge): seq<Claim> {
    if claims == [] then []
    else (if Survives(claims[0], bodies, j) then [claims[0]] else []) + ApplyGate(claims[1..], bodies, j)
  }

  // ---------------------------------------------------------------- what survives

  lemma {:induction false} SurvivorsSurvive(claims: seq<Claim>, bodies: map<string, string>, j: Judge, c: Claim)
    ensures c in ApplyGate(claims, bodies, j) <==> c in claims && Survives(c, bodies, j)
  {
    if claims != [] { SurvivorsSurvive(claims[1..], bodies, j, c); }
  }

  lemma {:induction false} GateOfConcat(a: seq<Claim>, b: seq<Claim>, bodies: map<string, string>, j: Judge)
    ensures ApplyGate(a + b, bodies, j) == ApplyGate(a, bodies, j) + ApplyGate(b, bodies, j)
  {
    if a == [] {
      assert a + b == b;
    } else {
      assert (a + b)[1..] == a[1..] + b;
      GateOfConcat(a[1..], b, bodies, j);
      var first := if Survives(a[0], bodies, j) then [a[0]] else [];
      ConcatAssociates(first, ApplyGate(a[1..], bodies, j), ApplyGate(b, bodies, j));
    }
  }

  /** A claim that survives keeps its place, after the survivors of the claims before it and before those
      of the claims after it; one that does not leaves no trace. */
  lemma SurvivorsKeepTheirOrder(before: seq<Claim>, c: Claim, after: seq<Claim>, bodies: map<string, string>, j: Judge)
    ensures ApplyGate(before + [c] + after, bodies, j)
            == ApplyGate(before, bodies, j) + (if Survives(c, bodies, j) then [c] else []) + ApplyGate(after, bodies, j)
    ensures ApplyGate([], bodies, j) == []
  {
    GateOfConcat(before + [c], after, bodies, j);
    GateOfConcat(before, [c], bodies, j);
    assert [c][1..] == [];
    EmptyIsUnit(if Survives(c, bodies, j) then [c] else []);
  }

  lemma {:induction false} NothingOccursInEmpty(span: string)
    requires span != ""
    ensures !SpanOccurs(span, "")
  {
    if Words(span) != [] {
      LocateAgreesWithNormalizedSearch(span, "", None);
      WordsNonEmptyNorm(span);
    }
  }

  lemma WordsNonEmptyNorm(span: string)
    requires Words(span) != []
    ensures NormalizeWhitespace(span) != "" && NormalizeWhitespace("") == ""
    ensures !IsSubstring(NormalizeWhitespace(span), "")
  {
    NormalizeIsNorm(span);
    NormTight(span);
    NormIsJoinedWords(span);
    WordsAreVisible(span);
  }

  /** Fail closed: a claim that cites a body the gate was not given is dropped, whatever the
      scorer says of it. */
  lemma MissingBodyDropsTheClaim(claim: Claim, k: nat, bodies: map<string, string>, j: Judge)
    requires k < |claim.support| && claim.support[k].target.id !in bodies && claim.support[k].quotedSpan != ""
    ensures !Survives(claim, bodies, j)
  {
    NothingOccursInEmpty(claim.support[k].quotedSpan);
    assert claim.support[k] in claim.support;
  }

  predicate InWord(c: char, wordChar: char -> bool) {
    wordChar(c) && c != '_'
  }

  /** `s[a..b]` is a whole word: visible on its own, not part of a longer one. */
  predicate IsWholeWord(s: string, a: nat, b: nat, wordChar: char -> bool) {
    && a < b <= |s|
    && (forall k :: a <= k < b ==> InWord(s[k], wordChar))
    && (a == 0 || !InWord(s[a - 1], wordChar))
    && (b == |s| || !InWord(s[b], wordChar))
  }

  ghost predicate HasWord(s: string, from: nat, w: string, wordChar: char -> bool) {
    exists a: nat, b: nat :: from <= a && IsWholeWord(s, a, b, wordChar) && w == s[a..b]
  }

  lemma {:induction false} RunEndIsMaximal(s: string, i: nat, inRun: char -> bool)
    requires i <= |s|
    ensures var e := RunEnd(s, i, inRun);
            (forall k :: i <= k < e ==> inRun(s[k])) && (e < |s| ==> !inRun(s[e]))
    decreases |s| - i
  {
    if i < |s| && inRun(s[i]) { RunEndIsMaximal(s, i + 1, inRun); }
  }

  /** The word set is exactly the whole words: no piece of a longer run is in it. */
  lemma {:induction false} WordsAreWholeWords(s: string, i: nat, wordChar: char -> bool, w: string)
    requires i <= |s| && (i == 0 || i == |s| || !InWord(s[i - 1], wordChar) || !InWord(s[i], wordChar))
    ensures w in WordsFrom(s, i, wordChar) <==> HasWord(s, i, w, wordChar)
    decreases |s| - i
  {
    var e := RunEnd(s, i, (c: char) => wordChar(c) && c != '_');
    RunEndIsMaximal(s, i, (c: char) => wordChar(c) && c != '_');
    if i < e {
      assert IsWholeWord(s, i, e, wordChar);
      WordsAreWholeWords(s, e, wordChar, w);
      if HasWord(s, i, w, wordChar) {
        var a: nat, b: nat :| i <= a && IsWholeWord(s, a, b, wordChar) && w == s[a..b];
        RunIsOneWord(s, i, e, a, b, wordChar);
      }
    } else if i < |s| {
      assert !InWord(s[i], wordChar);
      WordsAreWholeWords(s, i + 1, wordChar, w);
    }
  }

  /** A whole word that does not start after a whole word is that word. */
  lemma RunIsOneWord(s: string, i: nat, e: nat, a: nat, b: nat, wordChar: char -> bool)
    requires IsWholeWord(s, i, e, wordChar) && IsWholeWord(s, a, b, wordChar) && i <= a
    ensures e <= a || (a == i && b == e)
  {
  }

  /** `s[a..b]` is a run of word characters that ends in `n`, an apostrophe and a final `t`. */
  predicate IsContraction(s: string, a: nat, b: nat, wordChar: char -> bool) {
    && a + 4 <= b <= |s|
    && (a == 0 || !wordChar(s[a - 1]))
    && (forall k :: a <= k < b - 2 ==> wordChar(s[k]))
    && s[b - 3] == 'n'
    && (s[b - 2] == '\'' || s[b - 2] == '\U{2019}') && !wordChar(s[b - 2])
    && s[b - 1] == 't' && (b == |s| || !wordChar(s[b]))
  }

  ghost predicate HasContraction(s: string, from: nat, w: string, wordChar: char -> bool) {
    exists a: nat, b: nat :: from <= a && IsContraction(s, a, b, wordChar) && w == s[a..b]
  }

  lemma {:induction false} RunWithout(s: string, i: nat, m: nat, wordChar: char -> bool)
    requires i <= m <= |s| && m <= RunEnd(s, i, wordChar) && ContractionEnd(s, i, wordChar).None?
    ensures RunEnd(s, m, wordChar) == RunEnd(s, i, wordChar)
    ensures Contractions(s, m, wordChar) == Contractions(s, i, wordChar)
    decreases m - i
  {
    if i < m { RunWithout(s, i + 1, m, wordChar); }
  }

  lemma ContractionAtRun(s: string, i: nat, wordChar: char -> bool)
    requires i < |s| && wordChar(s[i]) && (i == 0 || !wordChar(s[i - 1]))
    ensures match ContractionEnd(s, i, wordChar)
            case Some(e) => IsContraction(s, i, e, wordChar)
            case None => forall b: nat :: !IsContraction(s, i, b, wordChar)
  {
    var r := RunEnd(s, i, wordChar);
    RunEndIsMaximal(s, i, wordChar);
    forall b: nat | IsContraction(s, i, b, wordChar)
      ensures r == b - 2
    {
      assert forall k :: i <= k < r ==> s[k] != s[b - 2] && k != b - 2;
    }
  }

  lemma ContractionsDoNotOverlap(s: string, i: nat, e: nat, a: nat, b: nat, wordChar: char -> bool)
    requires IsContraction(s, i, e, wordChar) && IsContraction(s, a, b, wordChar) && i <= a
    ensures e <= a || (a == i && b == e)
  {
  }

  lemma RunStartsOnce(s: string, i: nat, a: nat, b: nat, wordChar: char -> bool)
    requires i < |s| && i < a && IsContraction(s, a, b, wordChar)
    ensures RunEnd(s, i, wordChar) <= a
  {
    RunEndIsMaximal(s, i, wordChar);
  }

  /** The contractions found are exactly those of whole runs of word characters. */
  lemma {:induction false} ContractionsAre(s: string, i: nat, wordChar: char -> bool, w: string)
    requires i <= |s| && (i == 0 || i == |s| || !wordChar(s[i - 1]) || !wordChar(s[i]))
    ensures w in Contractions(s, i, wordChar) <==> HasContraction(s, i, w, wordChar)
    decreases |s| - i
  {
    if i < |s| {
      var r := RunEnd(s, i, wordChar);
      RunEndIsMaximal(s, i, wordChar);
      if r == i {
        ContractionsAre(s, i + 1, wordChar, w);
      } else {
        ContractionAtRun(s, i, wordChar);
        match ContractionEnd(s, i, wordChar)
        case Some(e) =>
          ContractionsAre(s, e, wordChar, w);
          AfterFirstContraction(s, i, e, w, wordChar);
        case None =>
          RunWithout(s, i, r, wordChar);
          ContractionsAre(s, r, wordChar, w);
          WithoutFirstContraction(s, i, r, w, wordChar);
      }
    }
  }

  lemma AfterFirstContraction(s: string, i: nat, e: nat, w: string, wordChar: char -> bool)
    requires IsContraction(s, i, e, wordChar)
    ensures HasContraction(s, i, w, wordChar) <==> w == s[i..e] || HasContraction(s, e, w, wordChar)
  {
    forall a: nat, b: nat | i <= a && IsContraction(s, a, b, wordChar)
      ensures e <= a || (a == i && b == e)
    {
      ContractionsDoNotOverlap(s, i, e, a, b, wordChar);
    }
  }

  lemma WithoutFirstContraction(s: string, i: nat, r: nat, w: string, wordChar: char -> bool)
    requires i < |s| && r == RunEnd(s, i, wordChar) && forall b: nat :: !IsContraction(s, i, b, wordChar)
    ensures HasContraction(s, i, w, wordChar) <==> HasContraction(s, r, w, wordChar)
  {
    forall a: nat, b: nat | i <= a && IsContraction(s, a, b, wordChar)
      ensures r <= a
    {
      RunStartsOnce(s, i, a, b, wordChar);
    }
  }

  /** The negation word or negative contraction `w` stands in `s`. */
  ghost predicate Negates(s: string, w: string, j: Judge) {
    || (w in NEGATION_WORDS && HasWord(j.fold(j.fold(s)), 0, w, j.wordChar))
    || HasContraction(j.fold(s), 0, w, j.wordChar)
  }

  /** The claim has a word the quote lacks, or the quote negates where the claim does not. */
  ghost predicate Drifts(claim: Claim, span: string, j: Judge) {
    var c, q := j.fold(claim.text), j.fold(span);
    || (exists w :: w !in STOPWORDS && HasWord(c, 0, w, j.wordChar) && !HasWord(q, 0, w, j.wordChar))
    || (exists w :: Negates(span, w, j) && !Negates(claim.text, w, j))
  }

  lemma CuesNegate(s: string, w: string, j: Judge)
    ensures w in NegationCues(s, j) <==> Negates(s, w, j)
  {
    WordsAreWholeWords(j.fold(j.fold(s)), 0, j.wordChar, w);
    ContractionsAre(j.fold(s), 0, j.wordChar, w);
  }

  lemma PayloadIsWords(claim: Claim, w: string, j: Judge)
    ensures w in Payload(claim, j) <==> w !in STOPWORDS && HasWord(j.fold(claim.text), 0, w, j.wordChar)
  {
    WordsAreWholeWords(j.fold(claim.text), 0, j.wordChar, w);
  }

  /** Coupling is the absence of drift, in both directions. */
  lemma CoupledIffNoDrift(claim: Claim, span: string, j: Judge)
    ensures CoupledTo(claim, span, j) <==> !Drifts(claim, span, j)
  {
    forall w
      ensures w in Payload(claim, j) <==> w !in STOPWORDS && HasWord(j.fold(claim.text), 0, w, j.wordChar)
      ensures w in WordTokens(span, j) <==> HasWord(j.fold(span), 0, w, j.wordChar)
      ensures w in NegationCues(span, j) <==> Negates(span, w, j)
      ensures w in NegationCues(claim.text, j) <==> Negates(claim.text, w, j)
    {
      PayloadIsWords(claim, w, j);
      WordsAreWholeWords(j.fold(span), 0, j.wordChar, w);
      CuesNegate(span, w, j);
      CuesNegate(claim.text, w, j);
    }
  }

  ghost predicate SaysSomething(claim: Claim, j: Judge) {
    exists w :: w !in STOPWORDS && HasWord(j.fold(claim.text), 0, w, j.wordChar)
  }

  /** The gate's decision in terms of the texts: every quote occurs in its body, and either the claim says
      something from which some quote does not drift, or the scorer reaches the threshold. */
  lemma SurvivesIff(claim: Claim, bodies: map<string, string>, j: Judge)
    ensures Survives(claim, bodies, j) <==>
            && (forall s :: s in claim.support ==>
                  SpanOccurs(s.quotedSpan, if s.target.id in bodies then bodies[s.target.id] else ""))
            && (|| (SaysSomething(claim, j) && exists s :: s in claim.support && !Drifts(claim, s.quotedSpan, j))
                || j.entailment(Join(Quotes(claim.support), " "), claim.text) >= j.threshold)
  {
    forall s | s in claim.support
      ensures CoupledTo(claim, s.quotedSpan, j) <==> !Drifts(claim, s.quotedSpan, j)
    {
      CoupledIffNoDrift(claim, s.quotedSpan, j);
    }
    forall w
      ensures w in Payload(claim, j) <==> w !in STOPWORDS && HasWord(j.fold(claim.text), 0, w, j.wordChar)
    {
      PayloadIsWords(claim, w, j);
    }
    assert Payload(claim, j) != {} <==> exists w :: w in Payload(claim, j);
  }

  /** A drifted number, name or negation reaches the reader only past the scorer. */
  lemma DriftNeedsTheScorer(claim: Claim, bodies: map<string, string>, j: Judge)
    requires Survives(claim, bodies, j)
    requires forall s :: s in claim.support ==> Drifts(claim, s.quotedSpan, j)
    ensures j.entailment(Join(Quotes(claim.support), " "), claim.text) >= j.threshold
  {
    SurvivesIff(claim, bodies, j);
  }
}
