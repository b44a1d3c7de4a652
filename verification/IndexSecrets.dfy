/** When the index legs hold a secret, and when they hold one text. */
module IndexSecrets {
  import opened Text
  import opened IndexLegs
  import C = Chunking
  import R = Redact

  // ---------------------------------------------------------------- redaction shows

  /** `u` leaves `t` first at `d`, where it has a bracket that `t` has not. */
  predicate Diverges(t: string, u: string, d: nat) {
    && d < |t| && d < |u| && (forall k :: 0 <= k < d ==> t[k] == u[k])
    && u[d] == '[' && t[d] != '['
  }

  lemma DivergesLater(c: char, t: string, u: string, d: nat)
    requires Diverges(t, u, d)
    ensures Diverges([c] + t, [c] + u, d + 1)
  {
  }

  lemma {:induction false} SubstitutionDiverges(p: R.Pattern, t: string, i: nat) returns (d: nat)
    requires R.Good(p) && i <= |t|
    ensures R.SubN(p, t, i).0 == t[i..] || Diverges(t[i..], R.SubN(p, t, i).0, d)
    decreases |t| - i
  {
    d := 0;
    if i < |t| {
      if R.MatchesFrom(p, t, i) {
        R.MatchBecomesMarker(p, t, i);
        assert R.MatchAt(p, t, i, p.pick(t, i));
        assert t[i] == t[i..p.pick(t, i)][0];
      } else {
        var rest := SubstitutionDiverges(p, t, i + 1);
        var u := R.SubN(p, t, i + 1).0;
        SliceSplits(t, i, i + 1, |t|);
        if u != t[i + 1..] { DivergesLater(t[i], t[i + 1..], u, rest); }
        d := rest + 1;
      }
    }
  }

  lemma DivergesOnce(t: string, u: string, v: string, a: nat, b: nat) returns (d: nat)
    requires (u == t || Diverges(t, u, a)) && (v == u || Diverges(u, v, b))
    ensures v == t || Diverges(t, v, d)
  {
    d := if u == t then b else if v == u || a < b then a else b;
  }

  /** Redaction that changes a text puts a bracket where the text first changes. */
  lemma {:induction false} RedactionDiverges(t: string, ps: seq<R.Pattern>) returns (d: nat)
    requires forall p :: p in ps ==> R.Good(p)
    ensures R.Redacted(t, ps).0 == t || Diverges(t, R.Redacted(t, ps).0, d)
  {
    d := 0;
    if ps != [] {
      var init, last := ps[..|ps| - 1], ps[|ps| - 1];
      var a := RedactionDiverges(t, init);
      var u := R.Redacted(t, init).0;
      var b := SubstitutionDiverges(last, u, 0);
      assert u[0..] == u;
      d := DivergesOnce(t, u, R.SubN(last, u, 0).0, a, b);
    }
  }

  lemma SameSliceSameChar(a: string, b: string, s: nat, e: nat, d: nat)
    requires s <= d < e <= |a| && e <= |b| && a[s..e] == b[s..e]
    ensures a[d] == b[d]
  {
    assert a[s..e][d - s] == a[d] && b[s..e][d - s] == b[d];
  }

  /** Where a passage stands, read off its own range. */
  lemma PassagePlace(body: string, target: string, c: C.ChunkSettings, k: nat) returns (s: nat, e: nat)
    requires c.thresholdTokens > 0 && k < |C.Chunks(body, target, c)|
    ensures |C.PassageSpans(body, c)| == |C.Chunks(body, target, c)| && C.PassageSpans(body, c)[k] == (s, e)
    ensures s <= e <= |body| && C.Chunks(body, target, c)[k].text == body[s..e]
    ensures C.ParseCharRange(Some(C.Chunks(body, target, c)[k].charRange)) == Some((s, e))
  {
    C.PassagesAreWellCut(body, target, c, k);
    var span := C.PassageSpans(body, c)[k];
    s, e := span.0, span.1;
  }

  /** Bodies with the same passages have the same visible characters in the same places. */
  lemma SamePassagesSameText(a: string, b: string, target: string, c: C.ChunkSettings, d: nat)
    requires c.thresholdTokens > 0 && C.Chunks(a, target, c) == C.Chunks(b, target, c)
    requires d < |b| && !IsSpace(b[d])
    ensures d < |a| && a[d] == b[d]
  {
    var k := C.VisibleIsInAPassage(b, c, d);
    C.ChunkCount(b, target, c);
    var s, e := PassagePlace(b, target, c, k);
    var s', e' := PassagePlace(a, target, c, k);
    SameSliceSameChar(a, b, s, e, d);
  }

  /** Redaction leaves the passages of a body as they are if and only if no pattern matches the body. */
  lemma UnchangedIffClean(body: string, target: string, c: C.ChunkSettings, ps: seq<R.Pattern>)
    requires c.thresholdTokens > 0 && forall p :: p in ps ==> R.Good(p)
    ensures C.Chunks(body, target, c) == C.Chunks(R.Redacted(body, ps).0, target, c)
            <==> forall p :: p in ps ==> R.Clean(p, body)
  {
    var out := R.Redacted(body, ps).0;
    if C.Chunks(body, target, c) == C.Chunks(out, target, c) {
      var d := RedactionDiverges(body, ps);
      if out != body { SamePassagesSameText(body, out, target, c, d); }
      forall p | p in ps ensures R.Clean(p, body) {
        var k :| 0 <= k < |ps| && ps[k] == p;
        R.RedactionIsComplete(body, ps, k);
      }
    }
    if forall p :: p in ps ==> R.Clean(p, body) {
      R.CleanTextIsFixed(body, ps);
    }
  }

  ghost predicate GoodWorld(w: World) {
    && w.settings.thresholdTokens > 0 && (forall ts :: |w.embed(ts)| == |ts|)
    && forall p :: p in w.patterns ==> R.Good(p)
  }

  /** The legs agree after every run that has indexed and embedded a version if and only if no index
      pattern matches its stored body. */
  lemma LegsAlwaysAgreeIffClean(t: Tables, w: World, target: string)
    requires GoodWorld(w) && w.body(target).Some? && ColonFree(target) && Ready(t, ContentOf(w), target)
    ensures Sound(ContentOf(w))
    ensures (forall ops :: Complete(ops, target) ==> Agree(Run(t, ContentOf(w), ops), ContentOf(w), target))
            <==> forall p :: p in w.patterns ==> R.Clean(p, w.body(target).value)
  {
    ContentIsSound(w);
    LegsAlwaysAgreeIffUnchanged(t, ContentOf(w), target);
    UnchangedIffClean(w.body(target).value, target, w.settings, w.patterns);
  }

  // ---------------------------------------------------------------- what the rows hold

  /** No index pattern matches. */
  ghost predicate NoSecret(w: World, s: string) {
    forall p :: p in w.patterns ==> R.Clean(p, s)
  }

  lemma SliceHoldsNoSecret(w: World, s: string, a: nat, b: nat)
    requires a <= b <= |s| && NoSecret(w, s)
    ensures NoSecret(w, s[a..b])
  {
    forall p, i: nat, e: nat | p in w.patterns
      ensures !R.MatchAt(p, s[a..b], i, e)
    {
      if R.MatchAt(p, s[a..b], i, e) {
        SliceOfSlice(s, a, b, i, e);
        assert R.MatchAt(p, s, a + i, a + e);
      }
    }
  }

  lemma RedactedPassagesHoldNoSecret(w: World, target: string, k: nat)
    requires GoodWorld(w) && k < |RedactedPassages(w, target)|
    ensures NoSecret(w, RedactedPassages(w, target)[k].text) && NoSecret(w, RedactedPassages(w, target)[k].parentBlock)
  {
    var body := Redacted(w, w.body(target).value);
    forall p | p in w.patterns ensures R.Clean(p, body) {
      var j :| 0 <= j < |w.patterns| && w.patterns[j] == p;
      R.RedactionIsComplete(w.body(target).value, w.patterns, j);
    }
    var s, e, i, j := C.PassagesAreSlices(body, target, w.settings, k);
    SliceHoldsNoSecret(w, body, s, e);
    SliceHoldsNoSecret(w, body, i, j);
  }

  /** Without a raw run every row of a version comes from one of its redacted passages. */
  lemma RowsComeFromRedacted(t: Tables, c: Content, ops: seq<Op>, target: string)
    requires Sound(c) && ColonFree(target) && AllColonFree(ops) && Keyed(t.passages)
    requires RowsOf(t.passages, target) == map[] && Of(t.fts, target) == [] && !Repaired(ops, target)
    ensures var r, ps := Run(t, c, ops), c.redacted(target);
            && (forall id :: id in RowsOf(r.passages, target) ==> RowsOf(r.passages, target)[id] in ps)
            && (forall row :: row in Of(r.fts, target) ==> row.value in Texts(ps))
  {
    var ps := c.redacted(target);
    assert Numbered(ps, target);
    LegsConverge(t, c, ops, target);
    LastsFit(ops, target);
    Untouched(ops, target);
    ByIdLists(ps, target);
    FtsValuesAreTexts(ps);
  }

  lemma FtsValuesAreTexts(ps: seq<C.Passage>)
    ensures forall row :: row in FtsRows(ps) ==> row.value in Texts(ps)
  {
    forall row | row in FtsRows(ps) ensures row.value in Texts(ps) {
      var k :| 0 <= k < |FtsRows(ps)| && FtsRows(ps)[k] == row;
      assert Texts(ps)[k] == row.value;
    }
  }

  ghost predicate HoldsNoSecret(w: World, p: C.Passage) {
    NoSecret(w, p.text) && NoSecret(w, p.parentBlock)
  }

  /** As long as no raw run of a version happens, none of its passage rows and FTS rows holds a match
      of an index pattern, and nothing that is embedded does. */
  lemma NoRawRunNoSecret(t: Tables, w: World, ops: seq<Op>, target: string)
    requires GoodWorld(w) && ColonFree(target) && AllColonFree(ops) && Keyed(t.passages)
    requires RowsOf(t.passages, target) == map[] && Of(t.fts, target) == [] && !Repaired(ops, target)
    ensures Sound(ContentOf(w))
    ensures var r := Run(t, ContentOf(w), ops);
            && (forall id :: id in RowsOf(r.passages, target) ==> HoldsNoSecret(w, RowsOf(r.passages, target)[id]))
            && (forall row :: row in Of(r.fts, target) ==> NoSecret(w, row.value))
            && forall text :: text in Texts(RedactedPassages(w, target)) ==> NoSecret(w, text)
  {
    ContentIsSound(w);
    RowsComeFromRedacted(t, ContentOf(w), ops, target);
    NoTextHoldsASecret(w, target);
  }

  lemma NoTextHoldsASecret(w: World, target: string)
    requires GoodWorld(w)
    ensures forall p :: p in ContentOf(w).redacted(target) ==> HoldsNoSecret(w, p)
    ensures forall text :: text in Texts(ContentOf(w).redacted(target)) ==> NoSecret(w, text)
  {
    var ps := RedactedPassages(w, target);
    assert ContentOf(w).redacted(target) == ps;
    forall k | 0 <= k < |ps| ensures HoldsNoSecret(w, ps[k]) {
      RedactedPassagesHoldNoSecret(w, target, k);
    }
  }

  // ---------------------------------------------------------------- exactly when the rows hold none

  /** No FTS row of the version holds a match. */
  ghost predicate FtsClean(t: Tables, w: World, target: string) {
    forall row :: row in Of(t.fts, target) ==> NoSecret(w, row.value)
  }

  ghost predicate MapClean(w: World, m: Passages) {
    forall id :: id in m ==> HoldsNoSecret(w, m[id])
  }

  /** No passage row of the version holds a match, in its text or its parent block. */
  ghost predicate RowsClean(t: Tables, w: World, target: string) {
    MapClean(w, RowsOf(t.passages, target))
  }

  /** No passage of the stored body, chunked as it is, holds a match in its text. */
  ghost predicate RawTextsClean(w: World, target: string)
    requires w.settings.thresholdTokens > 0
  {
    forall text :: text in Texts(RawPassages(w, target)) ==> NoSecret(w, text)
  }

  ghost predicate AllClean(w: World, ps: seq<C.Passage>, lo: nat) {
    forall k :: lo <= k < |ps| ==> HoldsNoSecret(w, ps[k])
  }

  lemma FtsRowsCleanIff(w: World, ps: seq<C.Passage>)
    ensures (forall row :: row in FtsRows(ps) ==> NoSecret(w, row.value))
            <==> forall text :: text in Texts(ps) ==> NoSecret(w, text)
  {
    FtsValuesAreTexts(ps);
    forall text | text in Texts(ps)
      ensures exists row :: row in FtsRows(ps) && row.value == text
    {
      var k :| 0 <= k < |Texts(ps)| && Texts(ps)[k] == text;
      assert FtsRows(ps)[k].value == text;
    }
  }

  /** Exactly when the searchable text of a version holds no secret: its last lexical run was a save,
      or no passage of the stored body matches a pattern. */
  lemma FtsIsCleanIff(t: Tables, w: World, ops: seq<Op>, target: string)
    requires GoodWorld(w) && ColonFree(target) && AllColonFree(ops) && Ready(t, ContentOf(w), target)
    requires FtsClean(t, w, target)
    ensures Sound(ContentOf(w))
    ensures FtsClean(Run(t, ContentOf(w), ops), w, target)
            <==> LastLexical(ops, target) != Some(Repair) || RawTextsClean(w, target)
  {
    ContentIsSound(w);
    LegsConverge(t, ContentOf(w), ops, target);
    LastsFit(ops, target);
    NoTextHoldsASecret(w, target);
    FtsRowsCleanIff(w, RedactedPassages(w, target));
    FtsRowsCleanIff(w, RawPassages(w, target));
  }

  /** The searchable text holds no secret after every run if and only if no passage of the stored body
      matches a pattern. */
  lemma FtsIsAlwaysCleanIff(t: Tables, w: World, target: string)
    requires GoodWorld(w) && ColonFree(target) && Ready(t, ContentOf(w), target) && FtsClean(t, w, target)
    ensures Sound(ContentOf(w))
    ensures (forall ops :: AllColonFree(ops) ==> FtsClean(Run(t, ContentOf(w), ops), w, target))
            <==> RawTextsClean(w, target)
  {
    ContentIsSound(w);
    forall ops | AllColonFree(ops)
      ensures FtsClean(Run(t, ContentOf(w), ops), w, target)
              <==> LastLexical(ops, target) != Some(Repair) || RawTextsClean(w, target)
    {
      FtsIsCleanIff(t, w, ops, target);
    }
    EmbedThenRepairIsComplete(target);
  }

  lemma MergeClean(w: World, a: Passages, b: Passages)
    requires MapClean(w, a)
    ensures MapClean(w, a + b) <==> MapClean(w, b)
  {
    assert forall id :: id in b ==> (a + b)[id] == b[id];
  }

  lemma ByIdCleanIff(w: World, ps: seq<C.Passage>, target: string)
    requires ColonFree(target) && Numbered(ps, target)
    ensures MapClean(w, ById(ps)) <==> AllClean(w, ps, 0)
  {
    ByIdLists(ps, target);
    if AllClean(w, ps, 0) {
      forall id | id in ById(ps) ensures HoldsNoSecret(w, ById(ps)[id]) {
        var k :| 0 <= k < |ps| && ps[k].passageId == id;
      }
    }
    if MapClean(w, ById(ps)) {
      forall k | 0 <= k < |ps| ensures HoldsNoSecret(w, ps[k]) {
        assert ById(ps)[ps[k].passageId] == ps[k];
      }
    }
  }

  /** Clean passages written over others leave those with a higher number. */
  lemma OverwrittenCleanIff(w: World, raw: seq<C.Passage>, red: seq<C.Passage>, target: string)
    requires ColonFree(target) && Numbered(raw, target) && Numbered(red, target) && MapClean(w, ById(red))
    ensures MapClean(w, ById(raw) + ById(red)) <==> AllClean(w, raw, |red|)
  {
    ByIdLists(raw, target);
    ByIdLists(red, target);
    var m := ById(raw) + ById(red);
    forall k | |red| <= k < |raw| ensures raw[k].passageId in m && m[raw[k].passageId] == raw[k] {
      if raw[k].passageId in ById(red) {
        var i :| 0 <= i < |red| && red[i].passageId == raw[k].passageId;
        PassageIdsAreUnique(target, i, target, k);
      }
    }
    assert forall k :: 0 <= k < |red| ==> red[k].passageId in ById(red);
    if AllClean(w, raw, |red|) {
      forall id | id in m ensures HoldsNoSecret(w, m[id]) {
        if id !in ById(red) {
          var k :| 0 <= k < |raw| && raw[k].passageId == id;
        }
      }
    }
  }

  lemma SettledCleanIff(w: World, before: Passages, a: Passages, b: Passages, rest: bool, ops: seq<Op>, target: string)
    requires MapClean(w, before) && MapClean(w, a) && (MapClean(w, b + a) <==> rest)
    ensures MapClean(w, Settled(before, a, b, ops, target))
            <==> !Repaired(ops, target) || if LastOf(ops, target) == Some(Repair) then MapClean(w, b) else rest
  {
    Untouched(ops, target);
    MergeClean(w, before, b);
    MergeClean(w, a, b);
  }

  /** Exactly when the passage rows of a version hold no secret. Without a repair they never do. After
      one they hold none if and only if none is in the raw passages, all of them where the repair was
      the last run, and where a redacted run came later those that it did not write over. */
  lemma RowsAreCleanIff(t: Tables, w: World, ops: seq<Op>, target: string)
    requires GoodWorld(w) && ColonFree(target) && AllColonFree(ops) && Ready(t, ContentOf(w), target)
    requires RowsClean(t, w, target)
    ensures Sound(ContentOf(w))
    ensures RowsClean(Run(t, ContentOf(w), ops), w, target)
            <==> !Repaired(ops, target)
                 || AllClean(w, RawPassages(w, target),
                             if LastOf(ops, target) == Some(Repair) then 0 else |RedactedPassages(w, target)|)
  {
    ContentIsSound(w);
    PassagesAreNumbered(w, target);
    var red, raw := RedactedPassages(w, target), RawPassages(w, target);
    NoTextHoldsASecret(w, target);
    ByIdCleanIff(w, red, target);
    ByIdCleanIff(w, raw, target);
    LegsConverge(t, ContentOf(w), ops, target);
    OverwrittenCleanIff(w, raw, red, target);
    SettledCleanIff(w, RowsOf(t.passages, target), ById(red), ById(raw), AllClean(w, raw, |red|), ops, target);
  }

  /** The passage rows hold no secret after every run if and only if no passage of the stored body holds
      one, in its text or its parent block. */
  lemma RowsAreAlwaysCleanIff(t: Tables, w: World, target: string)
    requires GoodWorld(w) && ColonFree(target) && Ready(t, ContentOf(w), target) && RowsClean(t, w, target)
    ensures Sound(ContentOf(w))
    ensures (forall ops :: AllColonFree(ops) ==> RowsClean(Run(t, ContentOf(w), ops), w, target))
            <==> AllClean(w, RawPassages(w, target), 0)
  {
    ContentIsSound(w);
    forall ops | AllColonFree(ops)
      ensures AllClean(w, RawPassages(w, target), 0) ==> RowsClean(Run(t, ContentOf(w), ops), w, target)
    {
      RowsAreCleanIff(t, w, ops, target);
    }
    EmbedThenRepairIsComplete(target);
    RowsAreCleanIff(t, w, EmbedThenRepair(target), target);
  }

  /** A stored body that no pattern matches has no such passage. */
  lemma CleanBodyIsEnough(w: World, target: string)
    requires GoodWorld(w) && w.body(target).Some? && NoSecret(w, w.body(target).value)
    ensures AllClean(w, RawPassages(w, target), 0) && RawTextsClean(w, target)
  {
    var body, ps := w.body(target).value, RawPassages(w, target);
    forall k | 0 <= k < |ps| ensures HoldsNoSecret(w, ps[k]) {
      var s, e, i, j := C.PassagesAreSlices(body, target, w.settings, k);
      SliceHoldsNoSecret(w, body, s, e);
      SliceHoldsNoSecret(w, body, i, j);
    }
  }

  // ---------------------------------------------------------------- the repair that undoes redaction

  const LETTER_X := R.Pattern((s: string) => s == "x", (t: string, i: nat) => i + 1)

  lemma LetterXIsGood()
    ensures R.Good(LETTER_X)
  {
    forall t: string, i: nat | R.MatchesFrom(LETTER_X, t, i) ensures R.MatchAt(LETTER_X, t, i, i + 1) {
      var e: nat :| e <= |t| && R.MatchAt(LETTER_X, t, i, e);
      assert |t[i..e]| == 1;
    }
    assert forall k :: 0 <= k < |R.MARKER_WORD| ==> R.MARKER_WORD[k] != 'x';
    forall p: nat ensures !OccursAt("x", R.MARKER_WORD, p) {
      assert p < |R.MARKER_WORD| ==> R.MARKER_WORD[p..p + 1][0] == R.MARKER_WORD[p];
    }
  }

  lemma RepairedFtsIsRaw(c: Content, target: string)
    requires Sound(c) && ColonFree(target)
    ensures Of(Run(Tables(map[], [], []), c, EmbedThenRepair(target)).fts, target) == FtsRows(c.raw(target))
    ensures c.raw(target) != c.redacted(target)
            ==> !Agree(Run(Tables(map[], [], []), c, EmbedThenRepair(target)), c, target)
  {
    var t, ops := Tables(map[], [], []), EmbedThenRepair(target);
    EmbedThenRepairIsComplete(target);
    LegsConverge(t, c, ops, target);
    LegsAgreeIffHarmless(t, c, ops, target);
  }

  lemma SecretIsAPassage(w: World, target: string)
    requires GoodWorld(w) && w.body(target) == Some("x")
    ensures exists row :: row in FtsRows(RawPassages(w, target)) && row.value == "x"
  {
    var k := C.VisibleIsInAPassage("x", w.settings, 0);
    C.ChunkCount("x", target, w.settings);
    C.PassagesAreWellCut("x", target, w.settings, k);
    assert "x"[0..1] == "x";
    assert FtsRows(RawPassages(w, target))[k].value == "x";
  }

  /** A note whose body is the secret "x": embedded and then repaired, it is searchable by its secret
      and its legs disagree. */
  lemma RepairMakesASecretSearchable(w: World, target: string)
    requires w.settings.thresholdTokens > 0 && (forall ts :: |w.embed(ts)| == |ts|) && w.patterns == [LETTER_X]
    requires w.body(target) == Some("x") && ColonFree(target)
    ensures GoodWorld(w) && Sound(ContentOf(w)) && !R.Clean(LETTER_X, "x")
    ensures var r := Run(Tables(map[], [], []), ContentOf(w), EmbedThenRepair(target));
            !Agree(r, ContentOf(w), target) && exists row :: row in Of(r.fts, target) && row.value == "x"
  {
    LetterXIsGood();
    ContentIsSound(w);
    assert "x"[0..1] == "x" && R.MatchAt(LETTER_X, "x", 0, 1);
    UnchangedIffClean("x", target, w.settings, w.patterns);
    RepairedFtsIsRaw(ContentOf(w), target);
    SecretIsAPassage(w, target);
  }
}
