/** A note of two words: where index rows outlive a change of settings, and where a match that no
    passage holds does no harm. */
module IndexExamples {
  import opened Text
  import opened IndexLegs
  import opened IndexSecrets
  import C = Chunking
  import R = Redact

  const TWO_WORDS := "a b"

  lemma TwoWordsAreOneLine()
    ensures C.LineEnd(TWO_WORDS, 0) == 3 && C.ContentEnd(TWO_WORDS, 0, 3) == 3
    ensures C.Classify(TWO_WORDS).Ordinary?
  {
    assert C.LineEnd(TWO_WORDS, 2) == 3 && C.LineEnd(TWO_WORDS, 1) == 3;
    C.StripOfSpace(TWO_WORDS);
    assert !IsSpace(TWO_WORDS[0]);
  }

  lemma TwoWordsAreOneBlock()
    ensures C.Blocks(TWO_WORDS) == [C.Block(0, 3, false)]
  {
    TwoWordsAreOneLine();
    assert TWO_WORDS[0..3] == TWO_WORDS;
    assert C.LineStep(TWO_WORDS, 0, 3, None) == ([], Some((0, 3)));
    assert C.SegmentFrom(TWO_WORDS, 3, Some((0, 3))) == [C.Block(0, 3, false)];
  }

  lemma TwoWordsAreTwoTokens()
    ensures C.Tokens(TWO_WORDS, 0, 3) == [(0, 1), (2, 3)]
  {
    assert C.TokenEnd(TWO_WORDS, 0, 3) == 1 && C.TokenEnd(TWO_WORDS, 2, 3) == 3;
    assert C.Tokens(TWO_WORDS, 3, 3) == [] && C.Tokens(TWO_WORDS, 2, 3) == [(2, 3)];
    assert C.Tokens(TWO_WORDS, 1, 3) == [(2, 3)];
  }

  lemma SpansOfOneBlock(body: string, b: C.Block, n: nat, step: nat)
    requires 1 <= step <= n && b.start <= b.end <= |body|
    ensures C.AllSpans(body, [b], n, step) == C.BlockSpans(body, b, n, step)
  {
    assert [b][1..] == [];
    assert C.AllSpans(body, [], n, step) == [];
    EmptyIsUnit(C.BlockSpans(body, b, n, step));
  }

  /** A passage a word, and one passage for both. */
  lemma TwoWordsInPassages(target: string)
    ensures C.PassageSpans(TWO_WORDS, C.ChunkSettings(1, 0)) == [(0, 1), (2, 3)]
    ensures |C.Chunks(TWO_WORDS, target, C.ChunkSettings(1, 0))| == 2
    ensures |C.Chunks(TWO_WORDS, target, C.ChunkSettings(2, 0))| == 1
  {
    TwoWordsAreOneBlock();
    TwoWordsAreTwoTokens();
    var b := C.Block(0, 3, false);
    SpansOfOneBlock(TWO_WORDS, b, 1, 1);
    SpansOfOneBlock(TWO_WORDS, b, 2, 2);
    assert C.Windows(1, 2, 1, 1) == [(1, 2)];
    assert C.Windows(0, 2, 1, 1) == [(0, 1), (1, 2)];
    assert C.BlockSpans(TWO_WORDS, b, 1, 1) == [(0, 1), (2, 3)];
    C.ChunkCount(TWO_WORDS, target, C.ChunkSettings(1, 0));
    C.ChunkCount(TWO_WORDS, target, C.ChunkSettings(2, 0));
  }

  /** Doubling the threshold leaves the second word's passage row behind. */
  lemma RechunkingLeavesARowBehind(target: string)
    requires ColonFree(target)
    ensures var before := C.Chunks(TWO_WORDS, target, C.ChunkSettings(1, 0));
            var after := C.Chunks(TWO_WORDS, target, C.ChunkSettings(2, 0));
            Upsert(ById(before), after) != ById(after)
  {
    TwoWordsInPassages(target);
    RechunkingABodyIsCleanIffNoFewer(TWO_WORDS, target, C.ChunkSettings(1, 0), C.ChunkSettings(2, 0));
  }

  const PAIR := R.Pattern((s: string) => s == TWO_WORDS, (t: string, i: nat) => i + 3)

  lemma PairIsGood()
    ensures R.Good(PAIR)
  {
    forall t: string, i: nat | R.MatchesFrom(PAIR, t, i) ensures R.MatchAt(PAIR, t, i, i + 3) {
      var e: nat :| e <= |t| && R.MatchAt(PAIR, t, i, e);
      assert |t[i..e]| == 3;
    }
    assert forall k :: 0 <= k < |R.MARKER_WORD| ==> R.MARKER_WORD[k] != ' ';
    forall p: nat ensures !OccursAt(TWO_WORDS, R.MARKER_WORD, p) {
      assert p + 3 <= |R.MARKER_WORD| ==> R.MARKER_WORD[p..p + 3][1] == R.MARKER_WORD[p + 1];
    }
  }

  lemma ShortTextHasNoPair(s: string)
    requires |s| < 3
    ensures R.Clean(PAIR, s)
  {
  }

  lemma OneWordPassagesAreShort(body: string, target: string, c: C.ChunkSettings, k: nat)
    requires c.thresholdTokens > 0 && C.PassageSpans(body, c) == [(0, 1), (2, 3)] && k < |C.Chunks(body, target, c)|
    ensures |C.Chunks(body, target, c)[k].text| == 1
  {
    var s, e := PassagePlace(body, target, c, k);
  }

  lemma ShortPassagesAreClean(w: World, ps: seq<C.Passage>)
    requires w.patterns == [PAIR] && forall k :: 0 <= k < |ps| ==> |ps[k].text| == 1
    ensures forall text :: text in Texts(ps) ==> NoSecret(w, text)
  {
    forall text | text in Texts(ps) ensures NoSecret(w, text) {
      var k :| 0 <= k < |Texts(ps)| && Texts(ps)[k] == text;
      ShortTextHasNoPair(text);
    }
  }

  lemma TwoWordsHoldThePair(w: World)
    requires w.patterns == [PAIR]
    ensures !NoSecret(w, TWO_WORDS)
  {
    assert TWO_WORDS[0..3] == TWO_WORDS && R.MatchAt(PAIR, TWO_WORDS, 0, 3);
    assert PAIR in w.patterns;
  }

  /** A match that the passages cut apart is in the stored body and in no searchable text, after every
      run: what decides is whether a passage holds a match, not whether the body does. */
  lemma SplitMatchIsNotSearchable(t: Tables, w: World, target: string)
    requires w.settings == C.ChunkSettings(1, 0) && (forall ts :: |w.embed(ts)| == |ts|) && w.patterns == [PAIR]
    requires w.body(target) == Some(TWO_WORDS) && ColonFree(target)
    requires Ready(t, ContentOf(w), target) && FtsClean(t, w, target)
    ensures GoodWorld(w) && Sound(ContentOf(w)) && !NoSecret(w, TWO_WORDS)
    ensures forall ops :: AllColonFree(ops) ==> FtsClean(Run(t, ContentOf(w), ops), w, target)
  {
    PairIsGood();
    ContentIsSound(w);
    TwoWordsHoldThePair(w);
    TwoWordsInPassages(target);
    forall k | 0 <= k < |RawPassages(w, target)| ensures |RawPassages(w, target)[k].text| == 1 {
      OneWordPassagesAreShort(TWO_WORDS, target, w.settings, k);
    }
    ShortPassagesAreClean(w, RawPassages(w, target));
    FtsIsAlwaysCleanIff(t, w, target);
  }
}
