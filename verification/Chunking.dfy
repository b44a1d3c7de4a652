/** The structure-aware passage chunker. */
module Chunking {
  import opened Text
  import opened Decimal

  type Span = (nat, nat)

  // ---------------------------------------------------------------- lines

  /** Where `str.splitlines` cuts. */
  predicate IsLineBreak(c: char) {
    var n := c as int;
    0xa <= n <= 0xd || 0x1c <= n <= 0x1e || n == 0x85 || n == 0x2028 || n == 0x2029
  }

  /** The end of the line that starts at `i`, its line break included. */
  function LineEnd(body: string, i: nat): (e: nat)
    requires i < |body|
    ensures i < e <= |body|
    ensures e < |body| ==> IsSpace(body[e - 1])
    decreases |body| - i
  {
    if IsLineBreak(body[i]) then
      if body[i] == '\r' && i + 1 < |body| && body[i + 1] == '\n' then i + 2 else i + 1
    else if i + 1 == |body| then i + 1
    else LineEnd(body, i + 1)
  }

  /** `start + len(line.rstrip("\r\n"))` */
  function ContentEnd(body: string, start: nat, e: nat): (c: nat)
    requires start <= e <= |body|
    ensures start <= c <= e
    ensures forall k :: c <= k < e ==> IsSpace(body[k])
    ensures c == start || (body[c - 1] != '\r' && body[c - 1] != '\n')
    decreases e
  {
    if start < e && (body[e - 1] == '\r' || body[e - 1] == '\n') then ContentEnd(body, start, e - 1) else e
  }

  function Run(s: string, i: nat, test: char -> bool): (j: nat)
    requires i <= |s|
    ensures i <= j <= |s| && (j < |s| ==> !test(s[j]))
    decreases |s| - i
  {
    if i < |s| && test(s[i]) then Run(s, i + 1, test) else i
  }

  predicate SpaceAt(s: string, i: nat) {
    i < |s| && IsSpace(s[i])
  }

  /** `^#{1,6}\s` */
  predicate IsHeading(line: string) {
    var k := Run(line, 0, (c: char) => c == '#');
    1 <= k <= 6 && SpaceAt(line, k)
  }

  /** `^\s*(?:[-*+]|\d+[.)])\s` */
  predicate IsListItem(line: string) {
    var i := Run(line, 0, (c: char) => IsSpace(c));
    var j := Run(line, i, (c: char) => IsDigit(c));
    || (i < |line| && line[i] in {'-', '*', '+'} && SpaceAt(line, i + 1))
    || (i < j < |line| && line[j] in {'.', ')'} && SpaceAt(line, j + 1))
  }

  // ---------------------------------------------------------------- segmentation

  datatype Block = Block(start: nat, end: nat, isHeading: bool)

  function Flushed(para: Option<Span>): seq<Block> {
    if para.Some? then [Block(para.value.0, para.value.1, false)] else []
  }

  datatype LineKind = Blank | Heading | ListItem | Ordinary

  /** The first of the source's line tests that holds. */
  function Classify(line: string): LineKind {
    if Strip(line) == "" then Blank
    else if IsHeading(line) then Heading
    else if IsListItem(line) then ListItem
    else Ordinary
  }

  /** What one line adds to the blocks, and the paragraph it leaves open. */
  function LineStep(body: string, start: nat, e: nat, para: Option<Span>): (seq<Block>, Option<Span>)
    requires start <= e <= |body|
  {
    var c := ContentEnd(body, start, e);
    var kind := Classify(body[start..e]);
    if kind.Ordinary? then ([], Some((if para.Some? then para.value.0 else start, c)))
    else (Flushed(para) + if kind.Blank? then [] else [Block(start, c, kind.Heading?)], None)
  }

  /** The blocks from `offset` on, given the paragraph still open there. */
  function SegmentFrom(body: string, offset: nat, para: Option<Span>): seq<Block>
    requires offset <= |body|
    decreases |body| - offset
  {
    if offset == |body| then Flushed(para)
    else
      var e := LineEnd(body, offset);
      var step := LineStep(body, offset, e, para);
      step.0 + SegmentFrom(body, e, step.1)
  }

  lemma StepAdvances(blocks: seq<Block>, body: string, offset: nat, para: Option<Span>)
    requires offset < |body|
    ensures var e := LineEnd(body, offset);
            var step := LineStep(body, offset, e, para);
            (blocks + step.0) + SegmentFrom(body, e, step.1) == blocks + SegmentFrom(body, offset, para)
  {
    var e := LineEnd(body, offset);
    var step := LineStep(body, offset, e, para);
    ConcatAssociates(blocks, step.0, SegmentFrom(body, e, step.1));
  }

  method Segment(body: string) returns (blocks: seq<Block>)
    ensures blocks == SegmentFrom(body, 0, None)
  {
    blocks := [];
    var para: Option<Span> := None;
    var offset := 0;
    while offset < |body|
      invariant offset <= |body|
      invariant blocks + SegmentFrom(body, offset, para) == SegmentFrom(body, 0, None)
    {
      StepAdvances(blocks, body, offset, para);
      var start := offset;
      offset := LineEnd(body, start);
      var contentEnd := ContentEnd(body, start, offset);
      var kind := Classify(body[start..offset]);
      if kind.Ordinary? {
        blocks, para := blocks + [], Some((if para.Some? then para.value.0 else start, contentEnd));
      } else {
        var own := if kind.Blank? then [] else [Block(start, contentEnd, kind.Heading?)];
        blocks, para := blocks + (Flushed(para) + own), None;
      }
    }
    blocks := blocks + Flushed(para);
  }

  // ---------------------------------------------------------------- tokens

  function TokenEnd(body: string, lo: nat, hi: nat): (e: nat)
    requires lo <= hi <= |body|
    ensures lo <= e <= hi && (lo < hi && !IsSpace(body[lo]) ==> lo < e)
    ensures forall k :: lo <= k < e ==> !IsSpace(body[k])
    ensures e < hi ==> IsSpace(body[e])
    decreases hi - lo
  {
    if lo < hi && !IsSpace(body[lo]) then TokenEnd(body, lo + 1, hi) else lo
  }

  /** The tokens of `body[lo..hi]`: its maximal runs of visible characters, placed in `body`. */
  function Tokens(body: string, lo: nat, hi: nat): seq<Span>
    requires lo <= hi <= |body|
    decreases hi - lo
  {
    if lo == hi then []
    else if IsSpace(body[lo]) then Tokens(body, lo + 1, hi)
    else
      var e := TokenEnd(body, lo, hi);
      [(lo, e)] + Tokens(body, e, hi)
  }

  /** Non-empty spans inside `lo..hi`, apart and in order. */
  ghost predicate Apart(t: seq<Span>, lo: nat, hi: nat) {
    && (forall k :: 0 <= k < |t| ==> lo <= t[k].0 < t[k].1 <= hi)
    && (forall k, m :: 0 <= k < m < |t| ==> t[k].1 <= t[m].0)
  }

  lemma {:induction false} TokensAreInOrder(body: string, lo: nat, hi: nat)
    requires lo <= hi <= |body|
    ensures Apart(Tokens(body, lo, hi), lo, hi)
    decreases hi - lo
  {
    if lo < hi {
      TokensAreInOrder(body, if IsSpace(body[lo]) then lo + 1 else TokenEnd(body, lo, hi), hi);
    }
  }

  lemma {:induction false} NoTokensInSpace(body: string, lo: nat, hi: nat)
    requires lo <= hi <= |body| && forall k :: lo <= k < hi ==> IsSpace(body[k])
    ensures Tokens(body, lo, hi) == []
    decreases hi - lo
  {
    if lo < hi { NoTokensInSpace(body, lo + 1, hi); }
  }

  lemma {:induction false} TokenEndStops(body: string, lo: nat, m: nat, hi: nat)
    requires lo <= m <= hi <= |body| && (m == hi || IsSpace(body[m]) || TokenEnd(body, lo, hi) <= m)
    ensures TokenEnd(body, lo, hi) == TokenEnd(body, lo, m)
    decreases m - lo
  {
    if lo < m && !IsSpace(body[lo]) { TokenEndStops(body, lo + 1, m, hi); }
  }

  lemma CutIsPastToken(body: string, lo: nat, m: nat, hi: nat)
    requires lo < m <= hi <= |body| && !IsSpace(body[lo])
    requires m == hi || IsSpace(body[m - 1]) || IsSpace(body[m])
    ensures TokenEnd(body, lo, hi) <= m && TokenEnd(body, lo, m) == TokenEnd(body, lo, hi)
  {
    TokenEndStops(body, lo, m, hi);
  }

  /** Cutting next to white space cuts no token. */
  lemma {:induction false} TokensSplit(body: string, lo: nat, m: nat, hi: nat)
    requires lo <= m <= hi <= |body|
    requires m == lo || m == hi || IsSpace(body[m - 1]) || IsSpace(body[m])
    ensures Tokens(body, lo, hi) == Tokens(body, lo, m) + Tokens(body, m, hi)
    decreases m - lo
  {
    if lo < m {
      if IsSpace(body[lo]) {
        TokensSplit(body, lo + 1, m, hi);
      } else {
        CutIsPastToken(body, lo, m, hi);
        var e := TokenEnd(body, lo, hi);
        TokensSplit(body, e, m, hi);
        ConcatAssociates([(lo, e)], Tokens(body, e, m), Tokens(body, m, hi));
      }
    }
  }

  // ---------------------------------------------------------------- blocks hold every token

  /** Blocks inside `lo..hi`, in order and apart, none without a token. */
  ghost predicate Ordered(body: string, blocks: seq<Block>, lo: nat, hi: nat) {
    && hi <= |body|
    && (forall i :: 0 <= i < |blocks| ==> lo <= blocks[i].start < blocks[i].end <= hi)
    && (forall i :: 0 <= i < |blocks| ==> HasToken(body, blocks[i].start, blocks[i].end))
    && (forall i, j :: 0 <= i < j < |blocks| ==> blocks[i].end <= blocks[j].start)
  }

  predicate HasToken(body: string, lo: nat, hi: nat) {
    exists k :: 0 <= lo <= k < hi <= |body| && !IsSpace(body[k])
  }

  lemma {:induction false} HasTokenMeansTokens(body: string, lo: nat, hi: nat)
    requires HasToken(body, lo, hi)
    ensures Tokens(body, lo, hi) != []
    decreases hi - lo
  {
    if IsSpace(body[lo]) { HasTokenMeansTokens(body, lo + 1, hi); }
  }

  function BlockTokens(body: string, blocks: seq<Block>): seq<Span> {
    if blocks == [] then []
    else
      var b := blocks[0];
      (if b.start <= b.end <= |body| then Tokens(body, b.start, b.end) else []) + BlockTokens(body, blocks[1..])
  }

  lemma BlockTokensCons(body: string, all: seq<Block>, rest: seq<Block>)
    requires all != [] && rest == all[1..]
    ensures BlockTokens(body, all) == BlockTokens(body, [all[0]]) + BlockTokens(body, rest)
  {
    assert [all[0]][1..] == [];
    EmptyIsUnit(BlockTokens(body, [all[0]]));
  }

  lemma {:induction false} BlockTokensConcat(body: string, a: seq<Block>, b: seq<Block>)
    ensures BlockTokens(body, a + b) == BlockTokens(body, a) + BlockTokens(body, b)
  {
    if a == [] {
      assert a + b == b;
    } else {
      var rest := a[1..];
      assert (a + b)[1..] == rest + b;
      BlockTokensCons(body, a, rest);
      BlockTokensCons(body, a + b, rest + b);
      BlockTokensConcat(body, rest, b);
      ConcatAssociates(BlockTokens(body, [a[0]]), BlockTokens(body, rest), BlockTokens(body, b));
    }
  }

  /** An offset next to which no token is cut. */
  predicate AtCut(body: string, i: nat) {
    i == 0 || i == |body| || (i < |body| && IsSpace(body[i - 1]))
  }

  predicate OpenPara(body: string, offset: nat, para: Option<Span>) {
    && offset <= |body|
    && (para.Some? ==> para.value.0 < para.value.1 <= offset
                       && HasToken(body, para.value.0, para.value.1)
                       && forall k :: para.value.1 <= k < offset ==> IsSpace(body[k]))
  }

  function ParaStart(offset: nat, para: Option<Span>): nat {
    if para.Some? then para.value.0 else offset
  }

  lemma {:induction false} StripOfSpace(s: string)
    ensures Strip(s) == "" <==> AllSpace(s)
  {
    if s != "" && IsSpace(s[0]) {
      StripOfSpace(s[1..]);
      assert AllSpace(s) <==> AllSpace(s[1..]) by {
        assert forall i :: 0 < i < |s| ==> s[i] == s[1..][i - 1];
      }
    } else if s != "" {
      RStripKeepsFirst(s);
    }
  }

  lemma {:induction false} RStripKeepsFirst(s: string)
    requires s != "" && !IsSpace(s[0])
    ensures RStrip(s) != ""
    decreases |s|
  {
    if IsSpace(s[|s| - 1]) { RStripKeepsFirst(s[..|s| - 1]); }
  }

  lemma VisibleLineHasContent(body: string, start: nat, e: nat)
    requires start < e <= |body| && !Classify(body[start..e]).Blank?
    ensures start < ContentEnd(body, start, e) && HasToken(body, start, ContentEnd(body, start, e))
  {
    StripOfSpace(body[start..e]);
    var k :| 0 <= k < e - start && !IsSpace(body[start..e][k]);
    assert !IsSpace(body[start + k]);
  }

  /** The flushed paragraph holds the tokens up to any cut in the space after it. */
  lemma FlushHoldsTokens(body: string, offset: nat, para: Option<Span>)
    requires OpenPara(body, offset, para) && AtCut(body, offset)
    ensures BlockTokens(body, Flushed(para)) == Tokens(body, ParaStart(offset, para), offset)
    ensures Ordered(body, Flushed(para), ParaStart(offset, para), offset)
  {
    if para.Some? {
      var (s, e) := para.value;
      TokensSplit(body, s, e, offset);
      NoTokensInSpace(body, e, offset);
      assert Flushed(para)[1..] == [];
    }
  }

  lemma OrderedConcat(body: string, a: seq<Block>, b: seq<Block>, lo: nat, m: nat, hi: nat)
    requires Ordered(body, a, lo, m) && Ordered(body, b, m, hi) && lo <= m <= hi
    ensures Ordered(body, a + b, lo, hi)
  {
  }

  function OwnBlock(body: string, offset: nat): seq<Block>
    requires offset < |body|
  {
    var e := LineEnd(body, offset);
    var kind := Classify(body[offset..e]);
    if kind.Blank? then [] else [Block(offset, ContentEnd(body, offset, e), kind.Heading?)]
  }

  lemma OwnBlockHoldsTokens(body: string, offset: nat)
    requires offset < |body|
    ensures var e := LineEnd(body, offset);
            && BlockTokens(body, OwnBlock(body, offset)) == Tokens(body, offset, e)
            && Ordered(body, OwnBlock(body, offset), offset, e)
  {
    var e := LineEnd(body, offset);
    var c := ContentEnd(body, offset, e);
    if Classify(body[offset..e]).Blank? {
      StripOfSpace(body[offset..e]);
      assert forall k :: offset <= k < e ==> body[k] == body[offset..e][k - offset];
      NoTokensInSpace(body, offset, e);
    } else {
      VisibleLineHasContent(body, offset, e);
      TokensSplit(body, offset, c, e);
      NoTokensInSpace(body, c, e);
      assert OwnBlock(body, offset)[1..] == [];
    }
  }

  /** Segmentation drops no token, and its blocks come in order and apart. */
  lemma {:induction false} SegmentHoldsTokens(body: string, offset: nat, para: Option<Span>)
    requires OpenPara(body, offset, para) && AtCut(body, offset)
    ensures BlockTokens(body, SegmentFrom(body, offset, para)) == Tokens(body, ParaStart(offset, para), |body|)
    ensures Ordered(body, SegmentFrom(body, offset, para), ParaStart(offset, para), |body|)
    decreases |body| - offset
  {
    var p := ParaStart(offset, para);
    if offset == |body| {
      FlushHoldsTokens(body, offset, para);
    } else {
      var e := LineEnd(body, offset);
      var step := LineStep(body, offset, e, para);
      if Classify(body[offset..e]).Ordinary? {
        VisibleLineHasContent(body, offset, e);
        SegmentHoldsTokens(body, e, step.1);
        assert [] + SegmentFrom(body, e, step.1) == SegmentFrom(body, e, step.1);
      } else {
        SegmentHoldsTokens(body, e, None);
        FlushThenOwn(body, offset, para);
        JoinHolding(body, Flushed(para) + OwnBlock(body, offset), SegmentFrom(body, e, None), p, e);
      }
    }
  }

  /** Blocks that hold the tokens up to a cut, then blocks that hold the tokens after it. */
  lemma JoinHolding(body: string, a: seq<Block>, b: seq<Block>, lo: nat, m: nat)
    requires lo <= m <= |body| && AtCut(body, m)
    requires BlockTokens(body, a) == Tokens(body, lo, m) && Ordered(body, a, lo, m)
    requires BlockTokens(body, b) == Tokens(body, m, |body|) && Ordered(body, b, m, |body|)
    ensures BlockTokens(body, a + b) == Tokens(body, lo, |body|) && Ordered(body, a + b, lo, |body|)
  {
    BlockTokensConcat(body, a, b);
    TokensSplit(body, lo, m, |body|);
    OrderedConcat(body, a, b, lo, m, |body|);
  }

  lemma FlushThenOwn(body: string, offset: nat, para: Option<Span>)
    requires offset < |body| && OpenPara(body, offset, para) && AtCut(body, offset)
    ensures var p, e := ParaStart(offset, para), LineEnd(body, offset);
            var out := Flushed(para) + OwnBlock(body, offset);
            BlockTokens(body, out) == Tokens(body, p, e) && Ordered(body, out, p, e)
  {
    var p, e := ParaStart(offset, para), LineEnd(body, offset);
    FlushHoldsTokens(body, offset, para);
    OwnBlockHoldsTokens(body, offset);
    BlockTokensConcat(body, Flushed(para), OwnBlock(body, offset));
    TokensSplit(body, p, offset, e);
    OrderedConcat(body, Flushed(para), OwnBlock(body, offset), p, offset, e);
  }

  // ---------------------------------------------------------------- what the blocks are

  /** A line runs to the first line break, which it includes; a CR LF is one break. */
  lemma {:induction false} LineEndsAtFirstBreak(body: string, i: nat)
    requires i < |body|
    ensures var e := LineEnd(body, i);
            && (forall k :: i <= k < e - 1 && IsLineBreak(body[k]) ==>
                  k == e - 2 && body[k] == '\r' && body[k + 1] == '\n')
            && (e < |body| ==> IsLineBreak(body[e - 1]) && !(body[e - 1] == '\r' && body[e] == '\n'))
    decreases |body| - i
  {
    if !IsLineBreak(body[i]) && i + 1 < |body| { LineEndsAtFirstBreak(body, i + 1); }
  }

  /** A line's content loses its line end, and nothing else. */
  lemma {:induction false} ContentLosesLineEnd(body: string, start: nat, e: nat)
    requires start <= e <= |body|
    ensures forall k :: ContentEnd(body, start, e) <= k < e ==> body[k] == '\r' || body[k] == '\n'
    decreases e
  {
    if start < e && (body[e - 1] == '\r' || body[e - 1] == '\n') { ContentLosesLineEnd(body, start, e - 1); }
  }

  lemma {:induction false} RunIsLongest(s: string, i: nat, test: char -> bool)
    requires i <= |s|
    ensures forall k :: i <= k < Run(s, i, test) ==> test(s[k])
    decreases |s| - i
  {
    if i < |s| && test(s[i]) { RunIsLongest(s, i + 1, test); }
  }

  lemma RunIs(s: string, i: nat, j: nat, test: char -> bool)
    requires i <= j <= |s| && (forall k :: i <= k < j ==> test(s[k])) && (j < |s| ==> !test(s[j]))
    ensures Run(s, i, test) == j
  {
    RunIsLongest(s, i, test);
  }

  /** A heading: one to six number signs, and white space. */
  lemma HeadingIff(line: string)
    ensures IsHeading(line)
            <==> exists n :: 1 <= n <= 6 && SpaceAt(line, n) && forall k :: 0 <= k < n ==> line[k] == '#'
  {
    var hash := (c: char) => c == '#';
    RunIsLongest(line, 0, hash);
    if IsHeading(line) { assert SpaceAt(line, Run(line, 0, hash)); }
    if n :| 1 <= n <= 6 && SpaceAt(line, n) && forall k :: 0 <= k < n ==> line[k] == '#' {
      RunIs(line, 0, n, hash);
    }
  }

  predicate BulletFrom(line: string, i: nat) {
    i < |line| && line[i] in {'-', '*', '+'} && SpaceAt(line, i + 1)
  }

  predicate NumberFrom(line: string, i: nat, j: nat) {
    i < j < |line| && (forall k :: i <= k < j ==> IsDigit(line[k])) && line[j] in {'.', ')'} && SpaceAt(line, j + 1)
  }

  /** White space up to `i`, then a bullet there or a number up to `j`. */
  predicate ItemAt(line: string, i: nat, j: nat) {
    && i < |line| && (forall k :: 0 <= k < i ==> IsSpace(line[k]))
    && (BulletFrom(line, i) || NumberFrom(line, i, j))
  }

  lemma ItemIsFound(line: string, i: nat, j: nat)
    requires ItemAt(line, i, j)
    ensures IsListItem(line)
  {
    RunIs(line, 0, i, (c: char) => IsSpace(c));
    if !BulletFrom(line, i) { RunIs(line, i, j, (c: char) => IsDigit(c)); }
  }

  /** A list item: white space, then a bullet or a number with a point or a bracket, and white space. */
  lemma ListItemIff(line: string)
    ensures IsListItem(line) <==> exists i, j :: ItemAt(line, i, j)
  {
    var space, digit := (c: char) => IsSpace(c), (c: char) => IsDigit(c);
    var i := Run(line, 0, space);
    var j := Run(line, i, digit);
    RunIsLongest(line, 0, space);
    RunIsLongest(line, i, digit);
    if IsListItem(line) { assert ItemAt(line, i, j); }
    if a, b :| ItemAt(line, a, b) { ItemIsFound(line, a, b); }
  }

  function LineFrom(body: string, i: nat): string
    requires i < |body|
  {
    body[i..LineEnd(body, i)]
  }

  /** A line starts here. */
  predicate LineStart(body: string, from: nat, p: nat)
    decreases |body| - from
  {
    p == from || (from < |body| && LineStart(body, LineEnd(body, from), p))
  }

  /** The end of the run of ordinary lines that starts here. */
  function OrdinaryEnd(body: string, i: nat): (e: nat)
    requires i <= |body|
    ensures i <= e <= |body|
    decreases |body| - i
  {
    if i < |body| && Classify(LineFrom(body, i)).Ordinary? then OrdinaryEnd(body, LineEnd(body, i)) else i
  }

  /** A block is one heading, one list item, or a whole run of ordinary lines, without its last line's end. */
  predicate IsBlock(body: string, b: Block) {
    && b.start < |body| && LineStart(body, 0, b.start)
    && match Classify(LineFrom(body, b.start))
       case Blank => false
       case Heading => b.isHeading && b.end == ContentEnd(body, b.start, LineEnd(body, b.start))
       case ListItem => !b.isHeading && b.end == ContentEnd(body, b.start, LineEnd(body, b.start))
       case Ordinary => !b.isHeading && b.end == ContentEnd(body, b.start, OrdinaryEnd(body, b.start))
  }

  /** A paragraph is open since a line of a run of ordinary lines that goes on here. */
  predicate InRun(body: string, offset: nat, para: Option<Span>) {
    offset <= |body| && LineStart(body, 0, offset)
    && (para.Some? ==>
          var (s, c) := para.value;
          && s < offset && LineStart(body, 0, s) && Classify(LineFrom(body, s)).Ordinary?
          && OrdinaryEnd(body, s) == OrdinaryEnd(body, offset) && c == ContentEnd(body, s, offset))
  }

  lemma {:induction false} NextLineStart(body: string, from: nat, p: nat)
    requires from <= |body| && LineStart(body, from, p) && p < |body|
    ensures LineStart(body, from, LineEnd(body, p))
    decreases |body| - from
  {
    if p != from { NextLineStart(body, LineEnd(body, from), p); }
  }

  /** Visible content ends alike whether its first lines are looked at or not. */
  lemma {:induction false} ContentEndFromEarlier(body: string, s: nat, m: nat, e: nat)
    requires s <= m <= e <= |body| && m < ContentEnd(body, m, e)
    ensures ContentEnd(body, s, e) == ContentEnd(body, m, e)
    decreases e
  {
    if m < e && (body[e - 1] == '\r' || body[e - 1] == '\n') { ContentEndFromEarlier(body, s, m, e - 1); }
  }

  lemma {:induction false} SegmentIsBlocks(body: string, offset: nat, para: Option<Span>)
    requires InRun(body, offset, para)
    ensures forall b :: b in SegmentFrom(body, offset, para) ==> IsBlock(body, b)
    decreases |body| - offset
  {
    if offset < |body| {
      var e := LineEnd(body, offset);
      var step := LineStep(body, offset, e, para);
      NextLineStart(body, 0, offset);
      if Classify(body[offset..e]).Ordinary? {
        VisibleLineHasContent(body, offset, e);
        if para.Some? { ContentEndFromEarlier(body, para.value.0, offset, e); }
        SegmentIsBlocks(body, e, step.1);
      } else {
        SegmentIsBlocks(body, e, None);
      }
    }
  }

  /** What the blocks of a body are: each a heading, a list item or a run of ordinary lines, in full. */
  lemma BlocksAreLines(body: string, i: nat)
    requires i < |Blocks(body)|
    ensures IsBlock(body, Blocks(body)[i])
  {
    SegmentIsBlocks(body, 0, None);
  }

  // ---------------------------------------------------------------- windows

  function Min(a: int, b: int): int {
    if a < b then a else b
  }

  /** The token windows of a block over the budget, as index ranges into its tokens. */
  function Windows(i: nat, m: nat, n: nat, step: nat): seq<Span>
    requires i < m && 1 <= step <= n
    decreases m - i
  {
    if i + n >= m then [(i, m)] else [(i, i + n)] + Windows(i + step, m, n, step)
  }

  /** The character spans of one block: the whole block, or its token windows. */
  function BlockSpans(body: string, b: Block, n: nat, step: nat): seq<Span>
    requires b.start <= b.end <= |body| && 1 <= step <= n
  {
    var tokens := Tokens(body, b.start, b.end);
    if |tokens| <= n then [(b.start, b.end)] else WindowSpans(tokens, Windows(0, |tokens|, n, step))
  }

  /** From the start of a window's first token to the end of its last. */
  function SpanOf(tokens: seq<Span>, w: Span): Span {
    if w.0 < w.1 <= |tokens| then (tokens[w.0].0, tokens[w.1 - 1].1) else (0, 0)
  }

  function WindowSpans(tokens: seq<Span>, ws: seq<Span>): seq<Span> {
    seq(|ws|, k requires 0 <= k < |ws| => SpanOf(tokens, ws[k]))
  }

  lemma WindowSpansCons(tokens: seq<Span>, ws: seq<Span>)
    requires ws != []
    ensures WindowSpans(tokens, ws) == [SpanOf(tokens, ws[0])] + WindowSpans(tokens, ws[1..])
  {
  }

  method SplitBlock(body: string, b: Block, n: nat, step: nat) returns (spans: seq<Span>)
    requires b.start <= b.end <= |body| && 1 <= step <= n
    ensures spans == BlockSpans(body, b, n, step)
  {
    var tokens := Tokens(body, b.start, b.end);
    if |tokens| <= n {
      return [(b.start, b.end)];
    }
    spans := [];
    var i := 0;
    ghost var rest := Windows(0, |tokens|, n, step);
    WindowsInRange(0, |tokens|, n, step);
    while true
      invariant i < |tokens| && rest == Windows(i, |tokens|, n, step)
      invariant spans + WindowSpans(tokens, rest) == BlockSpans(body, b, n, step)
      decreases |tokens| - i
    {
      WindowSpansCons(tokens, rest);
      ConcatAssociates(spans, [SpanOf(tokens, rest[0])], WindowSpans(tokens, rest[1..]));
      var last := Min(i + n, |tokens|) - 1;
      spans := spans + [(tokens[i].0, tokens[last].1)];
      if i + n >= |tokens| {
        return;
      }
      i := i + step;
      rest := rest[1..];
    }
  }

  /** How one window leads to the next. */
  predicate Advances(w: Span, w': Span, n: nat, step: nat) {
    w'.0 == w.0 + step && w.1 == w.0 + n && w.1 < w'.1
  }

  lemma AdvancesCons(w: Span, ws: seq<Span>, n: nat, step: nat)
    requires ws != [] && Advances(w, ws[0], n, step)
    requires forall j, k :: 0 <= j < k < |ws| && k == j + 1 ==> Advances(ws[j], ws[k], n, step)
    ensures var us := [w] + ws;
            forall j, k :: 0 <= j < k < |us| && k == j + 1 ==> Advances(us[j], us[k], n, step)
  {
    var us := [w] + ws;
    forall j, k | 0 <= j < k < |us| && k == j + 1
      ensures Advances(us[j], us[k], n, step)
    {
      if j > 0 { assert Advances(ws[j - 1], ws[k - 1], n, step); }
    }
  }

  /** Windows cover the tokens in order, hold at most `n`, and each starts `step` after the last:
      all but the last end `n` after their start, so neighbours share exactly `n - step`. */
  lemma {:induction false} WindowsInRange(i: nat, m: nat, n: nat, step: nat)
    requires i < m && 1 <= step <= n
    ensures var ws := Windows(i, m, n, step);
            && ws != [] && ws[0].0 == i && ws[|ws| - 1].1 == m
            && (forall k :: 0 <= k < |ws| ==> ws[k].0 < ws[k].1 <= m && ws[k].1 - ws[k].0 <= n)
            && (forall j, k :: 0 <= j < k < |ws| && k == j + 1 ==> Advances(ws[j], ws[k], n, step))
    decreases m - i
  {
    if i + n < m {
      WindowsInRange(i + step, m, n, step);
      AdvancesCons((i, i + n), Windows(i + step, m, n, step), n, step);
    }
  }

  /** Cutting right after a token keeps the tokens before the cut. */
  lemma {:induction false} TokensUpTo(body: string, lo: nat, hi: nat, b: nat)
    requires lo <= hi <= |body| && 0 < b <= |Tokens(body, lo, hi)|
    ensures var t := Tokens(body, lo, hi);
            lo <= t[b - 1].1 <= hi && Tokens(body, lo, t[b - 1].1) == t[..b]
    decreases hi - lo
  {
    var t := Tokens(body, lo, hi);
    TokensAreInOrder(body, lo, hi);
    var stop := t[b - 1].1;
    if IsSpace(body[lo]) {
      TokensUpTo(body, lo + 1, hi, b);
    } else {
      var e := TokenEnd(body, lo, hi);
      assert t[0] == (lo, e) && e <= stop;
      TokenEndStops(body, lo, stop, hi);
      if b > 1 {
        TokensUpTo(body, e, hi, b - 1);
        assert t[..b] == [(lo, e)] + Tokens(body, e, hi)[..b - 1];
      } else {
        assert Tokens(body, e, e) == [] && [(lo, e)] + [] == t[..1];
      }
    }
  }

  /** Starting at a token keeps the tokens from there on. */
  lemma {:induction false} TokensFrom(body: string, lo: nat, hi: nat, a: nat)
    requires lo <= hi <= |body| && a < |Tokens(body, lo, hi)|
    ensures var t := Tokens(body, lo, hi);
            lo <= t[a].0 <= hi && Tokens(body, t[a].0, hi) == t[a..]
    decreases hi - lo
  {
    if IsSpace(body[lo]) {
      TokensFrom(body, lo + 1, hi, a);
    } else if a > 0 {
      TokensFrom(body, TokenEnd(body, lo, hi), hi, a - 1);
    }
  }

  /** The tokens inside a stretch that runs from one token to another are the tokens between. */
  lemma TokensOfWindow(body: string, lo: nat, hi: nat, t: seq<Span>, a: nat, b: nat)
    requires lo <= hi <= |body| && t == Tokens(body, lo, hi) && a < b <= |t|
    ensures t[a].0 <= t[b - 1].1 <= hi && Tokens(body, t[a].0, t[b - 1].1) == t[a..b]
  {
    TokensFrom(body, lo, hi, a);
    var s := t[a].0;
    assert lo <= s <= hi;
    assert Tokens(body, s, hi) == t[a..];
    assert |t[a..]| == |t| - a;
    TokensUpTo(body, s, hi, b - a);
    assert t[a..][..b - a] == t[a..b] && t[a..][b - a - 1] == t[b - 1];
  }

  // ---------------------------------------------------------------- nothing is lost

  /** The span of a window runs from its first token to its last and holds just its tokens. */
  lemma SpanHoldsWindow(body: string, lo: nat, hi: nat, t: seq<Span>, w: Span)
    requires lo <= hi <= |body| && t == Tokens(body, lo, hi) && w.0 < w.1 <= |t|
    ensures var (s, e) := SpanOf(t, w); lo <= s < e <= hi && Tokens(body, s, e) == t[w.0..w.1]
  {
    TokensAreInOrder(body, lo, hi);
    TokensOfWindow(body, lo, hi, t, w.0, w.1);
    assert t[w.0].0 < t[w.0].1 <= t[w.1 - 1].1;
  }

  /** The `k`-th span of a block holds the `k`-th window of the block's tokens, no more and no less;
      a block within the budget is one window. */
  lemma BlockSpanHoldsWindow(body: string, b: Block, n: nat, step: nat, k: nat)
    requires b.start < b.end <= |body| && 1 <= step <= n && Tokens(body, b.start, b.end) != []
    requires k < |BlockSpans(body, b, n, step)|
    ensures var t := Tokens(body, b.start, b.end);
            var (s, e) := BlockSpans(body, b, n, step)[k];
            var ws := Windows(0, |t|, n, step);
            && |ws| == |BlockSpans(body, b, n, step)|
            && b.start <= s < e <= b.end
            && ws[k].0 < ws[k].1 <= |t| && Tokens(body, s, e) == t[ws[k].0..ws[k].1]
  {
    var t := Tokens(body, b.start, b.end);
    if |t| > n {
      WindowsInRange(0, |t|, n, step);
      SpanHoldsWindow(body, b.start, b.end, t, Windows(0, |t|, n, step)[k]);
    } else {
      WholeSlice(t);
    }
  }

  lemma BlockSpansAdvance(body: string, b: Block, n: nat, step: nat, k: nat)
    requires b.start < b.end <= |body| && 1 <= step <= n && Tokens(body, b.start, b.end) != []
    requires k + 1 < |BlockSpans(body, b, n, step)|
    ensures BlockSpans(body, b, n, step)[k].0 < BlockSpans(body, b, n, step)[k + 1].0
  {
    var t := Tokens(body, b.start, b.end);
    var ws := Windows(0, |t|, n, step);
    WindowsInRange(0, |t|, n, step);
    TokensAreInOrder(body, b.start, b.end);
    assert t[ws[k].0].0 < t[ws[k].0].1 <= t[ws[k + 1].0].0;
  }

  // ---------------------------------------------------------------- all blocks

  ghost predicate GoodBlock(body: string, b: Block) {
    b.start < b.end <= |body| && HasToken(body, b.start, b.end)
  }

  function AllSpans(body: string, blocks: seq<Block>, n: nat, step: nat): seq<Span>
    requires 1 <= step <= n && forall k :: 0 <= k < |blocks| ==> blocks[k].start <= blocks[k].end <= |body|
  {
    if blocks == [] then [] else BlockSpans(body, blocks[0], n, step) + AllSpans(body, blocks[1..], n, step)
  }

  function Shift(rs: seq<Span>, d: nat): seq<Span> {
    seq(|rs|, k requires 0 <= k < |rs| => (rs[k].0 + d, rs[k].1 + d))
  }

  /** The token windows of all blocks, as index ranges into all their tokens. */
  function AllRanges(body: string, blocks: seq<Block>, n: nat, step: nat): seq<Span>
    requires 1 <= step <= n && forall k :: 0 <= k < |blocks| ==> blocks[k].start <= blocks[k].end <= |body|
  {
    if blocks == [] then []
    else
      var m := |Tokens(body, blocks[0].start, blocks[0].end)|;
      (if m == 0 then [] else Windows(0, m, n, step)) + Shift(AllRanges(body, blocks[1..], n, step), m)
  }

  /** A span that holds exactly the tokens of its range of `t`, at most `n` of them. */
  ghost predicate Holds(body: string, s: Span, t: seq<Span>, r: Span, n: nat) {
    s.0 < s.1 <= |body| && r.0 < r.1 <= |t| && r.1 - r.0 <= n && Tokens(body, s.0, s.1) == t[r.0..r.1]
  }

  predicate SameBlock(blocks: seq<Block>, s: Span, s': Span) {
    exists i :: 0 <= i < |blocks| && blocks[i].start <= s.0 && s'.1 <= blocks[i].end
  }

  /** The next span starts later and ends its range later; it repeats exactly `share` tokens of
      the span before it within a block, and none across blocks. */
  predicate Follows(blocks: seq<Block>, s: Span, s': Span, r: Span, r': Span, share: nat) {
    && s.0 < s'.0 && r.1 < r'.1
    && r'.0 == (if SameBlock(blocks, s, s') then r.1 - share else r.1)
  }

  /** The ranges start at the first token of `t` and end at its last. */
  predicate Spanning(rs: seq<Span>, m: nat) {
    if rs == [] then m == 0 else rs[0].0 == 0 && rs[|rs| - 1].1 == m
  }

  /** What the spans `ss` of the passages satisfy, with their token ranges `rs`, inside `lo..hi`. */
  ghost predicate Covered(body: string, blocks: seq<Block>, n: nat, share: nat, t: seq<Span>, lo: nat, hi: nat,
                          ss: seq<Span>, rs: seq<Span>) {
    && |ss| == |rs| && Spanning(rs, |t|)
    && AllHold(body, t, n, lo, hi, ss, rs)
    && AllFollow(blocks, share, ss, rs)
  }

  ghost predicate AllHold(body: string, t: seq<Span>, n: nat, lo: nat, hi: nat, ss: seq<Span>, rs: seq<Span>)
    requires |ss| == |rs|
  {
    forall k :: 0 <= k < |ss| ==> lo <= ss[k].0 && ss[k].1 <= hi && Holds(body, ss[k], t, rs[k], n)
  }

  ghost predicate AllFollow(blocks: seq<Block>, share: nat, ss: seq<Span>, rs: seq<Span>)
    requires |ss| == |rs|
  {
    forall j, k :: 0 <= j < k < |ss| && k == j + 1 ==> Follows(blocks, ss[j], ss[k], rs[j], rs[k], share)
  }

  lemma BlockSpansHold(body: string, b: Block, n: nat, step: nat)
    requires GoodBlock(body, b) && 1 <= step <= n
    ensures var t, ss := Tokens(body, b.start, b.end), BlockSpans(body, b, n, step);
            && t != [] && ss != [] && |ss| == |Windows(0, |t|, n, step)|
            && AllHold(body, t, n, b.start, b.end, ss, Windows(0, |t|, n, step))
  {
    var t, ss := Tokens(body, b.start, b.end), BlockSpans(body, b, n, step);
    HasTokenMeansTokens(body, b.start, b.end);
    WindowsInRange(0, |t|, n, step);
    forall k | 0 <= k < |ss|
      ensures b.start <= ss[k].0 && ss[k].1 <= b.end && Holds(body, ss[k], t, Windows(0, |t|, n, step)[k], n)
    {
      BlockSpanHoldsWindow(body, b, n, step, k);
    }
  }

  lemma BlockSpansFollow(body: string, blocks: seq<Block>, n: nat, step: nat, ss: seq<Span>, rs: seq<Span>)
    requires blocks != [] && GoodBlock(body, blocks[0]) && 1 <= step <= n
    requires Tokens(body, blocks[0].start, blocks[0].end) != []
    requires ss == BlockSpans(body, blocks[0], n, step) && |ss| == |rs|
    requires rs == Windows(0, |Tokens(body, blocks[0].start, blocks[0].end)|, n, step)
    requires forall k :: 0 <= k < |ss| ==> blocks[0].start <= ss[k].0 && ss[k].1 <= blocks[0].end
    ensures AllFollow(blocks, n - step, ss, rs)
  {
    forall j, k | 0 <= j < k < |ss| && k == j + 1
      ensures Follows(blocks, ss[j], ss[k], rs[j], rs[k], n - step)
    {
      BlockSpansAdvance(body, blocks[0], n, step, j);
      WindowsInRange(0, |Tokens(body, blocks[0].start, blocks[0].end)|, n, step);
      assert SameBlock(blocks, ss[j], ss[k]);
    }
  }

  lemma OneBlockIsCovered(body: string, blocks: seq<Block>, n: nat, step: nat)
    requires blocks != [] && GoodBlock(body, blocks[0]) && 1 <= step <= n
    ensures var b := blocks[0];
            var t := Tokens(body, b.start, b.end);
            && t != []
            && Covered(body, blocks, n, n - step, t, b.start, b.end,
                       BlockSpans(body, b, n, step), Windows(0, |t|, n, step))
  {
    var b := blocks[0];
    var ss, m := BlockSpans(body, b, n, step), |Tokens(body, b.start, b.end)|;
    BlockSpansHold(body, b, n, step);
    WindowsInRange(0, m, n, step);
    BlockSpansFollow(body, blocks, n, step, ss, Windows(0, m, n, step));
  }

  lemma FollowsInTail(blocks: seq<Block>, s: Span, s': Span, r: Span, r': Span, d: nat, share: nat)
    requires blocks != [] && Follows(blocks[1..], s, s', r, r', share)
    requires blocks[0].end <= s.0 && s'.0 < s'.1
    ensures Follows(blocks, s, s', (r.0 + d, r.1 + d), (r'.0 + d, r'.1 + d), share)
  {
    assert forall i :: 0 <= i < |blocks| - 1 ==> blocks[1..][i] == blocks[i + 1];
    assert forall i :: 0 < i < |blocks| ==> blocks[i] == blocks[1..][i - 1];
  }

  lemma HoldsInPrefix(body: string, s: Span, t: seq<Span>, u: seq<Span>, r: Span, n: nat)
    requires Holds(body, s, t, r, n)
    ensures Holds(body, s, t + u, r, n)
  {
    SliceOfPrefix(t, u, r.0, r.1);
  }

  lemma HoldsInSuffix(body: string, s: Span, t: seq<Span>, u: seq<Span>, r: Span, n: nat)
    requires Holds(body, s, u, r, n)
    ensures Holds(body, s, t + u, (r.0 + |t|, r.1 + |t|), n)
  {
    SliceOfSuffix(t, u, r.0, r.1);
  }

  lemma HoldJoins(body: string, n: nat, lo: nat, m: nat, hi: nat,
                  t: seq<Span>, ss: seq<Span>, rs: seq<Span>, u: seq<Span>, ss': seq<Span>, rs': seq<Span>)
    requires lo <= m <= hi && |ss| == |rs| && |ss'| == |rs'|
    requires AllHold(body, t, n, lo, m, ss, rs) && AllHold(body, u, n, m, hi, ss', rs')
    ensures AllHold(body, t + u, n, lo, hi, ss + ss', rs + Shift(rs', |t|))
  {
    var zs, qs := ss + ss', rs + Shift(rs', |t|);
    forall k | 0 <= k < |zs|
      ensures lo <= zs[k].0 && zs[k].1 <= hi && Holds(body, zs[k], t + u, qs[k], n)
    {
      if k < |ss| {
        HoldsInPrefix(body, ss[k], t, u, rs[k], n);
      } else {
        HoldsInSuffix(body, ss'[k - |ss|], t, u, rs'[k - |ss|], n);
      }
    }
  }

  /** Across the end of the first block nothing is shared. */
  lemma FollowsAcross(blocks: seq<Block>, s: Span, s': Span, r: Span, r': Span, share: nat)
    requires blocks != [] && forall i :: 0 < i < |blocks| ==> blocks[0].end <= blocks[i].start
    requires s.0 < s.1 <= blocks[0].end <= s'.0 < s'.1 && r.1 == r'.0 < r'.1
    ensures Follows(blocks, s, s', r, r', share)
  {
  }

  lemma FollowJoins(blocks: seq<Block>, share: nat, d: nat, ss: seq<Span>, rs: seq<Span>, ss': seq<Span>,
                    rs': seq<Span>)
    requires blocks != [] && forall i :: 0 < i < |blocks| ==> blocks[0].end <= blocks[i].start
    requires |ss| == |rs| && |ss'| == |rs'| && d > 0
    requires forall k :: 0 <= k < |ss| ==> ss[k].0 < ss[k].1 <= blocks[0].end
    requires forall k :: 0 <= k < |ss'| ==> blocks[0].end <= ss'[k].0 < ss'[k].1 && rs'[k].0 < rs'[k].1
    requires Spanning(rs, d) && (rs' != [] ==> rs'[0].0 == 0)
    requires AllFollow(blocks, share, ss, rs) && AllFollow(blocks[1..], share, ss', rs')
    ensures AllFollow(blocks, share, ss + ss', rs + Shift(rs', d))
  {
    var zs, qs := ss + ss', rs + Shift(rs', d);
    forall j, k | 0 <= j < k < |zs| && k == j + 1
      ensures Follows(blocks, zs[j], zs[k], qs[j], qs[k], share)
    {
      if k < |ss| {
      } else if j < |ss| {
        FollowsAcross(blocks, ss[j], ss'[0], rs[j], (d, rs'[0].1 + d), share);
      } else {
        var a, b := j - |ss|, k - |ss|;
        FollowsInTail(blocks, ss'[a], ss'[b], rs'[a], rs'[b], d, share);
      }
    }
  }

  /** Covering the first block and covering the rest cover them all. */
  lemma CoverJoins(body: string, blocks: seq<Block>, n: nat, share: nat, hi: nat,
                   t: seq<Span>, ss: seq<Span>, rs: seq<Span>, u: seq<Span>, ss': seq<Span>, rs': seq<Span>)
    requires blocks != [] && blocks[0].start <= blocks[0].end <= hi && t != []
    requires forall i :: 0 < i < |blocks| ==> blocks[0].end <= blocks[i].start
    requires Covered(body, blocks, n, share, t, blocks[0].start, blocks[0].end, ss, rs)
    requires Covered(body, blocks[1..], n, share, u, blocks[0].end, hi, ss', rs')
    ensures Covered(body, blocks, n, share, t + u, blocks[0].start, hi, ss + ss', rs + Shift(rs', |t|))
  {
    HoldJoins(body, n, blocks[0].start, blocks[0].end, hi, t, ss, rs, u, ss', rs');
    FollowJoins(blocks, share, |t|, ss, rs, ss', rs');
  }

  lemma OrderedTail(body: string, blocks: seq<Block>, lo: nat, hi: nat)
    requires blocks != [] && Ordered(body, blocks, lo, hi)
    ensures GoodBlock(body, blocks[0]) && lo <= blocks[0].start && Ordered(body, blocks[1..], blocks[0].end, hi)
    ensures forall i :: 0 < i < |blocks| ==> blocks[0].end <= blocks[i].start
  {
  }

  lemma CoveredFromEarlier(body: string, blocks: seq<Block>, n: nat, share: nat, t: seq<Span>,
                           lo: nat, lo': nat, hi: nat, ss: seq<Span>, rs: seq<Span>)
    requires Covered(body, blocks, n, share, t, lo, hi, ss, rs) && lo' <= lo
    ensures Covered(body, blocks, n, share, t, lo', hi, ss, rs)
  {
  }

  lemma CoverJoinsFrom(body: string, blocks: seq<Block>, n: nat, share: nat, lo: nat, hi: nat,
                       t: seq<Span>, ss: seq<Span>, rs: seq<Span>, u: seq<Span>, ss': seq<Span>, rs': seq<Span>)
    requires blocks != [] && lo <= blocks[0].start <= blocks[0].end <= hi && t != []
    requires forall i :: 0 < i < |blocks| ==> blocks[0].end <= blocks[i].start
    requires Covered(body, blocks, n, share, t, blocks[0].start, blocks[0].end, ss, rs)
    requires Covered(body, blocks[1..], n, share, u, blocks[0].end, hi, ss', rs')
    ensures Covered(body, blocks, n, share, t + u, lo, hi, ss + ss', rs + Shift(rs', |t|))
  {
    CoverJoins(body, blocks, n, share, hi, t, ss, rs, u, ss', rs');
    CoveredFromEarlier(body, blocks, n, share, t + u, blocks[0].start, lo, hi, ss + ss', rs + Shift(rs', |t|));
  }

  /** Given a cover of the rest, the first block's spans complete it. */
  lemma FirstIsCovered(body: string, blocks: seq<Block>, n: nat, step: nat, lo: nat,
                       u: seq<Span>, ss: seq<Span>, rs: seq<Span>)
    requires blocks != [] && GoodBlock(body, blocks[0]) && lo <= blocks[0].start && 1 <= step <= n
    requires forall i :: 0 < i < |blocks| ==> blocks[0].end <= blocks[i].start
    requires Covered(body, blocks[1..], n, n - step, u, blocks[0].end, |body|, ss, rs)
    ensures var b, t := blocks[0], Tokens(body, blocks[0].start, blocks[0].end);
            && t != []
            && Covered(body, blocks, n, n - step, t + u, lo, |body|,
                       BlockSpans(body, b, n, step) + ss, Windows(0, |t|, n, step) + Shift(rs, |t|))
  {
    var b, t := blocks[0], Tokens(body, blocks[0].start, blocks[0].end);
    OneBlockIsCovered(body, blocks, n, step);
    CoverJoinsFrom(body, blocks, n, n - step, lo, |body|, t, BlockSpans(body, b, n, step), Windows(0, |t|, n, step),
                   u, ss, rs);
  }

  /** What the blocks hold is what the first holds, then what the rest hold. */
  lemma FirstBlockThenRest(body: string, blocks: seq<Block>, n: nat, step: nat, rest: seq<Block>)
    requires blocks != [] && rest == blocks[1..] && 1 <= step <= n
    requires forall k :: 0 <= k < |blocks| ==> blocks[k].start <= blocks[k].end <= |body|
    requires forall k :: 0 <= k < |rest| ==> rest[k].start <= rest[k].end <= |body|
    requires Tokens(body, blocks[0].start, blocks[0].end) != []
    ensures var b, t := blocks[0], Tokens(body, blocks[0].start, blocks[0].end);
            && BlockTokens(body, blocks) == t + BlockTokens(body, rest)
            && AllSpans(body, blocks, n, step) == BlockSpans(body, b, n, step) + AllSpans(body, rest, n, step)
            && AllRanges(body, blocks, n, step)
               == Windows(0, |t|, n, step) + Shift(AllRanges(body, rest, n, step), |t|)
  {
  }

  lemma {:induction false} AllBlocksAreCovered(body: string, blocks: seq<Block>, n: nat, step: nat, lo: nat)
    requires Ordered(body, blocks, lo, |body|) && 1 <= step <= n
    ensures Covered(body, blocks, n, n - step, BlockTokens(body, blocks), lo, |body|,
                    AllSpans(body, blocks, n, step), AllRanges(body, blocks, n, step))
    decreases |blocks|
  {
    if blocks != [] {
      OrderedTail(body, blocks, lo, |body|);
      AllBlocksAreCovered(body, blocks[1..], n, step, blocks[0].end);
      FirstIsCovered(body, blocks, n, step, lo, BlockTokens(body, blocks[1..]),
                     AllSpans(body, blocks[1..], n, step), AllRanges(body, blocks[1..], n, step));
      FirstBlockThenRest(body, blocks, n, step, blocks[1..]);
    }
  }

  // ---------------------------------------------------------------- sections

  /** Where sections begin, and the end of the body. */
  function SectionPoints(body: string, blocks: seq<Block>): seq<nat> {
    var heads := HeadingStarts(blocks);
    (if heads == [] || heads[0] != 0 then [0] else []) + heads + [|body|]
  }

  function HeadingStarts(blocks: seq<Block>): seq<nat> {
    if blocks == [] then []
    else (if blocks[0].isHeading then [blocks[0].start] else []) + HeadingStarts(blocks[1..])
  }

  function SectionRanges(body: string, blocks: seq<Block>): seq<Span> {
    var points := SectionPoints(body, blocks);
    seq(|points| - 1, i requires 0 <= i < |points| - 1 => (points[i], points[i + 1]))
  }

  /** The first section that holds `pos`, trimmed; the whole body where none does. */
  function ParentBlock(body: string, sections: seq<Span>, pos: nat): string {
    if sections == [] then Strip(body)
    else
      var (s, e) := sections[0];
      if s <= pos < e <= |body| then Strip(body[s..e]) else ParentBlock(body, sections[1..], pos)
  }

  lemma {:induction false} Crossing(points: seq<nat>, pos: nat)
    requires |points| >= 2 && points[0] <= pos < points[|points| - 1]
    ensures exists k :: 0 <= k < |points| - 1 && points[k] <= pos < points[k + 1]
  {
    if points[1] > pos {
      assert points[0] <= pos < points[0 + 1];
    } else {
      Crossing(points[1..], pos);
      var k :| 0 <= k < |points[1..]| - 1 && points[1..][k] <= pos < points[1..][k + 1];
      assert points[k + 1] <= pos < points[k + 1 + 1];
    }
  }

  lemma {:induction false} ParentBlockIsASection(body: string, secs: seq<Span>, pos: nat, k: nat) returns (m: nat)
    requires k < |secs| && secs[k].0 <= pos < secs[k].1 <= |body|
    ensures m < |secs| && secs[m].0 <= pos < secs[m].1 <= |body|
    ensures ParentBlock(body, secs, pos) == Strip(body[secs[m].0..secs[m].1])
  {
    if secs[0].0 <= pos < secs[0].1 <= |body| {
      m := 0;
    } else {
      m := ParentBlockIsASection(body, secs[1..], pos, k - 1);
      m := m + 1;
    }
  }

  /** A heading block starts here. */
  predicate IsHeadingStart(blocks: seq<Block>, p: nat) {
    exists i :: 0 <= i < |blocks| && blocks[i].isHeading && blocks[i].start == p
  }

  /** A section: from the start of the body or a heading to the next heading or the end of the body. */
  predicate IsSection(body: string, blocks: seq<Block>, s: nat, e: nat) {
    && s < e <= |body| && (s == 0 || IsHeadingStart(blocks, s)) && (e == |body| || IsHeadingStart(blocks, e))
    && forall h :: s < h < e ==> !IsHeadingStart(blocks, h)
  }

  predicate Rising(points: seq<nat>) {
    forall i, j :: 0 <= i < j < |points| ==> points[i] < points[j]
  }

  lemma HeadingInTail(blocks: seq<Block>, p: nat)
    requires blocks != []
    ensures IsHeadingStart(blocks, p)
            <==> (blocks[0].isHeading && blocks[0].start == p) || IsHeadingStart(blocks[1..], p)
  {
    var rest := blocks[1..];
    if i :| 0 <= i < |rest| && rest[i].isHeading && rest[i].start == p { assert blocks[i + 1].isHeading; }
    if i :| 0 <= i < |blocks| && blocks[i].isHeading && blocks[i].start == p {
      if i > 0 { assert rest[i - 1].isHeading; }
    }
  }

  lemma {:induction false} HeadingStartsAreAll(blocks: seq<Block>, p: nat)
    ensures p in HeadingStarts(blocks) <==> IsHeadingStart(blocks, p)
  {
    if blocks != [] {
      HeadingInTail(blocks, p);
      HeadingStartsAreAll(blocks[1..], p);
    }
  }

  predicate Between(points: seq<nat>, lo: nat, hi: nat) {
    forall k :: 0 <= k < |points| ==> lo <= points[k] < hi
  }

  lemma RisingPrepend(n: nat, points: seq<nat>, next: nat, hi: nat)
    requires Rising(points) && Between(points, next, hi) && n < next && n < hi
    ensures Rising([n] + points) && Between([n] + points, n, hi)
  {
  }

  lemma {:induction false} HeadingStartsRise(body: string, blocks: seq<Block>, lo: nat)
    requires Ordered(body, blocks, lo, |body|)
    ensures Rising(HeadingStarts(blocks)) && Between(HeadingStarts(blocks), lo, |body|)
  {
    if blocks != [] {
      OrderedTail(body, blocks, lo, |body|);
      HeadingStartsRise(body, blocks[1..], blocks[0].end);
      if blocks[0].isHeading {
        RisingPrepend(blocks[0].start, HeadingStarts(blocks[1..]), blocks[0].end, |body|);
      }
    }
  }

  lemma RisingAppend(points: seq<nat>, n: nat)
    requires Rising(points) && forall k :: 0 <= k < |points| ==> points[k] < n
    ensures Rising(points + [n])
  {
  }

  function FromZero(heads: seq<nat>): seq<nat> {
    if heads == [] || heads[0] != 0 then [0] + heads else heads
  }

  lemma FromZeroRises(heads: seq<nat>, n: nat)
    requires Rising(heads) && 0 < n && forall h :: h in heads ==> h < n
    ensures Rising(FromZero(heads)) && FromZero(heads) != [] && FromZero(heads)[0] == 0
    ensures forall k :: 0 <= k < |FromZero(heads)| ==> FromZero(heads)[k] < n
  {
    assert forall k :: 0 <= k < |heads| ==> heads[k] in heads;
  }

  /** The section points: 0, every start of a heading, and the end, in rising order. */
  lemma SectionPointsAre(body: string, blocks: seq<Block>, p: nat)
    requires Ordered(body, blocks, 0, |body|) && body != ""
    ensures var points := SectionPoints(body, blocks);
            && |points| >= 2 && points[0] == 0 && points[|points| - 1] == |body| && Rising(points)
            && (p in points <==> p == 0 || p == |body| || IsHeadingStart(blocks, p))
  {
    var heads := HeadingStarts(blocks);
    HeadingStartsAreAll(blocks, p);
    HeadingStartsRise(body, blocks, 0);
    FromZeroRises(heads, |body|);
    RisingAppend(FromZero(heads), |body|);
    EmptyIsUnit(heads);
    assert SectionPoints(body, blocks) == FromZero(heads) + [|body|];
    assert p in FromZero(heads) <==> p == 0 || p in heads;
  }

  lemma NoneBetween(points: seq<nat>, k: nat, h: nat)
    requires Rising(points) && k + 1 < |points| && points[k] < h < points[k + 1]
    ensures h !in points
  {
    forall m | 0 <= m < |points| ensures points[m] != h {
      if m < k || m > k + 1 { assert points[m] < points[k] || points[m] > points[k + 1]; }
    }
  }

  /** Two neighbouring points bound a section. */
  lemma NeighboursBoundASection(body: string, blocks: seq<Block>, k: nat)
    requires Ordered(body, blocks, 0, |body|) && body != "" && k + 1 < |SectionPoints(body, blocks)|
    ensures IsSection(body, blocks, SectionPoints(body, blocks)[k], SectionPoints(body, blocks)[k + 1])
  {
    var points := SectionPoints(body, blocks);
    SectionPointsAre(body, blocks, points[k]);
    SectionPointsAre(body, blocks, points[k + 1]);
    forall h | points[k] < h < points[k + 1] ensures !IsHeadingStart(blocks, h) {
      SectionPointsAre(body, blocks, h);
      NoneBetween(points, k, h);
    }
  }

  /** The section found for a block is the one it stands in, and holds the whole block. */
  lemma ParentHoldsBlock(body: string, blocks: seq<Block>, i: nat) returns (s: nat, e: nat)
    requires Ordered(body, blocks, 0, |body|) && i < |blocks|
    ensures IsSection(body, blocks, s, e) && s <= blocks[i].start && blocks[i].end <= e
    ensures ParentBlock(body, SectionRanges(body, blocks), blocks[i].start) == Strip(body[s..e])
  {
    var points, secs, pos := SectionPoints(body, blocks), SectionRanges(body, blocks), blocks[i].start;
    SectionPointsAre(body, blocks, 0);
    Crossing(points, pos);
    var k :| 0 <= k < |points| - 1 && points[k] <= pos < points[k + 1];
    NeighboursBoundASection(body, blocks, k);
    var m := ParentBlockIsASection(body, secs, pos, k);
    NeighboursBoundASection(body, blocks, m);
    s, e := secs[m].0, secs[m].1;
    SectionHoldsBlock(body, blocks, i, s, e);
  }

  /** A block does not cross the end of its section. */
  lemma SectionHoldsBlock(body: string, blocks: seq<Block>, i: nat, s: nat, e: nat)
    requires Ordered(body, blocks, 0, |body|) && i < |blocks| && IsSection(body, blocks, s, e)
    requires s <= blocks[i].start < e
    ensures blocks[i].end <= e
  {
    if e < |body| {
      var j :| 0 <= j < |blocks| && blocks[j].isHeading && blocks[j].start == e;
    }
  }

  lemma {:induction false} LStripIsSuffix(u: string) returns (l: nat)
    ensures l <= |u| && LStrip(u) == u[l..] && AllSpace(u[..l]) && (l < |u| ==> !IsSpace(u[l]))
  {
    if u != "" && IsSpace(u[0]) {
      l := LStripIsSuffix(u[1..]);
      l := l + 1;
      assert forall k :: 0 < k < l ==> u[..l][k] == u[1..][..l - 1][k - 1];
    } else {
      l := 0;
    }
  }

  lemma {:induction false} RStripIsPrefix(u: string) returns (r: nat)
    ensures r <= |u| && RStrip(u) == u[..r] && AllSpace(u[r..]) && (r > 0 ==> !IsSpace(u[r - 1]))
    decreases |u|
  {
    if u != "" && IsSpace(u[|u| - 1]) {
      r := RStripIsPrefix(u[..|u| - 1]);
      assert forall k :: 0 <= k < |u| - 1 - r ==> u[r..][k] == u[..|u| - 1][r..][k];
    } else {
      r := |u|;
    }
  }

  /** A slice that starts and ends visibly survives trimming of what it is a slice of. */
  lemma StripKeepsVisibleSlices(u: string, i: nat, j: nat)
    requires i < j <= |u| && !IsSpace(u[i]) && !IsSpace(u[j - 1])
    ensures IsSubstring(u[i..j], Strip(u))
  {
    var l := LStripIsSuffix(u);
    var v := u[l..];
    assert l <= i by { assert forall k :: 0 <= k < l ==> u[k] == u[..l][k]; }
    var r := RStripIsPrefix(v);
    assert v[j - 1 - l] == u[j - 1];
    assert j - l <= r by { assert forall k :: r <= k < |v| ==> v[k] == v[r..][k - r]; }
    assert u[i..j] == v[i - l..j - l];
    assert v[i - l..j - l] == v[..r][i - l..j - l];
    assert OccursAt(u[i..j], Strip(u), i - l);
  }

  /** Trimming a slice gives a piece of the trimmed whole. */
  lemma StripOfSliceIsInside(u: string, i: nat, j: nat)
    requires i <= j <= |u|
    ensures IsSubstring(Strip(u[i..j]), Strip(u))
  {
    var x := u[i..j];
    var l := LStripIsSuffix(x);
    var v := x[l..];
    var r := RStripIsPrefix(v);
    if r == 0 {
      assert OccursAt("", Strip(u), 0);
    } else {
      assert v[0] == x[l] && v[0] == u[i + l] && v[r - 1] == u[i + l + r - 1];
      assert Strip(x) == u[i + l..i + l + r];
      StripKeepsVisibleSlices(u, i + l, i + l + r);
    }
  }

  // ---------------------------------------------------------------- passages

  datatype Passage = Passage(passageId: string, targetVersion: string, ord: nat, charRange: string,
                             text: string, parentBlock: string)

  datatype ChunkSettings = ChunkSettings(thresholdTokens: nat, overlapTokens: nat)

  /** The step between windows: at least 1, even where the overlap reaches the threshold. */
  function StepOf(c: ChunkSettings): (step: nat)
    requires c.thresholdTokens > 0
    ensures 1 <= step <= c.thresholdTokens
  {
    if c.overlapTokens < c.thresholdTokens then c.thresholdTokens - c.overlapTokens else 1
  }

  function CharRange(s: Span): string {
    Print(s.0) + ":" + Print(s.1)
  }

  /** Start and end offsets read back from a stored range; None where either does not parse. */
  function ParseCharRange(charRange: Option<string>): Option<(int, int)> {
    if charRange.None? then None
    else
      var r := charRange.value;
      var k := Run(r, 0, (c: char) => c != ':');
      if k == |r| then None
      else
        match (ParseInt(r[..k]), ParseInt(r[k + 1..]))
        case (Some(a), Some(b)) => Some((a, b))
        case _ => None
  }

  function PassageOf(body: string, target: string, ord: nat, s: Span, parent: string): Passage
    requires s.0 <= s.1 <= |body|
  {
    Passage(target + ":" + Print(ord), target, ord, CharRange(s), body[s.0..s.1], parent)
  }

  function BlockPassages(body: string, target: string, ord: nat, spans: seq<Span>, parent: string): seq<Passage>
    requires forall k :: 0 <= k < |spans| ==> spans[k].0 <= spans[k].1 <= |body|
  {
    seq(|spans|, k requires 0 <= k < |spans| => PassageOf(body, target, ord + k, spans[k], parent))
  }

  predicate BlocksInBody(body: string, blocks: seq<Block>) {
    forall k :: 0 <= k < |blocks| ==> blocks[k].start <= blocks[k].end <= |body|
  }

  lemma BlockSpansInBody(body: string, b: Block, n: nat, step: nat)
    requires b.start <= b.end <= |body| && 1 <= step <= n
    ensures forall k :: 0 <= k < |BlockSpans(body, b, n, step)| ==>
              BlockSpans(body, b, n, step)[k].0 <= BlockSpans(body, b, n, step)[k].1 <= |body|
  {
    TokensAreInOrder(body, b.start, b.end);
    var t := Tokens(body, b.start, b.end);
    if |t| > n {
      WindowsInRange(0, |t|, n, step);
      forall k | 0 <= k < |BlockSpans(body, b, n, step)|
        ensures BlockSpans(body, b, n, step)[k].0 <= BlockSpans(body, b, n, step)[k].1 <= |body|
      {
        var w := Windows(0, |t|, n, step)[k];
        assert t[w.0].0 < t[w.0].1 <= t[w.1 - 1].1;
      }
    }
  }

  /** The spans of one block, and the section they all belong to. */
  datatype Group = Group(spans: seq<Span>, parent: string)

  predicate GroupsInBody(body: string, groups: seq<Group>) {
    forall i, k :: 0 <= i < |groups| && 0 <= k < |groups[i].spans| ==>
      groups[i].spans[k].0 <= groups[i].spans[k].1 <= |body|
  }

  function GroupOf(body: string, secs: seq<Span>, b: Block, n: nat, step: nat): (g: Group)
    requires b.start <= b.end <= |body| && 1 <= step <= n
    ensures forall k :: 0 <= k < |g.spans| ==> g.spans[k].0 <= g.spans[k].1 <= |body|
  {
    BlockSpansInBody(body, b, n, step);
    Group(BlockSpans(body, b, n, step), ParentBlock(body, secs, b.start))
  }

  function GroupsOf(body: string, secs: seq<Span>, blocks: seq<Block>, n: nat, step: nat): (gs: seq<Group>)
    requires 1 <= step <= n && BlocksInBody(body, blocks)
    ensures GroupsInBody(body, gs)
  {
    seq(|blocks|, i requires 0 <= i < |blocks| => GroupOf(body, secs, blocks[i], n, step))
  }

  function PassagesOf(body: string, target: string, groups: seq<Group>): seq<Passage>
    requires GroupsInBody(body, groups)
  {
    if groups == [] then []
    else
      var init, g := PassagesOf(body, target, groups[..|groups| - 1]), groups[|groups| - 1];
      init + BlockPassages(body, target, |init|, g.spans, g.parent)
  }

  function Flat(groups: seq<Group>): seq<Span> {
    if groups == [] then [] else Flat(groups[..|groups| - 1]) + groups[|groups| - 1].spans
  }

  lemma SegmentIsOrdered(body: string)
    ensures Ordered(body, SegmentFrom(body, 0, None), 0, |body|)
    ensures BlockTokens(body, SegmentFrom(body, 0, None)) == Tokens(body, 0, |body|)
  {
    SegmentHoldsTokens(body, 0, None);
  }

  /** The passages of a body, as a function: what `chunk` returns. */
  function Chunks(body: string, target: string, c: ChunkSettings): seq<Passage>
    requires c.thresholdTokens > 0
  {
    SegmentIsOrdered(body);
    var blocks := SegmentFrom(body, 0, None);
    PassagesOf(body, target, GroupsOf(body, SectionRanges(body, blocks), blocks, c.thresholdTokens, StepOf(c)))
  }

  method AppendPassages(body: string, target: string, spans: seq<Span>, parent: string, before: seq<Passage>)
    returns (passages: seq<Passage>)
    requires forall k :: 0 <= k < |spans| ==> spans[k].0 <= spans[k].1 <= |body|
    ensures passages == before + BlockPassages(body, target, |before|, spans, parent)
  {
    passages := before;
    ghost var mine := BlockPassages(body, target, |before|, spans, parent);
    for k := 0 to |spans|
      invariant passages == before + mine[..k]
    {
      passages := passages + [PassageOf(body, target, |passages|, spans[k], parent)];
      assert mine[..k + 1] == mine[..k] + [mine[k]];
    }
    assert mine[..|spans|] == mine;
  }

  lemma OneGroupMore(body: string, target: string, groups: seq<Group>, i: nat)
    requires GroupsInBody(body, groups) && i < |groups|
    ensures GroupsInBody(body, groups[..i]) && GroupsInBody(body, groups[..i + 1])
    ensures var init := PassagesOf(body, target, groups[..i]);
            PassagesOf(body, target, groups[..i + 1])
            == init + BlockPassages(body, target, |init|, groups[i].spans, groups[i].parent)
  {
    assert groups[..i + 1][..i] == groups[..i];
  }

  method Chunk(body: string, target: string, c: ChunkSettings) returns (passages: seq<Passage>)
    requires c.thresholdTokens > 0
    ensures passages == Chunks(body, target, c)
  {
    var n, step := c.thresholdTokens, StepOf(c);
    var blocks := Segment(body);
    SegmentIsOrdered(body);
    passages := [];
    if blocks == [] {
      return;
    }
    var sections := SectionRanges(body, blocks);
    ghost var groups := GroupsOf(body, sections, blocks, n, step);
    for i := 0 to |blocks|
      invariant GroupsInBody(body, groups[..i]) && passages == PassagesOf(body, target, groups[..i])
    {
      OneGroupMore(body, target, groups, i);
      var parent := ParentBlock(body, sections, blocks[i].start);
      var spans := SplitBlock(body, blocks[i], n, step);
      passages := AppendPassages(body, target, spans, parent, passages);
    }
    assert groups[..|blocks|] == groups;
  }

  /** A stored range parses back to the offsets it was printed from. */
  lemma CharRangeRoundTrip(s: Span)
    ensures ParseCharRange(Some(CharRange(s))) == Some((s.0, s.1))
  {
    var r, a := CharRange(s), Print(s.0);
    PrintIsDigits(s.0);
    assert r[..|a|] == a && r[|a|] == ':' && r[|a| + 1..] == Print(s.1);
    assert forall i :: 0 <= i < |a| ==> r[i] == a[i];
    RunStopsAt(r, 0, |a|, (c: char) => c != ':');
    IntRoundTrip(s.0);
    IntRoundTrip(s.1);
  }

  lemma {:induction false} RunStopsAt(s: string, i: nat, j: nat, test: char -> bool)
    requires i <= j < |s| && !test(s[j]) && forall k :: i <= k < j ==> test(s[k])
    ensures Run(s, i, test) == j
    decreases j - i
  {
    if i < j { RunStopsAt(s, i + 1, j, test); }
  }

  /** Passage `p`, numbered `ord`, is cut at a span of some group and carries its section. */
  predicate CutFrom(body: string, target: string, groups: seq<Group>, p: Passage, ord: nat, s: Span) {
    && s.0 <= s.1 <= |body|
    && exists i :: 0 <= i < |groups| && s in groups[i].spans && p == PassageOf(body, target, ord, s, groups[i].parent)
  }

  lemma CutFromMore(body: string, target: string, init: seq<Group>, g: Group, p: Passage, ord: nat, s: Span)
    requires CutFrom(body, target, init, p, ord, s)
    ensures CutFrom(body, target, init + [g], p, ord, s)
  {
    var i :| 0 <= i < |init| && s in init[i].spans && p == PassageOf(body, target, ord, s, init[i].parent);
    assert (init + [g])[i] == init[i];
  }

  lemma CutFromLast(body: string, target: string, init: seq<Group>, g: Group, ord: nat, s: Span)
    requires s in g.spans && s.0 <= s.1 <= |body|
    ensures CutFrom(body, target, init + [g], PassageOf(body, target, ord, s, g.parent), ord, s)
  {
    assert (init + [g])[|init|] == g;
  }

  lemma {:induction false} PassagesAreCut(body: string, target: string, groups: seq<Group>)
    requires GroupsInBody(body, groups)
    ensures |PassagesOf(body, target, groups)| == |Flat(groups)|
    ensures forall k :: 0 <= k < |Flat(groups)| ==>
              CutFrom(body, target, groups, PassagesOf(body, target, groups)[k], k, Flat(groups)[k])
  {
    if groups != [] {
      var n := |groups| - 1;
      var init, g := groups[..n], groups[n];
      assert groups == init + [g];
      PassagesAreCut(body, target, init);
      forall k | 0 <= k < |Flat(groups)|
        ensures CutFrom(body, target, groups, PassagesOf(body, target, groups)[k], k, Flat(groups)[k])
      {
        if k < |Flat(init)| {
          CutFromMore(body, target, init, g, PassagesOf(body, target, init)[k], k, Flat(init)[k]);
        } else {
          CutFromLast(body, target, init, g, k, g.spans[k - |Flat(init)|]);
        }
      }
    }
  }

  lemma {:induction false} FlatCons(g: Group, groups: seq<Group>)
    ensures Flat([g] + groups) == g.spans + Flat(groups)
  {
    var all := [g] + groups;
    if groups == [] {
      assert all[..0] == [];
      EmptyIsUnit(g.spans);
    } else {
      var init := groups[..|groups| - 1];
      assert all[..|all| - 1] == [g] + init;
      FlatCons(g, init);
      ConcatAssociates(g.spans, Flat(init), groups[|groups| - 1].spans);
    }
  }

  lemma GroupsCons(body: string, secs: seq<Span>, blocks: seq<Block>, n: nat, step: nat, rest: seq<Block>)
    requires 1 <= step <= n && BlocksInBody(body, blocks) && BlocksInBody(body, rest)
    requires blocks != [] && rest == blocks[1..]
    ensures GroupsOf(body, secs, blocks, n, step)
            == [GroupOf(body, secs, blocks[0], n, step)] + GroupsOf(body, secs, rest, n, step)
  {
    var l := GroupsOf(body, secs, blocks, n, step);
    var r := [GroupOf(body, secs, blocks[0], n, step)] + GroupsOf(body, secs, rest, n, step);
    assert |l| == |r| && forall k :: 0 <= k < |l| ==> l[k] == r[k];
  }

  lemma {:induction false} FlatIsAllSpans(body: string, secs: seq<Span>, blocks: seq<Block>, n: nat, step: nat)
    requires 1 <= step <= n && BlocksInBody(body, blocks)
    ensures Flat(GroupsOf(body, secs, blocks, n, step)) == AllSpans(body, blocks, n, step)
  {
    if blocks != [] {
      FlatIsAllSpans(body, secs, blocks[1..], n, step);
      GroupsCons(body, secs, blocks, n, step, blocks[1..]);
      FlatCons(GroupOf(body, secs, blocks[0], n, step), GroupsOf(body, secs, blocks[1..], n, step));
    }
  }

  // ---------------------------------------------------------------- what chunking promises

  function Blocks(body: string): seq<Block> {
    SegmentFrom(body, 0, None)
  }

  /** The spans of all passages, in order, and the ranges of the body's tokens they hold. */
  function PassageSpans(body: string, c: ChunkSettings): seq<Span>
    requires c.thresholdTokens > 0
  {
    SegmentIsOrdered(body);
    AllSpans(body, Blocks(body), c.thresholdTokens, StepOf(c))
  }

  function PassageRanges(body: string, c: ChunkSettings): seq<Span>
    requires c.thresholdTokens > 0
  {
    SegmentIsOrdered(body);
    AllRanges(body, Blocks(body), c.thresholdTokens, StepOf(c))
  }

  lemma ChunkCount(body: string, target: string, c: ChunkSettings)
    requires c.thresholdTokens > 0
    ensures |Chunks(body, target, c)| == |PassageSpans(body, c)|
  {
    SegmentIsOrdered(body);
    var blocks, n, step := Blocks(body), c.thresholdTokens, StepOf(c);
    var secs := SectionRanges(body, blocks);
    PassagesAreCut(body, target, GroupsOf(body, secs, blocks, n, step));
    FlatIsAllSpans(body, secs, blocks, n, step);
  }

  /** Passage `k` has number `k`, its text is the slice its range names, the range parses back to
      that slice, and the text, trimmed, occurs in the section carried with it. */
  lemma PassagesAreWellCut(body: string, target: string, c: ChunkSettings, k: nat)
    requires c.thresholdTokens > 0 && k < |Chunks(body, target, c)|
    ensures |Chunks(body, target, c)| == |PassageSpans(body, c)|
    ensures var p, (s, e) := Chunks(body, target, c)[k], PassageSpans(body, c)[k];
            && p.ord == k && p.passageId == target + ":" + Print(k) && p.targetVersion == target
            && s <= e <= |body| && p.text == body[s..e]
            && ParseCharRange(Some(p.charRange)) == Some((s, e))
            && IsSubstring(Strip(p.text), p.parentBlock)
  {
    SegmentIsOrdered(body);
    var blocks, n, step := Blocks(body), c.thresholdTokens, StepOf(c);
    var secs := SectionRanges(body, blocks);
    var groups := GroupsOf(body, secs, blocks, n, step);
    PassagesAreCut(body, target, groups);
    FlatIsAllSpans(body, secs, blocks, n, step);
    var p, span := Chunks(body, target, c)[k], PassageSpans(body, c)[k];
    assert CutFrom(body, target, groups, p, k, span);
    var i :| 0 <= i < |groups| && span in groups[i].spans && p == PassageOf(body, target, k, span, groups[i].parent);
    CharRangeRoundTrip(span);
    TextIsInsideSection(body, blocks, i, n, step, span);
  }

  lemma SpanIsInsideBlock(body: string, b: Block, n: nat, step: nat, span: Span)
    requires GoodBlock(body, b) && 1 <= step <= n && span in BlockSpans(body, b, n, step)
    ensures b.start <= span.0 <= span.1 <= b.end
  {
    HasTokenMeansTokens(body, b.start, b.end);
    var k :| 0 <= k < |BlockSpans(body, b, n, step)| && BlockSpans(body, b, n, step)[k] == span;
    BlockSpanHoldsWindow(body, b, n, step, k);
  }

  lemma SliceIsInsideParent(body: string, parent: string, s: nat, e: nat, span: Span)
    requires s <= span.0 <= span.1 <= e <= |body| && parent == Strip(body[s..e])
    ensures IsSubstring(Strip(body[span.0..span.1]), parent)
  {
    StripOfSliceIsInside(body[s..e], span.0 - s, span.1 - s);
    SliceOfSlice(body, s, e, span.0 - s, span.1 - s);
  }

  lemma TextIsInsideSection(body: string, blocks: seq<Block>, i: nat, n: nat, step: nat, span: Span)
    requires Ordered(body, blocks, 0, |body|) && i < |blocks| && 1 <= step <= n
    requires span in BlockSpans(body, blocks[i], n, step)
    ensures span.0 <= span.1 <= |body|
    ensures IsSubstring(Strip(body[span.0..span.1]), ParentBlock(body, SectionRanges(body, blocks), blocks[i].start))
  {
    SpanIsInsideBlock(body, blocks[i], n, step, span);
    var s, e := ParentHoldsBlock(body, blocks, i);
    SliceIsInsideParent(body, ParentBlock(body, SectionRanges(body, blocks), blocks[i].start), s, e, span);
  }

  /** Every passage comes from one block and carries that block's section, trimmed: the text from the
      heading at or before it, or the start of the body, to the next heading or the end. */
  lemma PassagesCarryTheirSection(body: string, target: string, c: ChunkSettings, k: nat)
    returns (i: nat, s: nat, e: nat)
    requires c.thresholdTokens > 0 && k < |Chunks(body, target, c)|
    ensures i < |Blocks(body)| && IsSection(body, Blocks(body), s, e)
    ensures |PassageSpans(body, c)| == |Chunks(body, target, c)|
    ensures s <= Blocks(body)[i].start <= PassageSpans(body, c)[k].0
    ensures PassageSpans(body, c)[k].1 <= Blocks(body)[i].end <= e
    ensures Chunks(body, target, c)[k].parentBlock == Strip(body[s..e])
  {
    SegmentIsOrdered(body);
    var blocks, n, step := Blocks(body), c.thresholdTokens, StepOf(c);
    var groups := GroupsOf(body, SectionRanges(body, blocks), blocks, n, step);
    PassagesAreCut(body, target, groups);
    FlatIsAllSpans(body, SectionRanges(body, blocks), blocks, n, step);
    var p, span := Chunks(body, target, c)[k], Flat(groups)[k];
    assert CutFrom(body, target, groups, p, k, span);
    var g :| 0 <= g < |groups| && span in groups[g].spans && p == PassageOf(body, target, k, span, groups[g].parent);
    i := g;
    SpanIsInsideBlock(body, blocks[g], n, step, span);
    s, e := ParentHoldsBlock(body, blocks, g);
  }

  /** Over a whole body: each passage holds one stretch of its tokens, at most N of them; the
      stretches run from the first token to the last; passages start strictly later each time; and
      neighbours share exactly min(overlap, N - 1) tokens inside a block and none across blocks. */
  lemma PassagesCoverTheBody(body: string, c: ChunkSettings)
    requires c.thresholdTokens > 0
    ensures Covered(body, Blocks(body), c.thresholdTokens, Min(c.overlapTokens, c.thresholdTokens - 1),
                    Tokens(body, 0, |body|), 0, |body|, PassageSpans(body, c), PassageRanges(body, c))
  {
    SegmentIsOrdered(body);
    AllBlocksAreCovered(body, Blocks(body), c.thresholdTokens, StepOf(c), 0);
  }

  /** The lists joined, each without what it repeats of the list before; `p` tokens are given out already. */
  function Rejoin(lists: seq<seq<Span>>, rs: seq<Span>, p: nat): seq<Span>
    requires |lists| == |rs|
  {
    if lists == [] then []
    else
      (if rs[0].0 <= p <= rs[0].0 + |lists[0]| then lists[0][p - rs[0].0..] else [])
      + Rejoin(lists[1..], rs[1..], rs[0].1)
  }

  lemma {:induction false} RejoinGivesAll(t: seq<Span>, lists: seq<seq<Span>>, rs: seq<Span>, p: nat)
    requires |lists| == |rs| && p <= |t|
    requires forall k :: 0 <= k < |rs| ==> rs[k].0 < rs[k].1 <= |t| && lists[k] == t[rs[k].0..rs[k].1]
    requires forall j, k :: 0 <= j < k < |rs| && k == j + 1 ==> rs[k].0 <= rs[j].1 < rs[k].1
    requires if rs == [] then p == |t| else rs[0].0 <= p < rs[0].1 && rs[|rs| - 1].1 == |t|
    ensures Rejoin(lists, rs, p) == t[p..]
    decreases |rs|
  {
    if rs != [] {
      var e := rs[0].1;
      assert lists[0][p - rs[0].0..] == t[p..e];
      var rest := rs[1..];
      assert forall j, k :: 0 <= j < k < |rest| && k == j + 1 ==> rest[j] == rs[j + 1] && rest[k] == rs[k + 1];
      if rest != [] { assert rest[0] == rs[1]; }
      RejoinGivesAll(t, lists[1..], rest, e);
      SliceJoins(t, p, e);
    }
  }

  lemma CoveredRejoins(body: string, blocks: seq<Block>, n: nat, share: nat, t: seq<Span>, hi: nat,
                       ss: seq<Span>, rs: seq<Span>)
    requires Covered(body, blocks, n, share, t, 0, hi, ss, rs)
    requires forall j, k :: 0 <= j < k < |rs| && k == j + 1 ==> rs[k].0 <= rs[j].1
    ensures SpansInBody(body, ss) && Rejoin(TokenLists(body, ss), rs, 0) == t
  {
    assert forall k :: 0 <= k < |ss| ==> Holds(body, ss[k], t, rs[k], n);
    var lists := TokenLists(body, ss);
    assert forall k :: 0 <= k < |rs| ==> lists[k] == t[rs[k].0..rs[k].1];
    assert forall j, k :: 0 <= j < k < |rs| && k == j + 1 ==> Follows(blocks, ss[j], ss[k], rs[j], rs[k], share);
    RejoinGivesAll(t, lists, rs, 0);
    assert t[0..] == t;
  }

  /** Chunking loses nothing: joining the passages' token lists, without what each window repeats
      of the one before, gives exactly the body's tokens in order. */
  lemma ChunkingLosesNothing(body: string, c: ChunkSettings)
    requires c.thresholdTokens > 0
    ensures var ss := PassageSpans(body, c);
            && |ss| == |PassageRanges(body, c)| && SpansInBody(body, ss)
            && Rejoin(TokenLists(body, ss), PassageRanges(body, c), 0) == Tokens(body, 0, |body|)
  {
    PassagesCoverTheBody(body, c);
    var n := c.thresholdTokens;
    CoveredRejoins(body, Blocks(body), n, Min(c.overlapTokens, n - 1), Tokens(body, 0, |body|), |body|,
                   PassageSpans(body, c), PassageRanges(body, c));
  }

  ghost predicate SpansInBody(body: string, ss: seq<Span>) {
    forall k :: 0 <= k < |ss| ==> ss[k].0 <= ss[k].1 <= |body|
  }

  function TokenLists(body: string, ss: seq<Span>): seq<seq<Span>>
    requires SpansInBody(body, ss)
  {
    seq(|ss|, k requires 0 <= k < |ss| => Tokens(body, ss[k].0, ss[k].1))
  }

  // ---------------------------------------------------------------- every visible character is in a passage

  lemma {:induction false} TokenAt(body: string, lo: nat, hi: nat, d: nat) returns (i: nat)
    requires lo <= d < hi <= |body| && !IsSpace(body[d])
    ensures i < |Tokens(body, lo, hi)| && Tokens(body, lo, hi)[i].0 <= d < Tokens(body, lo, hi)[i].1
    decreases hi - lo
  {
    if IsSpace(body[lo]) {
      i := TokenAt(body, lo + 1, hi, d);
    } else {
      var e := TokenEnd(body, lo, hi);
      if d < e {
        i := 0;
      } else {
        i := TokenAt(body, e, hi, d);
        i := i + 1;
      }
    }
  }

  /** Ranges that run from the first index to the last without a gap leave none out. */
  lemma {:induction false} RangeOf(rs: seq<Span>, i: nat, m: nat, n: nat) returns (k: nat)
    requires n <= |rs| && (n == 0 ==> i < m) && (n > 0 ==> rs[n - 1].1 <= i)
    requires Spanning(rs, m) && i < m
    requires forall j, k :: 0 <= j < k < |rs| && k == j + 1 ==> rs[k].0 <= rs[j].1
    ensures k < |rs| && rs[k].0 <= i < rs[k].1
    decreases |rs| - n
  {
    if n < |rs| {
      if rs[n].1 > i {
        k := n;
      } else {
        k := RangeOf(rs, i, m, n + 1);
      }
    }
  }

  lemma CoveredHoldsAll(body: string, blocks: seq<Block>, n: nat, share: nat, t: seq<Span>, hi: nat,
                        ss: seq<Span>, rs: seq<Span>, i: nat) returns (k: nat)
    requires Covered(body, blocks, n, share, t, 0, hi, ss, rs) && i < |t|
    ensures k < |ss| && ss[k].0 <= t[i].0 && t[i].1 <= ss[k].1
  {
    forall j, k | 0 <= j < k < |rs| && k == j + 1 ensures rs[k].0 <= rs[j].1 {
      assert Follows(blocks, ss[j], ss[k], rs[j], rs[k], share);
    }
    k := RangeOf(rs, i, |t|, 0);
    assert Holds(body, ss[k], t, rs[k], n);
    TokensAreInOrder(body, ss[k].0, ss[k].1);
    assert t[i] == t[rs[k].0..rs[k].1][i - rs[k].0];
  }

  /** Every visible character of a body stands in some passage. */
  lemma VisibleIsInAPassage(body: string, c: ChunkSettings, d: nat) returns (k: nat)
    requires c.thresholdTokens > 0 && d < |body| && !IsSpace(body[d])
    ensures k < |PassageSpans(body, c)| && PassageSpans(body, c)[k].0 <= d < PassageSpans(body, c)[k].1
  {
    var n := c.thresholdTokens;
    var i := TokenAt(body, 0, |body|, d);
    PassagesCoverTheBody(body, c);
    k := CoveredHoldsAll(body, Blocks(body), n, Min(c.overlapTokens, n - 1), Tokens(body, 0, |body|), |body|,
                         PassageSpans(body, c), PassageRanges(body, c), i);
  }

  lemma StripIsSlice(u: string) returns (i: nat, j: nat)
    ensures i <= j <= |u| && Strip(u) == u[i..j]
  {
    i := LStripIsSuffix(u);
    var r := RStripIsPrefix(u[i..]);
    j := i + r;
  }

  lemma {:induction false} ParentIsSlice(body: string, secs: seq<Span>, pos: nat) returns (i: nat, j: nat)
    ensures i <= j <= |body| && ParentBlock(body, secs, pos) == body[i..j]
  {
    if secs == [] {
      i, j := StripIsSlice(body);
    } else {
      var (s, e) := secs[0];
      if s <= pos < e <= |body| {
        i, j := StripIsSlice(body[s..e]);
        SliceOfSlice(body, s, e, i, j);
        i, j := s + i, s + j;
      } else {
        i, j := ParentIsSlice(body, secs[1..], pos);
      }
    }
  }

  /** The text of a passage and the section carried with it are pieces of the body. */
  lemma PassagesAreSlices(body: string, target: string, c: ChunkSettings, k: nat)
    returns (s: nat, e: nat, i: nat, j: nat)
    requires c.thresholdTokens > 0 && k < |Chunks(body, target, c)|
    ensures s <= e <= |body| && Chunks(body, target, c)[k].text == body[s..e]
    ensures i <= j <= |body| && Chunks(body, target, c)[k].parentBlock == body[i..j]
  {
    SegmentIsOrdered(body);
    var blocks, n, step := Blocks(body), c.thresholdTokens, StepOf(c);
    var secs := SectionRanges(body, blocks);
    var groups := GroupsOf(body, secs, blocks, n, step);
    PassagesAreCut(body, target, groups);
    var p, span := Chunks(body, target, c)[k], Flat(groups)[k];
    assert CutFrom(body, target, groups, p, k, span);
    var g :| 0 <= g < |groups| && span in groups[g].spans && p == PassageOf(body, target, k, span, groups[g].parent);
    s, e := span.0, span.1;
    i, j := ParentIsSlice(body, secs, blocks[g].start);
  }
}
