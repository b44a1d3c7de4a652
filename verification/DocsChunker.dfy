/** The fence-aware chunker of the documentation index. */
module DocsChunker {
  import opened Text
  import opened Fences
  import C = Chunking
  import Utf8

  const MAX_UNIT_BYTES: nat := 16384

  /** 1-based, inclusive line ranges. */
  type Range = (nat, nat)

  datatype Unit = Unit(lineLo: nat, lineHi: nat, firstLine: string, body: string)

  // ---------------------------------------------------------------- lines

  /** A line without the break it ends in. */
  function WithoutBreak(line: string): string {
    var n := |line|;
    if n >= 2 && line[n - 2] == '\r' && line[n - 1] == '\n' then line[..n - 2]
    else if n >= 1 && C.IsLineBreak(line[n - 1]) then line[..n - 1]
    else line
  }

  /** `text.splitlines()` from `i` on. */
  function SplitLines(text: string, i: nat): seq<string>
    requires i <= |text|
    decreases |text| - i
  {
    if i == |text| then []
    else
      var e := C.LineEnd(text, i);
      [WithoutBreak(text[i..e])] + SplitLines(text, e)
  }

  // ---------------------------------------------------------------- boundaries

  /** The level of an ATX heading, 0 for any other line. */
  function Level(line: string): nat {
    if C.IsHeading(line) then C.Run(line, 0, (c: char) => c == '#') else 0
  }

  /** `^-\s` */
  predicate IsBullet(line: string) {
    line != "" && line[0] == '-' && C.SpaceAt(line, 1)
  }

  predicate IsBlank(line: string) {
    Strip(line) == ""
  }

  /** The lines of a file with their fence flags. */
  datatype Doc = Doc(lines: seq<string>, flags: seq<bool>) {
    predicate Valid() {
      |flags| == |lines|
    }

    predicate Open(i: nat) {
      i < |lines| && i < |flags| && !flags[i]
    }

    predicate HeadingAt(level: nat, i: nat) {
      Open(i) && Level(lines[i]) == level > 0
    }

    predicate BulletAt(i: nat) {
      Open(i) && IsBullet(lines[i])
    }

    /** The first line of a paragraph: a visible line after a blank one, both outside fences. */
    predicate ParagraphAt(i: nat) {
      0 < i && Open(i) && !IsBlank(lines[i]) && Open(i - 1) && IsBlank(lines[i - 1])
    }

    /** The deepest heading level outside fences. */
    ghost predicate IsDeepest(level: nat) {
      && (forall i: nat :: Open(i) ==> Level(lines[i]) <= level)
      && (level > 0 ==> exists i: nat :: HeadingAt(level, i))
    }

    predicate Has(r: Range) {
      0 < r.0 <= r.1 <= |lines|
    }

    function Body(r: Range): string
      requires Has(r)
    {
      Join(lines[r.0 - 1..r.1], "\n")
    }

    function UnitBytes(r: Range): nat
      requires Has(r)
    {
      |Utf8.Encode(Body(r))|
    }
  }

  /** The tests on lines, one by one: a heading of level n is n number signs, at most six, and white space;
      a bullet is a hyphen and white space; a blank line is white space; a paragraph starts at a visible line
      after a blank one, neither in a fence. */
  lemma LinesAreWhat(line: string, n: nat, d: Doc, i: nat)
    ensures n > 0 ==>
              (Level(line) == n <==> n <= 6 && C.SpaceAt(line, n) && forall k :: 0 <= k < n ==> line[k] == '#')
    ensures IsBullet(line) <==> |line| >= 2 && line[0] == '-' && IsSpace(line[1])
    ensures IsBlank(line) <==> forall k :: 0 <= k < |line| ==> IsSpace(line[k])
    ensures d.ParagraphAt(i)
            <==> && 1 <= i < |d.lines| && i < |d.flags| && !d.flags[i] && !d.flags[i - 1]
                 && !AllSpace(d.lines[i]) && AllSpace(d.lines[i - 1])
  {
    if n > 0 { LevelIs(line, n); }
    C.StripOfSpace(line);
    if 1 <= i < |d.lines| {
      C.StripOfSpace(d.lines[i]);
      C.StripOfSpace(d.lines[i - 1]);
    }
  }

  lemma LevelIs(line: string, n: nat)
    requires n > 0
    ensures Level(line) == n <==> n <= 6 && C.SpaceAt(line, n) && forall k :: 0 <= k < n ==> line[k] == '#'
  {
    var hash := (c: char) => c == '#';
    C.RunIsLongest(line, 0, hash);
    if n <= 6 && C.SpaceAt(line, n) && forall k :: 0 <= k < n ==> line[k] == '#' { C.RunIs(line, 0, n, hash); }
  }

  /** A line loses the break it ends in, a CR LF as one, and nothing else. */
  lemma WithoutBreakIs(line: string)
    ensures var s := WithoutBreak(line);
            if |line| >= 2 && line[|line| - 2..] == "\r\n" then line == s + "\r\n"
            else if line != "" && C.IsLineBreak(line[|line| - 1]) then line == s + [line[|line| - 1]]
            else s == line
  {
    if |line| >= 2 { assert line[|line| - 2..] == [line[|line| - 2], line[|line| - 1]]; }
  }

  method DeepestHeadingLevel(d: Doc) returns (deepest: nat)
    requires d.Valid()
    ensures d.IsDeepest(deepest)
  {
    deepest := 0;
    for i := 0 to |d.lines|
      invariant forall k: nat :: k < i && d.Open(k) ==> Level(d.lines[k]) <= deepest
      invariant deepest > 0 ==> exists k: nat :: d.HeadingAt(deepest, k)
    {
      if !d.flags[i] {
        var level := Level(d.lines[i]);
        if level > deepest {
          deepest := level;
          assert d.HeadingAt(deepest, i);
        }
      }
    }
  }

  // ---------------------------------------------------------------- splitting

  /** The ranges from `start` on, the lines before `i` being in the range that starts there. A
      boundary predicate is asked about 0-based line indices. */
  function SplitFrom(start: nat, i: nat, hi: nat, boundary: nat -> bool): seq<Range>
    requires 0 < start < i <= hi + 1
    decreases hi + 1 - i
  {
    if i > hi then [(start, hi)]
    else if boundary(i - 1) then [(start, i - 1)] + SplitFrom(i, i + 1, hi, boundary)
    else SplitFrom(start, i + 1, hi, boundary)
  }

  function Split(lo: nat, hi: nat, boundary: nat -> bool): seq<Range>
    requires 0 < lo <= hi
  {
    SplitFrom(lo, lo + 1, hi, boundary)
  }

  predicate NoBoundary(boundary: nat -> bool, a: nat, b: nat) {
    forall k :: a <= k < b ==> !boundary(k)
  }

  lemma {:induction false} SkipToBoundary(start: nat, i: nat, j: nat, hi: nat, boundary: nat -> bool)
    requires 0 < start < i <= j <= hi + 1 && NoBoundary(boundary, i - 1, j - 1)
    ensures SplitFrom(start, i, hi, boundary) == SplitFrom(start, j, hi, boundary)
    decreases j - i
  {
    if i < j { SkipToBoundary(start, i + 1, j, hi, boundary); }
  }

  /** No boundary up to the next one found, or to the end: the range that starts at `start` is done. */
  lemma RangeEnds(start: nat, hi: nat, boundary: nat -> bool, next: nat)
    requires 0 < start <= next <= hi && NoBoundary(boundary, start, next) && (next < hi ==> boundary(next))
    ensures SplitFrom(start, start + 1, hi, boundary)
            == [(start, next)] + if next < hi then SplitFrom(next + 1, next + 2, hi, boundary) else []
  {
    SkipToBoundary(start, start + 1, next + 1, hi, boundary);
  }

  /** The 0-based indices in `lo0..hi0` at which `boundary` holds, in order. */
  ghost predicate AreBoundaries(bs: seq<nat>, lo0: nat, end: nat, boundary: nat -> bool) {
    && (forall k :: 0 <= k < |bs| ==> lo0 <= bs[k] < end && boundary(bs[k]))
    && (forall j, k :: 0 <= j < k < |bs| ==> bs[j] < bs[k])
    && (forall i :: lo0 <= i < end && boundary(i) ==> i in bs)
  }

  method Boundaries(lo0: nat, end: nat, boundary: nat -> bool) returns (bs: seq<nat>)
    requires lo0 <= end
    ensures AreBoundaries(bs, lo0, end, boundary)
  {
    bs := [];
    for i := lo0 to end
      invariant AreBoundaries(bs, lo0, i, boundary)
    {
      if boundary(i) {
        bs := bs + [i];
      }
    }
  }

  /** The boundary found `k`-th, or the end past the last. */
  function BoundaryOr(bs: seq<nat>, k: nat, end: nat): nat {
    if k < |bs| then bs[k] else end
  }

  lemma NoneBetween(bs: seq<nat>, lo0: nat, end: nat, boundary: nat -> bool, k: nat)
    requires AreBoundaries(bs, lo0, end, boundary) && k <= |bs|
    ensures NoBoundary(boundary, if k == 0 then lo0 else bs[k - 1] + 1, BoundaryOr(bs, k, end))
  {
  }

  /** The ranges that start at the boundaries from the `i`-th on. */
  function FromBoundary(bs: seq<nat>, i: nat, hi: nat, boundary: nat -> bool): seq<Range> {
    if i < |bs| && bs[i] < hi then SplitFrom(bs[i] + 1, bs[i] + 2, hi, boundary) else []
  }

  lemma OneBoundaryMore(bs: seq<nat>, lo0: nat, hi: nat, boundary: nat -> bool, i: nat)
    requires AreBoundaries(bs, lo0, hi, boundary) && i < |bs|
    ensures FromBoundary(bs, i, hi, boundary)
            == [(bs[i] + 1, BoundaryOr(bs, i + 1, hi))] + FromBoundary(bs, i + 1, hi, boundary)
  {
    NoneBetween(bs, lo0, hi, boundary, i + 1);
    RangeEnds(bs[i] + 1, hi, boundary, BoundaryOr(bs, i + 1, hi));
  }

  /** The range before the first boundary, if any. */
  function Preamble(bs: seq<nat>, lo: nat, hi: nat): seq<Range> {
    if bs != [] && bs[0] == lo - 1 then [] else [(lo, BoundaryOr(bs, 0, hi))]
  }

  lemma PreambleFirst(bs: seq<nat>, lo: nat, hi: nat, boundary: nat -> bool)
    requires 0 < lo <= hi && AreBoundaries(bs, lo - 1, hi, boundary)
    ensures Preamble(bs, lo, hi) + FromBoundary(bs, 0, hi, boundary) == Split(lo, hi, boundary)
  {
    NoneBetween(bs, lo - 1, hi, boundary, 0);
    if bs == [] || bs[0] != lo - 1 {
      RangeEnds(lo, hi, boundary, BoundaryOr(bs, 0, hi));
    } else {
      EmptyIsUnit(FromBoundary(bs, 0, hi, boundary));
    }
  }

  method SplitRange(lo: nat, hi: nat, boundary: nat -> bool) returns (ranges: seq<Range>)
    requires 0 < lo <= hi
    ensures ranges == Split(lo, hi, boundary)
  {
    var bs := Boundaries(lo - 1, hi, boundary);
    PreambleFirst(bs, lo, hi, boundary);
    ranges := AppendRanges(bs, lo, hi, boundary, Preamble(bs, lo, hi));
  }

  method AppendRanges(bs: seq<nat>, lo: nat, hi: nat, boundary: nat -> bool, before: seq<Range>)
    returns (ranges: seq<Range>)
    requires 0 < lo && AreBoundaries(bs, lo - 1, hi, boundary)
    ensures ranges == before + FromBoundary(bs, 0, hi, boundary)
  {
    ranges := before;
    ghost var whole := before + FromBoundary(bs, 0, hi, boundary);
    for i := 0 to |bs|
      invariant ranges + FromBoundary(bs, i, hi, boundary) == whole
    {
      OneBoundaryMore(bs, lo - 1, hi, boundary, i);
      var next := (bs[i] + 1, BoundaryOr(bs, i + 1, hi));
      ConcatAssociates(ranges, [next], FromBoundary(bs, i + 1, hi, boundary));
      ranges := ranges + [next];
    }
    EmptyIsUnit(ranges);
  }

  // ---------------------------------------------------------------- hard splitting

  /** What becomes of a unit that has no rung between it and its paragraphs. */
  function ByParagraphs(d: Doc, r: Range): seq<Range>
    requires d.Has(r)
  {
    if d.UnitBytes(r) <= MAX_UNIT_BYTES then [r] else Split(r.0, r.1, ParagraphRung(d))
  }

  /** Ranges that follow one another without a gap from `lo` to `hi`. */
  predicate Tile(rs: seq<Range>, lo: nat, hi: nat) {
    if rs == [] then lo == hi + 1 else rs[0].0 == lo <= rs[0].1 && Tile(rs[1..], rs[0].1 + 1, hi)
  }

  lemma {:induction false} TileIsInside(rs: seq<Range>, lo: nat, hi: nat)
    requires Tile(rs, lo, hi)
    ensures lo <= hi + 1 && forall k :: 0 <= k < |rs| ==> lo <= rs[k].0 <= rs[k].1 <= hi
  {
    if rs != [] { TileIsInside(rs[1..], rs[0].1 + 1, hi); }
  }

  lemma {:induction false} SplitTiles(start: nat, i: nat, hi: nat, boundary: nat -> bool)
    requires 0 < start < i <= hi + 1
    ensures Tile(SplitFrom(start, i, hi, boundary), start, hi)
    decreases hi + 1 - i
  {
    if i <= hi { SplitTiles(if boundary(i - 1) then i else start, i + 1, hi, boundary); }
  }

  lemma {:induction false} TilesJoin(a: seq<Range>, b: seq<Range>, lo: nat, m: nat, hi: nat)
    requires Tile(a, lo, m) && Tile(b, m + 1, hi)
    ensures Tile(a + b, lo, hi)
  {
    if a == [] {
      EmptyIsUnit(b);
    } else {
      TilesJoin(a[1..], b, a[0].1 + 1, m, hi);
      assert (a + b)[1..] == a[1..] + b;
    }
  }

  function EachByParagraphs(d: Doc, rs: seq<Range>): seq<Range>
    requires forall r :: r in rs ==> d.Has(r)
  {
    if rs == [] then [] else ByParagraphs(d, rs[0]) + EachByParagraphs(d, rs[1..])
  }

  /** The units of an oversized range, by the next rung down. */
  function HardSplits(d: Doc, r: Range, tryBullet: bool): seq<Range>
    requires d.Has(r)
  {
    SplitIsInside(d, r, BulletRung(d));
    var bullets := Split(r.0, r.1, BulletRung(d));
    if d.UnitBytes(r) > MAX_UNIT_BYTES && tryBullet && |bullets| > 1 then EachByParagraphs(d, bullets)
    else ByParagraphs(d, r)
  }

  function BulletRung(d: Doc): nat -> bool {
    (i: nat) => d.BulletAt(i)
  }

  function ParagraphRung(d: Doc): nat -> bool {
    (i: nat) => d.ParagraphAt(i)
  }

  function HeadingRung(d: Doc, level: nat): nat -> bool {
    (i: nat) => d.HeadingAt(level, i)
  }

  lemma SplitIsInside(d: Doc, r: Range, boundary: nat -> bool)
    requires d.Has(r)
    ensures Tile(Split(r.0, r.1, boundary), r.0, r.1)
    ensures forall s :: s in Split(r.0, r.1, boundary) ==> d.Has(s)
  {
    SplitTiles(r.0, r.0 + 1, r.1, boundary);
    TileIsInside(Split(r.0, r.1, boundary), r.0, r.1);
  }

  /** One rung at a time; the recursion is one level deep. */
  method HardSplit(d: Doc, r: Range, tryBullet: bool) returns (out: seq<Range>)
    requires d.Has(r)
    ensures out == HardSplits(d, r, tryBullet)
    decreases tryBullet
  {
    if d.UnitBytes(r) <= MAX_UNIT_BYTES {
      return [r];
    }
    if tryBullet {
      var subs := SplitRange(r.0, r.1, BulletRung(d));
      if |subs| > 1 {
        SplitIsInside(d, r, BulletRung(d));
        out := [];
        for i := 0 to |subs|
          invariant out + EachByParagraphs(d, subs[i..]) == EachByParagraphs(d, subs)
        {
          var parts := HardSplit(d, subs[i], false);
          assert subs[i..][1..] == subs[i + 1..];
          ConcatAssociates(out, ByParagraphs(d, subs[i]), EachByParagraphs(d, subs[i + 1..]));
          out := out + parts;
        }
        return;
      }
    }
    out := SplitRange(r.0, r.1, ParagraphRung(d));
  }

  // ---------------------------------------------------------------- whole files

  /** The rung a file is split at first: its deepest heading level, or its bullets. */
  function PrimaryRung(d: Doc, deepest: nat): nat -> bool {
    if deepest > 0 then HeadingRung(d, deepest) else BulletRung(d)
  }

  function EachHardSplit(d: Doc, rs: seq<Range>, tryBullet: bool): seq<Range>
    requires forall r :: r in rs ==> d.Has(r)
  {
    if rs == [] then [] else HardSplits(d, rs[0], tryBullet) + EachHardSplit(d, rs[1..], tryBullet)
  }

  /** The line ranges of a file's units. */
  function UnitRanges(d: Doc, deepest: nat): seq<Range> {
    if d.lines == [] then []
    else
      var all := (1, |d.lines|);
      SplitIsInside(d, all, PrimaryRung(d, deepest));
      EachHardSplit(d, Split(1, |d.lines|, PrimaryRung(d, deepest)), deepest > 0)
  }

  function FlagsOf(lines: seq<string>): (flags: seq<bool>)
    ensures |flags| == |lines|
  {
    seq(|lines|, i requires 0 <= i < |lines| => InsideFence(lines, i))
  }

  function FileDoc(text: string): Doc {
    var lines := SplitLines(text, 0);
    Doc(lines, FlagsOf(lines))
  }

  function UnitOf(d: Doc, r: Range): Unit
    requires d.Has(r)
  {
    Unit(r.0, r.1, d.lines[r.0 - 1], d.Body(r))
  }

  predicate AllHas(d: Doc, rs: seq<Range>) {
    forall r :: r in rs ==> d.Has(r)
  }

  function UnitsOf(d: Doc, rs: seq<Range>): seq<Unit>
    requires AllHas(d, rs)
  {
    seq(|rs|, k requires 0 <= k < |rs| => UnitOf(d, rs[k]))
  }

  method LinesOf(text: string) returns (lines: seq<string>)
    ensures lines == SplitLines(text, 0)
  {
    lines := [];
    var i := 0;
    while i < |text|
      invariant i <= |text| && lines + SplitLines(text, i) == SplitLines(text, 0)
    {
      var e := C.LineEnd(text, i);
      ConcatAssociates(lines, [WithoutBreak(text[i..e])], SplitLines(text, e));
      lines := lines + [WithoutBreak(text[i..e])];
      i := e;
    }
  }

  lemma {:induction false} OneDeepest(d: Doc, a: nat, b: nat)
    requires d.IsDeepest(a) && d.IsDeepest(b)
    ensures a == b
  {
    if a > 0 { var i: nat :| d.HeadingAt(a, i); }
    if b > 0 { var i: nat :| d.HeadingAt(b, i); }
  }

  method HardSplitAll(d: Doc, ranges: seq<Range>, tryBullet: bool) returns (final: seq<Range>)
    requires forall r :: r in ranges ==> d.Has(r)
    ensures final == EachHardSplit(d, ranges, tryBullet)
  {
    final := [];
    for i := 0 to |ranges|
      invariant final + EachHardSplit(d, ranges[i..], tryBullet) == EachHardSplit(d, ranges, tryBullet)
    {
      var parts := HardSplit(d, ranges[i], tryBullet);
      assert ranges[i..][1..] == ranges[i + 1..];
      ConcatAssociates(final, HardSplits(d, ranges[i], tryBullet), EachHardSplit(d, ranges[i + 1..], tryBullet));
      final := final + parts;
    }
    EmptyIsUnit(final);
  }

  method ChunkFile(text: string) returns (units: seq<Unit>)
    ensures forall deepest :: FileDoc(text).IsDeepest(deepest) ==>
              && AllHas(FileDoc(text), UnitRanges(FileDoc(text), deepest))
              && units == UnitsOf(FileDoc(text), UnitRanges(FileDoc(text), deepest))
  {
    var lines := LinesOf(text);
    if lines == [] {
      return [];
    }
    var flags := FenceFlags(lines);
    assert flags == FlagsOf(lines);
    var d := Doc(lines, flags);
    var deepest := DeepestHeadingLevel(d);
    var ranges := SplitRange(1, |lines|, PrimaryRung(d, deepest));
    SplitIsInside(d, (1, |lines|), PrimaryRung(d, deepest));
    var final := HardSplitAll(d, ranges, deepest > 0);
    UnitsTile(d, deepest);
    units := UnitsOf(d, final);
    forall other | d.IsDeepest(other) ensures other == deepest { OneDeepest(d, other, deepest); }
  }

  // ---------------------------------------------------------------- what the units are

  lemma {:induction false} SplitCuts(start: nat, i: nat, hi: nat, boundary: nat -> bool, r: Range)
    requires 0 < start < i <= hi + 1 && NoBoundary(boundary, start, i - 1)
    requires r in SplitFrom(start, i, hi, boundary)
    ensures start <= r.0 <= r.1 <= hi && NoBoundary(boundary, r.0, r.1) && (r.0 == start || boundary(r.0 - 1))
    decreases hi + 1 - i
  {
    if i <= hi {
      if !boundary(i - 1) {
        SplitCuts(start, i + 1, hi, boundary, r);
      } else if r != (start, i - 1) {
        SplitCuts(i, i + 1, hi, boundary, r);
      }
    }
  }

  /** How a unit is cut: it starts at the top of the file or outside every fence, it holds no
      further primary boundary, and where it is still oversized it holds no bullet and no paragraph
      start either. */
  ghost predicate WellCut(d: Doc, primary: nat -> bool, r: Range) {
    && d.Has(r) && (r.0 == 1 || d.Open(r.0 - 1))
    && NoBoundary(primary, r.0, r.1)
    && (d.UnitBytes(r) > MAX_UNIT_BYTES ==>
          NoBoundary(BulletRung(d), r.0, r.1) && NoBoundary(ParagraphRung(d), r.0, r.1))
  }

  lemma ParagraphsAreWellCut(d: Doc, primary: nat -> bool, r: Range, u: Range)
    requires d.Has(r) && (r.0 == 1 || d.Open(r.0 - 1)) && NoBoundary(primary, r.0, r.1)
    requires d.UnitBytes(r) > MAX_UNIT_BYTES ==> NoBoundary(BulletRung(d), r.0, r.1)
    requires u in ByParagraphs(d, r)
    ensures WellCut(d, primary, u)
  {
    if d.UnitBytes(r) > MAX_UNIT_BYTES { SplitCuts(r.0, r.0 + 1, r.1, ParagraphRung(d), u); }
  }

  lemma {:induction false} EachComesFromOne(d: Doc, rs: seq<Range>, u: Range) returns (r: Range)
    requires AllHas(d, rs) && u in EachByParagraphs(d, rs)
    ensures r in rs && u in ByParagraphs(d, r)
  {
    if u in ByParagraphs(d, rs[0]) {
      r := rs[0];
    } else {
      r := EachComesFromOne(d, rs[1..], u);
    }
  }

  lemma PartStartsWell(d: Doc, primary: nat -> bool, r: Range, s: Range)
    requires 0 < r.0 <= s.0 <= s.1 <= r.1 && (s.0 == r.0 || BulletRung(d)(s.0 - 1))
    requires (r.0 == 1 || d.Open(r.0 - 1)) && NoBoundary(primary, r.0, r.1)
    ensures (s.0 == 1 || d.Open(s.0 - 1)) && NoBoundary(primary, s.0, s.1)
  {
  }

  lemma BulletsAreWellCut(d: Doc, primary: nat -> bool, r: Range, bullets: seq<Range>, u: Range)
    requires d.Has(r) && (r.0 == 1 || d.Open(r.0 - 1)) && NoBoundary(primary, r.0, r.1)
    requires bullets == Split(r.0, r.1, BulletRung(d)) && AllHas(d, bullets) && u in EachByParagraphs(d, bullets)
    ensures WellCut(d, primary, u)
  {
    var s := EachComesFromOne(d, bullets, u);
    SplitCuts(r.0, r.0 + 1, r.1, BulletRung(d), s);
    PartStartsWell(d, primary, r, s);
    ParagraphsAreWellCut(d, primary, s, u);
  }

  lemma NoBulletsInside(d: Doc, r: Range, tryBullet: bool)
    requires d.Has(r) && (tryBullet ==> |Split(r.0, r.1, BulletRung(d))| <= 1)
    requires tryBullet || NoBoundary(BulletRung(d), r.0, r.1)
    ensures NoBoundary(BulletRung(d), r.0, r.1)
  {
    if tryBullet {
      SplitIsInside(d, r, BulletRung(d));
      OneRangeMeansNoBoundary(r, BulletRung(d));
    }
  }

  lemma HardSplitsAreWellCut(d: Doc, primary: nat -> bool, r: Range, tryBullet: bool, u: Range)
    requires d.Has(r) && (r.0 == 1 || d.Open(r.0 - 1)) && NoBoundary(primary, r.0, r.1)
    requires tryBullet || NoBoundary(BulletRung(d), r.0, r.1)
    requires u in HardSplits(d, r, tryBullet)
    ensures WellCut(d, primary, u)
  {
    var bullets := Split(r.0, r.1, BulletRung(d));
    SplitIsInside(d, r, BulletRung(d));
    if tryBullet && |bullets| > 1 {
      if d.UnitBytes(r) > MAX_UNIT_BYTES {
        BulletsAreWellCut(d, primary, r, bullets, u);
      } else {
        ParagraphsAreWellCut(d, primary, r, u);
      }
    } else {
      NoBulletsInside(d, r, tryBullet);
      ParagraphsAreWellCut(d, primary, r, u);
    }
  }

  lemma {:induction false} OneRangeMeansNoBoundary(r: Range, boundary: nat -> bool)
    requires 0 < r.0 <= r.1 && |Split(r.0, r.1, boundary)| == 1
    ensures NoBoundary(boundary, r.0, r.1)
  {
    var only := Split(r.0, r.1, boundary)[0];
    SplitTiles(r.0, r.0 + 1, r.1, boundary);
    assert only == r;
    SplitCuts(r.0, r.0 + 1, r.1, boundary, only);
  }

  lemma {:induction false} EachTiles(d: Doc, rs: seq<Range>, lo: nat, hi: nat)
    requires AllHas(d, rs) && Tile(rs, lo, hi)
    ensures Tile(EachByParagraphs(d, rs), lo, hi)
  {
    if rs != [] {
      EachTiles(d, rs[1..], rs[0].1 + 1, hi);
      ByParagraphsTile(d, rs[0]);
      TilesJoin(ByParagraphs(d, rs[0]), EachByParagraphs(d, rs[1..]), lo, rs[0].1, hi);
    }
  }

  lemma ByParagraphsTile(d: Doc, r: Range)
    requires d.Has(r)
    ensures Tile(ByParagraphs(d, r), r.0, r.1)
  {
    SplitTiles(r.0, r.0 + 1, r.1, ParagraphRung(d));
    assert Tile([r], r.0, r.1);
  }

  lemma HardSplitsTile(d: Doc, r: Range, tryBullet: bool)
    requires d.Has(r)
    ensures Tile(HardSplits(d, r, tryBullet), r.0, r.1)
  {
    SplitIsInside(d, r, BulletRung(d));
    EachTiles(d, Split(r.0, r.1, BulletRung(d)), r.0, r.1);
    ByParagraphsTile(d, r);
  }

  lemma {:induction false} EachHardSplitTiles(d: Doc, rs: seq<Range>, tryBullet: bool, lo: nat, hi: nat)
    requires AllHas(d, rs) && Tile(rs, lo, hi)
    ensures Tile(EachHardSplit(d, rs, tryBullet), lo, hi)
  {
    if rs != [] {
      EachHardSplitTiles(d, rs[1..], tryBullet, rs[0].1 + 1, hi);
      HardSplitsTile(d, rs[0], tryBullet);
      TilesJoin(HardSplits(d, rs[0], tryBullet), EachHardSplit(d, rs[1..], tryBullet), lo, rs[0].1, hi);
    }
  }

  /** Units tile the file: no gap, no overlap, none empty, in order. */
  lemma UnitsTile(d: Doc, deepest: nat)
    ensures Tile(UnitRanges(d, deepest), 1, |d.lines|) && AllHas(d, UnitRanges(d, deepest))
  {
    if d.lines != [] {
      SplitIsInside(d, (1, |d.lines|), PrimaryRung(d, deepest));
      EachHardSplitTiles(d, Split(1, |d.lines|, PrimaryRung(d, deepest)), deepest > 0, 1, |d.lines|);
      TileIsInside(UnitRanges(d, deepest), 1, |d.lines|);
    }
  }

  lemma {:induction false} EachHardComesFromOne(d: Doc, rs: seq<Range>, tryBullet: bool, u: Range) returns (r: Range)
    requires AllHas(d, rs) && u in EachHardSplit(d, rs, tryBullet)
    ensures r in rs && u in HardSplits(d, r, tryBullet)
  {
    if u in HardSplits(d, rs[0], tryBullet) {
      r := rs[0];
    } else {
      r := EachHardComesFromOne(d, rs[1..], tryBullet, u);
    }
  }

  lemma UnitsAreWellCut(d: Doc, deepest: nat, u: Range)
    requires u in UnitRanges(d, deepest)
    ensures WellCut(d, PrimaryRung(d, deepest), u)
  {
    SplitIsInside(d, (1, |d.lines|), PrimaryRung(d, deepest));
    var r := EachHardComesFromOne(d, Split(1, |d.lines|, PrimaryRung(d, deepest)), deepest > 0, u);
    HardSplitOfSplitIsWellCut(d, deepest, r, u);
  }

  lemma HardSplitOfSplitIsWellCut(d: Doc, deepest: nat, r: Range, u: Range)
    requires d.lines != [] && r in Split(1, |d.lines|, PrimaryRung(d, deepest)) && d.Has(r)
    requires u in HardSplits(d, r, deepest > 0)
    ensures WellCut(d, PrimaryRung(d, deepest), u)
  {
    SplitCuts(1, 2, |d.lines|, PrimaryRung(d, deepest), r);
    HardSplitsAreWellCut(d, PrimaryRung(d, deepest), r, deepest > 0, u);
  }

  /** What the primary boundaries are, and how large a unit may be before it is cut further. */
  lemma RungsAre(d: Doc, deepest: nat, i: nat)
    ensures PrimaryRung(d, deepest)(i) <==> if deepest > 0 then d.HeadingAt(deepest, i) else d.BulletAt(i)
    ensures BulletRung(d)(i) <==> d.BulletAt(i)
    ensures ParagraphRung(d)(i) <==> d.ParagraphAt(i)
    ensures MAX_UNIT_BYTES == 16 * 1024
  {
  }

  lemma {:induction false} SmallRangesStay(d: Doc, rs: seq<Range>, tryBullet: bool, r: Range)
    requires (forall x :: x in rs ==> d.Has(x)) && r in rs && d.UnitBytes(r) <= MAX_UNIT_BYTES
    ensures r in EachHardSplit(d, rs, tryBullet)
  {
    if rs[0] != r { SmallRangesStay(d, rs[1..], tryBullet, r); }
  }

  /** Nothing is cut without need: what lies between two primary boundaries and fits is one unit. */
  lemma FittingRangesAreUnits(d: Doc, deepest: nat, r: Range)
    requires d.lines != [] && r in Split(1, |d.lines|, PrimaryRung(d, deepest)) && d.Has(r)
    requires d.UnitBytes(r) <= 16 * 1024
    ensures r in UnitRanges(d, deepest)
  {
    SplitIsInside(d, (1, |d.lines|), PrimaryRung(d, deepest));
    SmallRangesStay(d, Split(1, |d.lines|, PrimaryRung(d, deepest)), deepest > 0, r);
  }

  // ---------------------------------------------------------------- rebuilding

  lemma {:induction false} JoinOfConcat(a: seq<string>, b: seq<string>, sep: string)
    requires a != [] && b != []
    ensures Join(a + b, sep) == Join(a, sep) + sep + Join(b, sep)
  {
    assert (a + b)[1..] == a[1..] + b;
    if |a| > 1 {
      JoinOfConcat(a[1..], b, sep);
      var x, y := a[0] + sep, Join(a[1..], sep);
      ConcatAssociates(x, y + sep, Join(b, sep));
      ConcatAssociates(x, y, sep);
    } else {
      assert a[1..] == [];
    }
  }

  function Bodies(d: Doc, rs: seq<Range>): seq<string>
    requires AllHas(d, rs)
  {
    seq(|rs|, k requires 0 <= k < |rs| => d.Body(rs[k]))
  }

  /** Bodies joined by newlines are the lines joined by newlines. */
  lemma {:induction false} BodiesRebuildLines(d: Doc, rs: seq<Range>, lo: nat, hi: nat)
    requires rs != [] && 0 < lo && hi <= |d.lines| && Tile(rs, lo, hi) && AllHas(d, rs)
    ensures lo <= hi && Join(Bodies(d, rs), "\n") == Join(d.lines[lo - 1..hi], "\n")
  {
    var rest, m := rs[1..], rs[0].1;
    assert Bodies(d, rs) == [d.Body(rs[0])] + Bodies(d, rest);
    if rest != [] {
      BodiesRebuildLines(d, rest, m + 1, hi);
      SliceSplits(d.lines, lo - 1, m, hi);
      JoinOfConcat(d.lines[lo - 1..m], d.lines[m..hi], "\n");
      JoinOfConcat([d.Body(rs[0])], Bodies(d, rest), "\n");
    }
  }

  lemma {:induction false} NewlineIsLast(text: string, i: nat)
    requires i < |text|
    ensures forall k :: i <= k < C.LineEnd(text, i) && text[k] == '\n' ==> k == C.LineEnd(text, i) - 1
    decreases |text| - i
  {
    if !C.IsLineBreak(text[i]) && i + 1 < |text| { NewlineIsLast(text, i + 1); }
  }

  lemma NoNewlineWithoutBreak(line: string)
    requires forall k :: 0 <= k < |line| && line[k] == '\n' ==> k == |line| - 1
    ensures '\n' !in WithoutBreak(line)
  {
  }

  lemma {:induction false} LinesHoldNoNewline(text: string, i: nat, k: nat)
    requires i <= |text| && k < |SplitLines(text, i)|
    ensures '\n' !in SplitLines(text, i)[k]
    decreases |text| - i
  {
    if k == 0 {
      NewlineIsLast(text, i);
      NoNewlineWithoutBreak(text[i..C.LineEnd(text, i)]);
    } else {
      LinesHoldNoNewline(text, C.LineEnd(text, i), k - 1);
    }
  }
}
