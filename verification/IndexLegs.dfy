/** The two index legs, lexical and vector, over the same passages of a version. */
module IndexLegs {
  import opened Text
  import D = Decimal
  import C = Chunking
  import R = Redact

  type Passages = map<string, C.Passage>

  /** A row of a derived index: the passage it is for, and what the index holds of it. */
  datatype IndexRow<V> = IndexRow(passageId: string, target: string, value: V)

  datatype Embedding = Embedding(vector: seq<real>, model: string, revision: Option<string>)

  type FtsRow = IndexRow<string>
  type VectorRow = IndexRow<Embedding>

  /** The `passages` table by primary key, the FTS rows, and the vector rows. */
  datatype Tables = Tables(passages: Passages, fts: seq<FtsRow>, vectors: seq<VectorRow>)

  /** What both legs read: stored bodies, index patterns, chunk settings, and the embedding model. */
  datatype World = World(body: string -> Option<string>, patterns: seq<R.Pattern>, settings: C.ChunkSettings,
                         embed: seq<string> -> seq<seq<real>>, model: string)

  // ---------------------------------------------------------------- statements

  /** INSERT OR REPLACE of each passage in turn. */
  function Upsert(m: Passages, ps: seq<C.Passage>): Passages {
    if ps == [] then m
    else
      var last := ps[|ps| - 1];
      Upsert(m, ps[..|ps| - 1])[last.passageId := last]
  }

  /** The rows of all other targets. */
  function Without<V>(rows: seq<IndexRow<V>>, target: string): seq<IndexRow<V>> {
    if rows == [] then []
    else
      var init, last := Without(rows[..|rows| - 1], target), rows[|rows| - 1];
      if last.target == target then init else init + [last]
  }

  function FtsRows(ps: seq<C.Passage>): seq<FtsRow> {
    seq(|ps|, k requires 0 <= k < |ps| => IndexRow(ps[k].passageId, ps[k].targetVersion, ps[k].text))
  }

  function Texts(ps: seq<C.Passage>): seq<string> {
    seq(|ps|, k requires 0 <= k < |ps| => ps[k].text)
  }

  function VectorRows(ps: seq<C.Passage>, target: string, vectors: seq<seq<real>>, model: string,
                      revision: Option<string>): seq<VectorRow>
    requires |vectors| == |ps|
  {
    seq(|ps|, k requires 0 <= k < |ps| => IndexRow(ps[k].passageId, target, Embedding(vectors[k], model, revision)))
  }

  function Redacted(w: World, body: string): string {
    R.Redacted(body, w.patterns).0
  }

  /** The passages of a version's stored body, chunked as it is; none for an unknown version. */
  function RawPassages(w: World, target: string): seq<C.Passage>
    requires w.settings.thresholdTokens > 0
  {
    var body := w.body(target);
    if body.None? then [] else C.Chunks(body.value, target, w.settings)
  }

  /** The passages of a version's stored body, redacted first; none for an unknown version. */
  function RedactedPassages(w: World, target: string): seq<C.Passage>
    requires w.settings.thresholdTokens > 0
  {
    var body := w.body(target);
    if body.None? then [] else C.Chunks(Redacted(w, body.value), target, w.settings)
  }

  /** The vectors of a version's passages; the model is not asked about none. */
  function VectorsIn(w: World, target: string): seq<seq<real>>
    requires w.settings.thresholdTokens > 0
  {
    var ps := RedactedPassages(w, target);
    if ps == [] then [] else w.embed(Texts(ps))
  }

  /** What an index run does with a version's passages. */
  function Indexed(t: Tables, target: string, ps: seq<C.Passage>): Tables {
    Tables(Upsert(t.passages, ps), Without(t.fts, target) + FtsRows(ps), t.vectors)
  }

  /** What an embed run does with a version's passages and their vectors. */
  function Embedded(t: Tables, target: string, ps: seq<C.Passage>, rows: seq<VectorRow>): Tables {
    Tables(Upsert(t.passages, ps), t.fts, Without(t.vectors, target) + rows)
  }

  /** The last `n` vector rows are the target's only ones, the k-th of them for its passage `k`, with the
      k-th of the vectors that the model returns for the texts of its redacted passages in order. */
  ghost predicate Paired(rows: seq<VectorRow>, w: World, target: string, revision: Option<string>, n: nat)
    requires w.settings.thresholdTokens > 0
  {
    var ps := RedactedPassages(w, target);
    && n == |ps| <= |rows| && (forall i :: 0 <= i < |rows| - n ==> rows[i].target != target)
    && forall texts :: |texts| == n && (forall k :: 0 <= k < n ==> texts[k] == ps[k].text) && n > 0 ==>
         && |w.embed(texts)| == n
         && forall k :: 0 <= k < n ==>
              var row := rows[|rows| - n + k];
              && row.passageId == target + ":" + D.Print(k) && row.target == target
              && row.value == Embedding(w.embed(texts)[k], w.model, revision)
  }

  lemma {:induction false} NoneWithout<V>(rows: seq<IndexRow<V>>, target: string)
    ensures forall i :: 0 <= i < |Without(rows, target)| ==> Without(rows, target)[i].target != target
  {
    if rows != [] { NoneWithout(rows[..|rows| - 1], target); }
  }

  lemma RowsArePaired(kept: seq<VectorRow>, w: World, target: string, revision: Option<string>)
    requires w.settings.thresholdTokens > 0 && forall i :: 0 <= i < |kept| ==> kept[i].target != target
    requires |VectorsIn(w, target)| == |RedactedPassages(w, target)|
    ensures var ps := RedactedPassages(w, target);
            Paired(kept + VectorRows(ps, target, VectorsIn(w, target), w.model, revision), w, target, revision, |ps|)
  {
    var ps, vectors := RedactedPassages(w, target), VectorsIn(w, target);
    PassagesAreNumbered(w, target);
    RowsStand(kept, ps, target, vectors, w.model, revision);
    forall texts: seq<string> | |texts| == |ps| && (forall k :: 0 <= k < |ps| ==> texts[k] == ps[k].text) && |ps| > 0
      ensures w.embed(texts) == vectors
    {
      VectorsAreOfTheTexts(w, target, texts);
    }
  }

  lemma VectorsAreOfTheTexts(w: World, target: string, texts: seq<string>)
    requires w.settings.thresholdTokens > 0
    requires var ps := RedactedPassages(w, target);
             |texts| == |ps| > 0 && forall k :: 0 <= k < |ps| ==> texts[k] == ps[k].text
    ensures w.embed(texts) == VectorsIn(w, target)
  {
    assert texts == Texts(RedactedPassages(w, target));
  }

  lemma RowsStand(kept: seq<VectorRow>, ps: seq<C.Passage>, target: string, vectors: seq<seq<real>>, model: string,
                  revision: Option<string>)
    requires |vectors| == |ps| && Numbered(ps, target)
    ensures var rows, n := kept + VectorRows(ps, target, vectors, model, revision), |ps|;
            && |rows| == |kept| + n && (forall i :: 0 <= i < |rows| - n ==> rows[i] == kept[i])
            && forall k :: 0 <= k < n ==>
                 rows[|rows| - n + k]
                 == IndexRow(target + ":" + D.Print(k), target, Embedding(vectors[k], model, revision))
  {
    var added := VectorRows(ps, target, vectors, model, revision);
    assert forall k :: 0 <= k < |added| ==> (kept + added)[|kept| + k] == added[k];
  }

  /** KeyError, a model that returns too few or too many vectors, or the number of rows written. */
  datatype EmbedResult = UnknownTarget | WrongCount | Rows(count: nat)

  class IndexTables {
    var passages: Passages
    var fts: seq<FtsRow>
    var vectors: seq<VectorRow>

    function State(): Tables
      reads this
    {
      Tables(passages, fts, vectors)
    }

    constructor ()
      ensures State() == Tables(map[], [], [])
    {
      passages, fts, vectors := map[], [], [];
    }

    method PersistPassages(ps: seq<C.Passage>)
      modifies this`passages
      ensures passages == Upsert(old(passages), ps)
    {
      for k := 0 to |ps|
        invariant passages == Upsert(old(passages), ps[..k])
      {
        passages := passages[ps[k].passageId := ps[k]];
        assert ps[..k + 1][..k] == ps[..k];
      }
      assert ps[..|ps|] == ps;
    }

    method ReplacePassages(target: string, ps: seq<C.Passage>)
      modifies this`fts
      ensures fts == Without(old(fts), target) + FtsRows(ps)
    {
      fts := Without(fts, target);
      ghost var kept := fts;
      for k := 0 to |ps|
        invariant fts == kept + FtsRows(ps)[..k]
      {
        fts := fts + [IndexRow(ps[k].passageId, ps[k].targetVersion, ps[k].text)];
        assert FtsRows(ps)[..k + 1] == FtsRows(ps)[..k] + [FtsRows(ps)[k]];
      }
      assert FtsRows(ps)[..|ps|] == FtsRows(ps);
    }

    /** The lexical leg: whatever body it is given is chunked as it is. */
    method Index(target: string, body: string, settings: C.ChunkSettings)
      requires settings.thresholdTokens > 0
      modifies this
      ensures State() == Indexed(old(State()), target, C.Chunks(body, target, settings))
    {
      var ps := C.Chunk(body, target, settings);
      if ps != [] {
        PersistPassages(ps);
      }
      ReplacePassages(target, ps);
    }

    /** Saving or recovering a note, and ingesting a snapshot: the body just stored, redacted. */
    method IndexSaved(w: World, target: string)
      requires w.settings.thresholdTokens > 0 && w.body(target).Some?
      modifies this
      ensures State() == Indexed(old(State()), target, RedactedPassages(w, target))
    {
      var redacted, _ := R.RedactCounting(w.body(target).value, w.patterns);
      Index(target, redacted, w.settings);
    }

    /** The repair of note heads, by command or by reconciliation: stored bodies, as they are. */
    method Reindex(w: World, heads: seq<string>)
      requires w.settings.thresholdTokens > 0 && forall t :: t in heads ==> w.body(t).Some?
      modifies this
      ensures State() == Reindexed(old(State()), w, heads)
    {
      for i := 0 to |heads|
        invariant State() == Reindexed(old(State()), w, heads[..i])
      {
        assert heads[..i + 1][..i] == heads[..i];
        Index(heads[i], w.body(heads[i]).value, w.settings);
      }
      assert heads[..|heads|] == heads;
    }

    method Evict(target: string)
      modifies this`passages, this`fts
      ensures passages == OtherRows(old(passages), target) && fts == Without(old(fts), target)
    {
      passages := OtherRows(passages, target);
      ReplacePassages(target, []);
      EmptyIsUnit(Without(old(fts), target));
    }

    /** The vector leg, run by the embed job, which redacts what it reads. `revision` is what the
        embedder reports, asked only when there is something to write. */
    method Embed(w: World, target: string, revision: Option<string>) returns (out: EmbedResult)
      requires w.settings.thresholdTokens > 0
      modifies this
      ensures var ps, vs := RedactedPassages(w, target), VectorsIn(w, target);
              if w.body(target).None? then out == UnknownTarget && State() == old(State())
              else if |vs| != |ps| then
                out == WrongCount && State() == old(State()).(passages := Upsert(old(passages), ps))
              else out == Rows(|ps|)
                   && State() == Embedded(old(State()), target, ps, VectorRows(ps, target, vs, w.model, revision))
      ensures out.Rows? ==> Paired(vectors, w, target, revision, out.count)
    {
      var body := w.body(target);
      if body.None? {
        return UnknownTarget;
      }
      var redacted, _ := R.RedactCounting(body.value, w.patterns);
      var ps := C.Chunk(redacted, target, w.settings);
      PersistPassages(ps);
      var vs := if ps == [] then [] else w.embed(Texts(ps));
      if |vs| != |ps| {
        return WrongCount;
      }
      NoneWithout(vectors, target);
      RowsArePaired(Without(vectors, target), w, target, revision);
      vectors := Without(vectors, target) + VectorRows(ps, target, vs, w.model, revision);
      return Rows(|ps|);
    }
  }

  /** Raw index runs of several versions, one after the other. */
  function Reindexed(t: Tables, w: World, heads: seq<string>): Tables
    requires w.settings.thresholdTokens > 0
  {
    if heads == [] then t
    else
      var last := heads[|heads| - 1];
      Indexed(Reindexed(t, w, heads[..|heads| - 1]), last, RawPassages(w, last))
  }

  function OtherRows(m: Passages, target: string): Passages {
    map id | id in m && m[id].targetVersion != target :: m[id]
  }

  function RowsOf(m: Passages, target: string): Passages {
    map id | id in m && m[id].targetVersion == target :: m[id]
  }

  function Of<V>(rows: seq<IndexRow<V>>, target: string): seq<IndexRow<V>> {
    if rows == [] then []
    else
      var init, last := Of(rows[..|rows| - 1], target), rows[|rows| - 1];
      if last.target == target then init + [last] else init
  }

  // ---------------------------------------------------------------- passage ids

  predicate ColonFree(s: string) {
    ':' !in s
  }

  /** Ids of content-addressed targets, which hold no colon, and of their passages are all different. */
  lemma PassageIdsAreUnique(t: string, i: nat, u: string, j: nat)
    requires ColonFree(t) && ColonFree(u) && t + ":" + D.Print(i) == u + ":" + D.Print(j)
    ensures t == u && i == j
  {
    var a, b := t + ":" + D.Print(i), u + ":" + D.Print(j);
    assert a[|t|] == ':' && b[|u|] == ':';
    assert forall k :: 0 <= k < |t| ==> a[k] == t[k];
    assert forall k :: 0 <= k < |u| ==> b[k] == u[k];
    assert |t| == |u|;
    assert a[..|t|] == t && b[..|u|] == u;
    assert a[|t| + 1..] == D.Print(i) && b[|u| + 1..] == D.Print(j);
    D.PrintIsInjective(i, j);
  }

  /** Passages as the chunker numbers and names them. */
  ghost predicate Numbered(ps: seq<C.Passage>, target: string) {
    forall k :: 0 <= k < |ps| ==>
      ps[k].targetVersion == target && ps[k].ord == k && ps[k].passageId == target + ":" + D.Print(k)
  }

  /** Rows stand under the id that their target and number give. */
  ghost predicate Keyed(m: Passages) {
    forall id :: id in m ==> ColonFree(m[id].targetVersion) && id == m[id].targetVersion + ":" + D.Print(m[id].ord)
  }

  /** Exactly these passages, each under its id. */
  function ById(ps: seq<C.Passage>): Passages {
    Upsert(map[], ps)
  }

  lemma {:induction false} UpsertIsMerge(m: Passages, ps: seq<C.Passage>)
    ensures Upsert(m, ps) == m + ById(ps)
  {
    if ps != [] { UpsertIsMerge(m, ps[..|ps| - 1]); }
  }

  /** `m` holds these passages, each under its id, and nothing else. */
  ghost predicate Lists(m: Passages, ps: seq<C.Passage>) {
    && (forall k :: 0 <= k < |ps| ==> ps[k].passageId in m && m[ps[k].passageId] == ps[k])
    && (forall id :: id in m ==> exists k :: 0 <= k < |ps| && ps[k].passageId == id)
  }

  lemma {:induction false} ByIdLists(ps: seq<C.Passage>, target: string)
    requires ColonFree(target) && Numbered(ps, target)
    ensures Lists(ById(ps), ps)
  {
    if ps != [] {
      var n := |ps| - 1;
      var init, m := ps[..n], ById(ps[..n]);
      ByIdLists(init, target);
      forall k | 0 <= k < n ensures ps[k].passageId != ps[n].passageId {
        if ps[k].passageId == ps[n].passageId { PassageIdsAreUnique(target, k, target, n); }
      }
      ListsOneMore(m, init, ps[n]);
      assert ps == init + [ps[n]];
    }
  }

  lemma ListsOneMore(m: Passages, ps: seq<C.Passage>, p: C.Passage)
    requires Lists(m, ps) && forall k :: 0 <= k < |ps| ==> ps[k].passageId != p.passageId
    ensures Lists(m[p.passageId := p], ps + [p])
  {
    var m', ps' := m[p.passageId := p], ps + [p];
    forall id | id in m' ensures exists k :: 0 <= k < |ps'| && ps'[k].passageId == id {
      if id in m {
        var k :| 0 <= k < |ps| && ps[k].passageId == id;
        assert ps'[k].passageId == id;
      } else {
        assert ps'[|ps|].passageId == id;
      }
    }
  }

  predicate AllOf(m: Passages, target: string) {
    forall id :: id in m ==> m[id].targetVersion == target
  }

  lemma ListedAreKeyed(m: Passages, ps: seq<C.Passage>, target: string)
    requires ColonFree(target) && Numbered(ps, target) && Lists(m, ps)
    ensures Keyed(m) && AllOf(m, target)
  {
    forall id | id in m
      ensures m[id].targetVersion == target && id == target + ":" + D.Print(m[id].ord)
    {
      var k :| 0 <= k < |ps| && ps[k].passageId == id;
    }
  }

  /** A row that is written over is a row of the same version. */
  predicate OverOwn(m: Passages, mine: Passages, target: string) {
    forall id :: id in m && id in mine ==> m[id].targetVersion == target
  }

  lemma WritesOverOwn(m: Passages, mine: Passages, target: string)
    requires Keyed(m) && Keyed(mine) && AllOf(mine, target)
    ensures Keyed(m + mine) && OverOwn(m, mine, target)
  {
    forall id | id in m && id in mine
      ensures m[id].targetVersion == target
    {
      PassageIdsAreUnique(m[id].targetVersion, m[id].ord, mine[id].targetVersion, mine[id].ord);
    }
  }

  lemma OwnRows(m: Passages, mine: Passages, target: string)
    requires AllOf(mine, target)
    ensures RowsOf(m + mine, target) == RowsOf(m, target) + mine
  {
  }

  /** Writing the passages of one version leaves the rows of every other version alone. */
  lemma OthersRows(m: Passages, mine: Passages, target: string, other: string)
    requires AllOf(mine, target) && OverOwn(m, mine, target) && other != target
    ensures RowsOf(m + mine, other) == RowsOf(m, other)
  {
  }

  // ---------------------------------------------------------------- rows of one version

  lemma {:induction false} OfConcat<V>(a: seq<IndexRow<V>>, b: seq<IndexRow<V>>, target: string)
    ensures Of(a + b, target) == Of(a, target) + Of(b, target)
    decreases |b|
  {
    if b == [] {
      EmptyIsUnit(a);
    } else {
      assert (a + b)[..|a + b| - 1] == a + b[..|b| - 1];
      OfConcat(a, b[..|b| - 1], target);
    }
  }

  lemma OfAppend<V>(rows: seq<IndexRow<V>>, r: IndexRow<V>, target: string)
    ensures Of(rows + [r], target) == if r.target == target then Of(rows, target) + [r] else Of(rows, target)
  {
    assert (rows + [r])[..|rows|] == rows;
  }

  lemma {:induction false} OfWithout<V>(rows: seq<IndexRow<V>>, target: string, other: string)
    ensures Of(Without(rows, target), other) == if other == target then [] else Of(rows, other)
  {
    if rows != [] {
      OfWithout(rows[..|rows| - 1], target, other);
      OfAppend(Without(rows[..|rows| - 1], target), rows[|rows| - 1], other);
    }
  }

  lemma {:induction false} OfAll<V>(rows: seq<IndexRow<V>>, target: string, other: string)
    requires forall r :: r in rows ==> r.target == target
    ensures Of(rows, other) == if other == target then rows else []
  {
    if rows != [] {
      OfAll(rows[..|rows| - 1], target, other);
    }
  }

  /** Replacing the rows of one version leaves those of every other version alone. */
  lemma Replaced<V>(rows: seq<IndexRow<V>>, mine: seq<IndexRow<V>>, source: string, target: string)
    requires forall r :: r in mine ==> r.target == source
    ensures Of(Without(rows, source) + mine, target) == if target == source then mine else Of(rows, target)
  {
    OfWithout(rows, source, target);
    OfConcat(Without(rows, source), mine, target);
    OfAll(mine, source, target);
    EmptyIsUnit(Of(rows, target));
    EmptyIsUnit(mine);
  }

  // ---------------------------------------------------------------- every run

  /** The passages of every version, redacted and raw, and the vectors of the redacted ones: bodies,
      patterns, settings and model stay what they are through a run. */
  datatype Content = Content(redacted: string -> seq<C.Passage>, raw: string -> seq<C.Passage>,
                             vectors: string -> seq<seq<real>>, model: string)

  ghost predicate Sound(c: Content) {
    forall t :: Numbered(c.redacted(t), t) && Numbered(c.raw(t), t) && |c.vectors(t)| == |c.redacted(t)|
  }

  function ContentOf(w: World): Content
    requires w.settings.thresholdTokens > 0
  {
    Content((t: string) => RedactedPassages(w, t), (t: string) => RawPassages(w, t),
            (t: string) => VectorsIn(w, t), w.model)
  }

  lemma ChunksAreNumbered(body: string, target: string, settings: C.ChunkSettings)
    requires settings.thresholdTokens > 0
    ensures Numbered(C.Chunks(body, target, settings), target)
  {
    var ps := C.Chunks(body, target, settings);
    forall k | 0 <= k < |ps|
      ensures ps[k].targetVersion == target && ps[k].ord == k && ps[k].passageId == target + ":" + D.Print(k)
    {
      C.PassagesAreWellCut(body, target, settings, k);
    }
  }

  lemma PassagesAreNumbered(w: World, target: string)
    requires w.settings.thresholdTokens > 0
    ensures Numbered(RedactedPassages(w, target), target) && Numbered(RawPassages(w, target), target)
  {
    if w.body(target).Some? {
      ChunksAreNumbered(Redacted(w, w.body(target).value), target, w.settings);
      ChunksAreNumbered(w.body(target).value, target, w.settings);
    }
  }

  lemma OneVectorAPassage(w: World, target: string)
    requires w.settings.thresholdTokens > 0 && forall ts :: |w.embed(ts)| == |ts|
    ensures |VectorsIn(w, target)| == |RedactedPassages(w, target)|
  {
    assert |Texts(RedactedPassages(w, target))| == |RedactedPassages(w, target)|;
  }

  /** A world whose model returns one vector a text has sound content. */
  lemma ContentIsSound(w: World)
    requires w.settings.thresholdTokens > 0 && forall ts :: |w.embed(ts)| == |ts|
    ensures Sound(ContentOf(w))
  {
    var c := ContentOf(w);
    forall t
      ensures Numbered(c.redacted(t), t) && Numbered(c.raw(t), t) && |c.vectors(t)| == |c.redacted(t)|
    {
      PassagesAreNumbered(w, t);
      OneVectorAPassage(w, t);
      assert c.redacted(t) == RedactedPassages(w, t) && c.raw(t) == RawPassages(w, t);
      assert c.vectors(t) == VectorsIn(w, t);
    }
  }

  /** A redacted lexical run, a raw one, or an embed run. */
  datatype Leg = Save | Repair | Embed(revision: Option<string>)
  datatype Op = Op(target: string, leg: Leg)

  function Chosen(c: Content, op: Op): seq<C.Passage> {
    if op.leg.Repair? then c.raw(op.target) else c.redacted(op.target)
  }

  ghost function VectorsFor(c: Content, target: string, revision: Option<string>): seq<VectorRow>
    requires Sound(c)
  {
    assert Numbered(c.redacted(target), target);
    VectorRows(c.redacted(target), target, c.vectors(target), c.model, revision)
  }

  ghost function Step(t: Tables, c: Content, op: Op): Tables
    requires Sound(c)
  {
    if op.leg.Embed? then Embedded(t, op.target, Chosen(c, op), VectorsFor(c, op.target, op.leg.revision))
    else Indexed(t, op.target, Chosen(c, op))
  }

  ghost function Run(t: Tables, c: Content, ops: seq<Op>): Tables
    requires Sound(c)
  {
    if ops == [] then t else Step(Run(t, c, ops[..|ops| - 1]), c, ops[|ops| - 1])
  }

  /** The last run of a version, of any leg. */
  function LastOf(ops: seq<Op>, target: string): Option<Leg> {
    if ops == [] then None
    else if ops[|ops| - 1].target == target then Some(ops[|ops| - 1].leg)
    else LastOf(ops[..|ops| - 1], target)
  }

  function LastLexical(ops: seq<Op>, target: string): Option<Leg> {
    if ops == [] then None
    else if ops[|ops| - 1].target == target && !ops[|ops| - 1].leg.Embed? then Some(ops[|ops| - 1].leg)
    else LastLexical(ops[..|ops| - 1], target)
  }

  /** The revision that the last embed run recorded. */
  function LastEmbed(ops: seq<Op>, target: string): Option<Option<string>> {
    if ops == [] then None
    else if ops[|ops| - 1].target == target && ops[|ops| - 1].leg.Embed? then Some(ops[|ops| - 1].leg.revision)
    else LastEmbed(ops[..|ops| - 1], target)
  }

  predicate Repaired(ops: seq<Op>, target: string) {
    Op(target, Repair) in ops
  }

  predicate AllColonFree(ops: seq<Op>) {
    forall op :: op in ops ==> ColonFree(op.target)
  }

  /** Rows under their ids, and none for this version beyond its redacted passages. */
  ghost predicate Ready(t: Tables, c: Content, target: string) {
    Keyed(t.passages) && RowsOf(t.passages, target) + ById(c.redacted(target)) == ById(c.redacted(target))
  }

  lemma StepPassages(m: Passages, ps: seq<C.Passage>, source: string, target: string)
    requires Keyed(m) && ColonFree(source) && Numbered(ps, source)
    ensures Keyed(Upsert(m, ps))
    ensures RowsOf(Upsert(m, ps), target)
            == if target == source then RowsOf(m, target) + ById(ps) else RowsOf(m, target)
  {
    UpsertIsMerge(m, ps);
    ByIdLists(ps, source);
    ListedAreKeyed(ById(ps), ps, source);
    WritesOverOwn(m, ById(ps), source);
    if target == source {
      OwnRows(m, ById(ps), source);
    } else {
      OthersRows(m, ById(ps), source, target);
    }
  }

  /** One run touches the rows of its own version only. */
  lemma StepRows(t: Tables, c: Content, op: Op, target: string)
    requires Sound(c) && Keyed(t.passages) && ColonFree(op.target)
    ensures var r, ps, mine := Step(t, c, op), Chosen(c, op), op.target == target;
            && Keyed(r.passages)
            && RowsOf(r.passages, target)
               == (if mine then RowsOf(t.passages, target) + ById(ps) else RowsOf(t.passages, target))
            && Of(r.fts, target) == (if mine && !op.leg.Embed? then FtsRows(ps) else Of(t.fts, target))
            && Of(r.vectors, target)
               == if mine && op.leg.Embed? then VectorsFor(c, target, op.leg.revision) else Of(t.vectors, target)
  {
    var ps := Chosen(c, op);
    assert Numbered(c.redacted(op.target), op.target) && Numbered(c.raw(op.target), op.target);
    StepPassages(t.passages, ps, op.target, target);
    if op.leg.Embed? {
      Replaced(t.vectors, VectorsFor(c, op.target, op.leg.revision), op.target, target);
    } else {
      Replaced(t.fts, FtsRows(ps), op.target, target);
    }
  }

  /** What rows merged over and over come to: the last of two lists over the other. */
  function Settled(before: Passages, red: Passages, raw: Passages, ops: seq<Op>, target: string): Passages {
    match LastOf(ops, target)
    case None => before
    case Some(Repair) => (if WroteRedacted(ops, target) then red else before) + raw
    case Some(_) => if Repaired(ops, target) then raw + red else red
  }

  predicate WroteRedacted(ops: seq<Op>, target: string) {
    exists op :: op in ops && op.target == target && !op.leg.Repair?
  }

  lemma MergesSettle(before: Passages, red: Passages, raw: Passages)
    requires before + red == red
    ensures red + red == red && (before + raw) + red == raw + red && (red + raw) + red == raw + red
    ensures (raw + red) + red == raw + red && (raw + red) + raw == red + raw
    ensures (before + raw) + raw == before + raw && (red + raw) + raw == red + raw
  {
  }

  lemma {:induction false} Untouched(ops: seq<Op>, target: string)
    ensures LastOf(ops, target).None? ==> forall op :: op in ops ==> op.target != target
    ensures LastOf(ops, target).Some? ==> Op(target, LastOf(ops, target).value) in ops
  {
    if ops != [] {
      Untouched(ops[..|ops| - 1], target);
      assert ops == ops[..|ops| - 1] + [ops[|ops| - 1]];
    }
  }

  lemma SettledStep(before: Passages, red: Passages, raw: Passages, ops: seq<Op>, op: Op, target: string)
    requires before + red == red
    ensures Settled(before, red, raw, ops + [op], target)
            == if op.target != target then Settled(before, red, raw, ops, target)
               else Settled(before, red, raw, ops, target) + if op.leg.Repair? then raw else red
  {
    var all := ops + [op];
    assert all[..|ops|] == ops;
    Untouched(ops, target);
    MergesSettle(before, red, raw);
    assert Repaired(all, target) <==> Repaired(ops, target) || op == Op(target, Repair);
    assert WroteRedacted(all, target) <==> WroteRedacted(ops, target) || (op.target == target && !op.leg.Repair?) by {
      assert op in all && forall o :: o in ops ==> o in all;
    }
  }

  /** After any runs of any leg, over any versions in any order, the rows of a version are what its own
      runs make them: FTS rows from the last lexical run, vectors from the last embed run, passage
      rows from both kinds of text where both were written, the last over the other. */
  lemma {:induction false} LegsConverge(t: Tables, c: Content, ops: seq<Op>, target: string)
    requires Sound(c) && Ready(t, c, target) && AllColonFree(ops)
    ensures var r, red, raw := Run(t, c, ops), c.redacted(target), c.raw(target);
            var lexical, embed := LastLexical(ops, target), LastEmbed(ops, target);
            && Keyed(r.passages)
            && RowsOf(r.passages, target) == Settled(RowsOf(t.passages, target), ById(red), ById(raw), ops, target)
            && Of(r.fts, target)
               == (if lexical.None? then Of(t.fts, target) else FtsRows(if lexical.value.Repair? then raw else red))
            && Of(r.vectors, target)
               == if embed.Some? then VectorsFor(c, target, embed.value) else Of(t.vectors, target)
  {
    if ops != [] {
      var init, op := ops[..|ops| - 1], ops[|ops| - 1];
      assert ops == init + [op];
      LegsConverge(t, c, init, target);
      StepRows(Run(t, c, init), c, op, target);
      SettledStep(RowsOf(t.passages, target), ById(c.redacted(target)), ById(c.raw(target)), init, op, target);
    }
  }

  // ---------------------------------------------------------------- when the legs agree

  /** Passage rows, FTS rows and vector rows are all for the passages that the vectors were made from. */
  ghost predicate Agree(t: Tables, c: Content, target: string)
    requires Sound(c)
  {
    var ps := c.redacted(target);
    && RowsOf(t.passages, target) == ById(ps) && Of(t.fts, target) == FtsRows(ps)
    && exists revision :: Of(t.vectors, target) == VectorsFor(c, target, revision)
  }

  /** Where the legs agree, FTS rows and vector rows carry exactly the ids of the passage rows, in
      order, and the searchable texts are the rows' texts. */
  lemma AgreementMeansOnePassageList(t: Tables, c: Content, target: string)
    requires Sound(c) && ColonFree(target) && Agree(t, c, target)
    ensures var ps, fts, vs := c.redacted(target), Of(t.fts, target), Of(t.vectors, target);
            && Lists(RowsOf(t.passages, target), ps) && |fts| == |vs| == |ps|
            && forall k :: 0 <= k < |ps| ==>
                 && fts[k].passageId == vs[k].passageId == ps[k].passageId && fts[k].value == ps[k].text
                 && vs[k].value.vector == c.vectors(target)[k] && vs[k].value.model == c.model
  {
    assert Numbered(c.redacted(target), target);
    ByIdLists(c.redacted(target), target);
  }

  lemma {:induction false} LastsFit(ops: seq<Op>, target: string)
    ensures LastOf(ops, target) == Some(Repair) ==> LastLexical(ops, target) == Some(Repair)
    ensures LastLexical(ops, target) == Some(Repair) ==> Repaired(ops, target)
    ensures LastLexical(ops, target).Some? || LastEmbed(ops, target).Some? ==> LastOf(ops, target).Some?
    ensures LastEmbed(ops, target).Some? || LastLexical(ops, target) == Some(Save) ==> WroteRedacted(ops, target)
    ensures LastLexical(ops, target).Some? ==> !LastLexical(ops, target).value.Embed?
  {
    if ops != [] {
      LastsFit(ops[..|ops| - 1], target);
      assert ops == ops[..|ops| - 1] + [ops[|ops| - 1]];
      assert forall o :: o in ops[..|ops| - 1] ==> o in ops;
    }
  }

  lemma SameFtsIffSameTexts(a: seq<C.Passage>, b: seq<C.Passage>, target: string)
    requires Numbered(a, target) && Numbered(b, target)
    ensures FtsRows(a) == FtsRows(b) <==> Texts(a) == Texts(b)
  {
    if FtsRows(a) == FtsRows(b) {
      assert |FtsRows(a)| == |a| && |FtsRows(b)| == |b|;
      forall k | 0 <= k < |a| ensures Texts(a)[k] == Texts(b)[k] {
        assert FtsRows(a)[k] == FtsRows(b)[k];
      }
    }
    if Texts(a) == Texts(b) {
      assert |Texts(a)| == |a| && |Texts(b)| == |b|;
      forall k | 0 <= k < |a| ensures FtsRows(a)[k] == FtsRows(b)[k] {
        assert Texts(a)[k] == Texts(b)[k];
      }
    }
  }

  lemma OverwritingGivesSelf(a: Passages, before: seq<C.Passage>, b: Passages, after: seq<C.Passage>)
    requires Lists(a, before) && Lists(b, after) && |before| == |after| && a + b == a
    requires forall k :: 0 <= k < |before| ==> before[k].passageId == after[k].passageId
    ensures before == after
  {
    forall k | 0 <= k < |before| ensures before[k] == after[k] {
      assert (a + b)[after[k].passageId] == after[k];
    }
  }

  /** What the content of a version must be like for a history of runs to leave its legs agreeing. */
  predicate Harmless(ops: seq<Op>, red: seq<C.Passage>, raw: seq<C.Passage>, target: string) {
    if !Repaired(ops, target) then true
    else if LastOf(ops, target) == Some(Repair) then raw == red
    else if LastLexical(ops, target) == Some(Repair) then Texts(raw) == Texts(red)
    else |raw| <= |red|
  }

  lemma HarmlessRows(before: Passages, ops: seq<Op>, a: Passages, red: seq<C.Passage>, b: Passages, raw: seq<C.Passage>,
                     target: string)
    requires ColonFree(target) && Numbered(red, target) && Numbered(raw, target)
    requires Lists(a, red) && Lists(b, raw) && before + a == a
    requires Complete(ops, target) && (LastOf(ops, target) == Some(Repair) ==> |raw| == |red|)
    ensures Settled(before, a, b, ops, target) == a
            <==> if !Repaired(ops, target) then true
                 else if LastOf(ops, target) == Some(Repair) then raw == red
                 else |raw| <= |red|
  {
    LastsFit(ops, target);
    if LastOf(ops, target) == Some(Repair) {
      if raw == red { SameListsSameMap(a, b, red); }
      if a + b == a { OverwritingGivesSelf(a, red, b, raw); }
    } else if Repaired(ops, target) {
      ListsMerge(b, raw, a, red, target);
    }
  }

  lemma SameListsSameMap(a: Passages, b: Passages, ps: seq<C.Passage>)
    requires Lists(a, ps) && Lists(b, ps)
    ensures a == b
  {
  }

  /** A run that has both indexed and embedded the version. */
  predicate Complete(ops: seq<Op>, target: string) {
    AllColonFree(ops) && LastLexical(ops, target).Some? && LastEmbed(ops, target).Some?
  }

  /** Exactly when the legs agree after a run that has indexed and embedded a version: always without a
      raw run; after a last raw run only where redaction leaves the passages as they are; after a
      later embed run only where it leaves their texts; after a later redacted index run only where
      it makes no fewer of them. */
  lemma LegsAgreeIffHarmless(t: Tables, c: Content, ops: seq<Op>, target: string)
    requires Sound(c) && Ready(t, c, target) && ColonFree(target) && Complete(ops, target)
    ensures Agree(Run(t, c, ops), c, target) <==> Harmless(ops, c.redacted(target), c.raw(target), target)
  {
    var red, raw := c.redacted(target), c.raw(target);
    assert Numbered(red, target) && Numbered(raw, target);
    LegsConverge(t, c, ops, target);
    LastsFit(ops, target);
    ByIdLists(red, target);
    ByIdLists(raw, target);
    SameFtsIffSameTexts(raw, red, target);
    if LastLexical(ops, target) == Some(Repair) && Texts(raw) == Texts(red) {
      assert |Texts(raw)| == |raw| && |Texts(red)| == |red|;
    }
    if LastOf(ops, target) != Some(Repair) || |raw| == |red| {
      HarmlessRows(RowsOf(t.passages, target), ops, ById(red), red, ById(raw), raw, target);
    }
  }

  /** One embed run, then one raw run. */
  function EmbedThenRepair(target: string): seq<Op> {
    [Op(target, Embed(None)), Op(target, Repair)]
  }

  lemma EmbedThenRepairIsComplete(target: string)
    requires ColonFree(target)
    ensures var two := EmbedThenRepair(target);
            && Complete(two, target) && Repaired(two, target)
            && LastOf(two, target) == LastLexical(two, target) == Some(Repair)
  {
    var two := EmbedThenRepair(target);
    assert two[..1] == [two[0]] && [two[0]][..0] == [];
    assert LastEmbed([two[0]], target) == Some(None);
    assert LastEmbed(two, target) == LastEmbed(two[..1], target);
    assert two[1] in two;
  }

  /** Legs agree after every run if and only if redaction leaves the version's passages as they are:
      one embed run and one raw run make the difference. */
  lemma LegsAlwaysAgreeIffUnchanged(t: Tables, c: Content, target: string)
    requires Sound(c) && Ready(t, c, target) && ColonFree(target)
    ensures (forall ops :: Complete(ops, target) ==> Agree(Run(t, c, ops), c, target))
            <==> c.raw(target) == c.redacted(target)
  {
    forall ops | Complete(ops, target)
      ensures Agree(Run(t, c, ops), c, target) <==> Harmless(ops, c.redacted(target), c.raw(target), target)
    {
      LegsAgreeIffHarmless(t, c, ops, target);
    }
    EmbedThenRepairIsComplete(target);
  }

  // ---------------------------------------------------------------- chunking anew

  /** Rows are replaced but never deleted, so after a change of chunk settings a version's rows are
      exactly the new passages when there are at least as many of them as before, and only then. */
  lemma RechunkingIsCleanIffNoFewer(before: seq<C.Passage>, after: seq<C.Passage>, target: string)
    requires ColonFree(target) && Numbered(before, target) && Numbered(after, target)
    ensures Upsert(ById(before), after) == ById(after) <==> |before| <= |after|
  {
    UpsertIsMerge(ById(before), after);
    ByIdLists(before, target);
    ByIdLists(after, target);
    ListsMerge(ById(before), before, ById(after), after, target);
  }

  /** The same of a stored body that is chunked under new settings. */
  lemma RechunkingABodyIsCleanIffNoFewer(body: string, target: string, was: C.ChunkSettings, now: C.ChunkSettings)
    requires ColonFree(target) && was.thresholdTokens > 0 && now.thresholdTokens > 0
    ensures var before, after := C.Chunks(body, target, was), C.Chunks(body, target, now);
            Upsert(ById(before), after) == ById(after) <==> |before| <= |after|
  {
    ChunksAreNumbered(body, target, was);
    ChunksAreNumbered(body, target, now);
    RechunkingIsCleanIffNoFewer(C.Chunks(body, target, was), C.Chunks(body, target, now), target);
  }

  lemma ListsMerge(a: Passages, before: seq<C.Passage>, b: Passages, after: seq<C.Passage>, target: string)
    requires ColonFree(target) && Numbered(before, target) && Numbered(after, target)
    requires Lists(a, before) && Lists(b, after)
    ensures a + b == b <==> |before| <= |after|
  {
    if |before| <= |after| {
      forall id | id in a ensures id in b {
        var k :| 0 <= k < |before| && before[k].passageId == id;
        assert after[k].passageId == id;
      }
    } else {
      var id := before[|after|].passageId;
      if id in b {
        var k :| 0 <= k < |after| && after[k].passageId == id;
        PassageIdsAreUnique(target, k, target, |after|);
      }
      assert id in a + b;
    }
  }
}
