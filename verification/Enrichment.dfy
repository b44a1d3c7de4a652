/** Enrichment rewrites its own rows around the user's: annotations and edges of notes and externals. */
module Enrichment {
  import opened Text

  /** What a row is about; curation matches on exactly this. */
  datatype Item = Annotation(target: string, kind: string, payload: string) | Edge(fromId: string, toId: string)

  datatype Source = Ai | User
  datatype Status = Fresh | Stale | Orphaned

  /** What the model said beside the item itself. */
  datatype Detail = Said(model: string, provider: Option<string>, created: string)
                  | Inferred(reason: string, confidence: real)

  datatype Row = Row(id: nat, item: Item, source: Source, status: Status, sourceVersion: Option<string>, detail: Detail)

  datatype InferredEdge = InferredEdge(toId: string, reason: string, confidence: real)
  datatype EnrichmentResult = EnrichmentResult(tags: seq<string>, entities: seq<string>,
                                               inferredEdges: seq<InferredEdge>, summary: string)

  // ---------------------------------------------------------------- statements

  /** SQLite's next rowid. */
  function NextId(rows: seq<Row>): nat {
    if rows == [] then 1
    else
      var rest := NextId(rows[..|rows| - 1]);
      if rows[|rows| - 1].id >= rest then rows[|rows| - 1].id + 1 else rest
  }

  predicate IsAiOf(r: Row, v: string) {
    r.source == Ai && r.sourceVersion == Some(v)
  }

  /** The rows without the AI rows of one version. */
  function Cleared(rows: seq<Row>, v: string): seq<Row> {
    if rows == [] then []
    else
      var init, last := Cleared(rows[..|rows| - 1], v), rows[|rows| - 1];
      if IsAiOf(last, v) then init else init + [last]
  }

  predicate Suppressed(rows: seq<Row>, item: Item) {
    exists r :: r in rows && r.source == User && r.item == item
  }

  type Suggestion = (Item, Detail)

  function NewRow(id: nat, v: string, s: Suggestion): Row {
    Row(id, s.0, Ai, Fresh, Some(v), s.1)
  }

  /** Suggestions inserted in order, those the user has decided about skipped. */
  function Inserted(rows: seq<Row>, v: string, items: seq<Suggestion>): seq<Row> {
    if items == [] then rows
    else
      var before, last := Inserted(rows, v, items[..|items| - 1]), items[|items| - 1];
      if Suppressed(before, last.0) then before else before + [NewRow(NextId(before), v, last)]
  }

  function Written(rows: seq<Row>, v: string, items: seq<Suggestion>): seq<Row> {
    Inserted(Cleared(rows, v), v, items)
  }

  /** The row `id` made the user's, orphaned, and of no version. */
  function Tombstoned(rows: seq<Row>, id: nat): seq<Row> {
    seq(|rows|, k requires 0 <= k < |rows| =>
      if rows[k].id == id then rows[k].(source := User, status := Orphaned, sourceVersion := None) else rows[k])
  }

  predicate HasId(rows: seq<Row>, id: nat) {
    exists r :: r in rows && r.id == id
  }

  function KindItems(owner: string, kind: string, values: seq<string>, said: Detail): seq<Suggestion> {
    seq(|values|, k requires 0 <= k < |values| => (Annotation(owner, kind, values[k]), said))
  }

  /** Tags, then entities, then the summary unless it is empty. */
  function AnnotationItems(owner: string, res: EnrichmentResult, said: Detail): seq<Suggestion> {
    KindItems(owner, "tag", res.tags, said)
    + (KindItems(owner, "entity", res.entities, said)
       + KindItems(owner, "summary", if res.summary != "" then [res.summary] else [], said))
  }

  function EdgeItems(owner: string, res: EnrichmentResult): seq<Suggestion> {
    var es := res.inferredEdges;
    seq(|es|, k requires 0 <= k < |es| => (Edge(owner, es[k].toId), Inferred(es[k].reason, es[k].confidence)))
  }

  lemma {:induction false} InsertedInTwo(rows: seq<Row>, v: string, a: seq<Suggestion>, b: seq<Suggestion>)
    ensures Inserted(rows, v, a + b) == Inserted(Inserted(rows, v, a), v, b)
    decreases |b|
  {
    if b == [] {
      EmptyIsUnit(a);
    } else {
      assert (a + b)[..|a + b| - 1] == a + b[..|b| - 1];
      InsertedInTwo(rows, v, a, b[..|b| - 1]);
    }
  }

  // ---------------------------------------------------------------- the tables

  class DerivedTables {
    var annotations: seq<Row>
    var edges: seq<Row>

    constructor ()
      ensures annotations == [] && edges == []
    {
      annotations, edges := [], [];
    }

    method WriteKind(owner: string, v: string, kind: string, values: seq<string>, said: Detail)
      modifies this`annotations
      ensures annotations == Inserted(old(annotations), v, KindItems(owner, kind, values, said))
    {
      ghost var items := KindItems(owner, kind, values, said);
      for k := 0 to |values|
        invariant annotations == Inserted(old(annotations), v, items[..k])
      {
        assert items[..k + 1][..k] == items[..k];
        var item := Annotation(owner, kind, values[k]);
        if Suppressed(annotations, item) {
          continue;
        }
        annotations := annotations + [Row(NextId(annotations), item, Ai, Fresh, Some(v), said)];
      }
      assert items[..|values|] == items;
    }

    method WriteAnnotations(owner: string, v: string, res: EnrichmentResult, said: Detail)
      modifies this`annotations
      ensures annotations == Written(old(annotations), v, AnnotationItems(owner, res, said))
    {
      annotations := Cleared(annotations, v);
      ghost var start := annotations;
      ghost var tags := KindItems(owner, "tag", res.tags, said);
      ghost var entities := KindItems(owner, "entity", res.entities, said);
      var summary := if res.summary != "" then [res.summary] else [];
      WriteKind(owner, v, "tag", res.tags, said);
      WriteKind(owner, v, "entity", res.entities, said);
      WriteKind(owner, v, "summary", summary, said);
      InsertedInTwo(start, v, tags, entities + KindItems(owner, "summary", summary, said));
      InsertedInTwo(Inserted(start, v, tags), v, entities, KindItems(owner, "summary", summary, said));
    }

    method WriteEdges(owner: string, v: string, res: EnrichmentResult)
      modifies this`edges
      ensures edges == Written(old(edges), v, EdgeItems(owner, res))
    {
      edges := Cleared(edges, v);
      ghost var items := EdgeItems(owner, res);
      for k := 0 to |res.inferredEdges|
        invariant edges == Inserted(Cleared(old(edges), v), v, items[..k])
      {
        assert items[..k + 1][..k] == items[..k];
        var e := res.inferredEdges[k];
        if Suppressed(edges, Edge(owner, e.toId)) {
          continue;
        }
        var row := Row(NextId(edges), Edge(owner, e.toId), Ai, Fresh, Some(v), Inferred(e.reason, e.confidence));
        edges := edges + [row];
      }
      assert items[..|res.inferredEdges|] == items;
    }

    /** One transaction: the rows of the two tables that are keyed to `v` are written anew. */
    method WriteEnrichment(owner: string, v: string, res: EnrichmentResult, said: Detail)
      modifies this
      ensures annotations == Written(old(annotations), v, AnnotationItems(owner, res, said))
      ensures edges == Written(old(edges), v, EdgeItems(owner, res))
    {
      WriteAnnotations(owner, v, res, said);
      WriteEdges(owner, v, res);
    }

    /** `found` is false where the source raises KeyError. */
    method DeleteAnnotation(id: nat) returns (found: bool)
      modifies this`annotations
      ensures found == HasId(old(annotations), id) && annotations == Tombstoned(old(annotations), id)
      ensures Decides(old(annotations), annotations, id)
    {
      found := HasId(annotations, id);
      TombstoneDecides(annotations, id);
      annotations := Tombstoned(annotations, id);
    }

    method DeleteEdge(id: nat) returns (found: bool)
      modifies this`edges
      ensures found == HasId(old(edges), id) && edges == Tombstoned(old(edges), id)
      ensures Decides(old(edges), edges, id)
    {
      found := HasId(edges, id);
      TombstoneDecides(edges, id);
      edges := Tombstoned(edges, id);
    }
  }

  // ---------------------------------------------------------------- what a deletion leaves

  predicate Names(rows: seq<Row>, id: nat, item: Item) {
    exists r :: r in rows && r.id == id && r.item == item
  }

  /** Exactly the items of the row that `id` names are decided about besides those that were; the
      row keeps its place, id, item and detail, and every other row is unchanged. */
  ghost predicate Decides(rows: seq<Row>, after: seq<Row>, id: nat) {
    && |after| == |rows|
    && (forall k :: 0 <= k < |rows| && rows[k].id != id ==> after[k] == rows[k])
    && (forall k :: 0 <= k < |rows| && rows[k].id == id ==>
          after[k].source == User && after[k].status == Orphaned && after[k].sourceVersion == None)
    && (forall k :: 0 <= k < |rows| ==>
          after[k].id == rows[k].id && after[k].item == rows[k].item && after[k].detail == rows[k].detail)
    && (forall item :: Suppressed(after, item) <==> Suppressed(rows, item) || Names(rows, id, item))
    && (!HasId(rows, id) ==> after == rows)
  }

  lemma TombstoneSuppresses(rows: seq<Row>, id: nat, item: Item)
    ensures Suppressed(Tombstoned(rows, id), item) <==> Suppressed(rows, item) || Names(rows, id, item)
  {
    var after := Tombstoned(rows, id);
    if Suppressed(rows, item) {
      var k :| 0 <= k < |rows| && rows[k].source == User && rows[k].item == item;
      assert after[k] in after;
    }
    if Names(rows, id, item) {
      var k :| 0 <= k < |rows| && rows[k].id == id && rows[k].item == item;
      assert after[k] in after;
    }
    if Suppressed(after, item) {
      var k :| 0 <= k < |after| && after[k].source == User && after[k].item == item;
      assert rows[k] in rows;
    }
  }

  /** A deletion decides about the deleted row's item, and about nothing else; the next changes nothing. */
  lemma TombstoneDecides(rows: seq<Row>, id: nat)
    ensures Decides(rows, Tombstoned(rows, id), id)
    ensures Tombstoned(Tombstoned(rows, id), id) == Tombstoned(rows, id)
  {
    forall item ensures Suppressed(Tombstoned(rows, id), item) <==> Suppressed(rows, item) || Names(rows, id, item) {
      TombstoneSuppresses(rows, id, item);
    }
    if !HasId(rows, id) {
      assert forall k :: 0 <= k < |rows| ==> rows[k] in rows;
    }
  }

  // ---------------------------------------------------------------- what a write leaves

  /** How many rows say this, whatever their ids. */
  function Count(rows: seq<Row>, c: Row): nat {
    if rows == [] then 0
    else Count(rows[..|rows| - 1], c) + if rows[|rows| - 1].(id := c.id) == c then 1 else 0
  }

  lemma CountAppend(rows: seq<Row>, r: Row, c: Row)
    ensures Count(rows + [r], c) == Count(rows, c) + if r.(id := c.id) == c then 1 else 0
  {
    assert (rows + [r])[..|rows|] == rows;
  }

  lemma {:induction false} ClearedLeaves(rows: seq<Row>, v: string, c: Row)
    ensures Count(Cleared(rows, v), c) == if IsAiOf(c, v) then 0 else Count(rows, c)
  {
    if rows != [] {
      ClearedLeaves(rows[..|rows| - 1], v, c);
      CountAppend(Cleared(rows[..|rows| - 1], v), rows[|rows| - 1], c);
    }
  }

  lemma {:induction false} ClearedSuppresses(rows: seq<Row>, v: string, item: Item)
    ensures Suppressed(Cleared(rows, v), item) <==> Suppressed(rows, item)
  {
    if rows != [] {
      var init, last := rows[..|rows| - 1], rows[|rows| - 1];
      ClearedSuppresses(init, v, item);
      assert rows == init + [last];
    }
  }

  lemma {:induction false} InsertedSuppresses(rows: seq<Row>, v: string, items: seq<Suggestion>, item: Item)
    ensures Suppressed(Inserted(rows, v, items), item) <==> Suppressed(rows, item)
  {
    if items != [] {
      InsertedSuppresses(rows, v, items[..|items| - 1], item);
    }
  }

  /** A write changes nothing about what the user has decided. */
  lemma WrittenSuppresses(rows: seq<Row>, v: string, items: seq<Suggestion>, item: Item)
    ensures Suppressed(Written(rows, v, items), item) <==> Suppressed(rows, item)
  {
    ClearedSuppresses(rows, v, item);
    InsertedSuppresses(Cleared(rows, v), v, items, item);
  }

  /** How many of the suggestions come out as a row that says `c`. */
  function CountFresh(rows: seq<Row>, v: string, items: seq<Suggestion>, c: Row): nat {
    if items == [] then 0
    else
      var last := items[|items| - 1];
      CountFresh(rows, v, items[..|items| - 1], c)
      + if !Suppressed(rows, last.0) && NewRow(c.id, v, last) == c then 1 else 0
  }

  lemma {:induction false} InsertedAdds(rows: seq<Row>, v: string, items: seq<Suggestion>, c: Row)
    ensures Count(Inserted(rows, v, items), c) == Count(rows, c) + CountFresh(rows, v, items, c)
  {
    if items != [] {
      var init, last := items[..|items| - 1], items[|items| - 1];
      InsertedAdds(rows, v, init, c);
      InsertedSuppresses(rows, v, init, last.0);
      CountAppend(Inserted(rows, v, init), NewRow(NextId(Inserted(rows, v, init)), v, last), c);
    }
  }

  lemma {:induction false} FreshIsAi(rows: seq<Row>, v: string, items: seq<Suggestion>, c: Row)
    requires !IsAiOf(c, v)
    ensures CountFresh(rows, v, items, c) == 0
  {
    if items != [] { FreshIsAi(rows, v, items[..|items| - 1], c); }
  }

  lemma {:induction false} FreshDependsOnDecisions(a: seq<Row>, b: seq<Row>, v: string, items: seq<Suggestion>, c: Row)
    requires forall item :: Suppressed(a, item) <==> Suppressed(b, item)
    ensures CountFresh(a, v, items, c) == CountFresh(b, v, items, c)
  {
    if items != [] { FreshDependsOnDecisions(a, b, v, items[..|items| - 1], c); }
  }

  /** How often a value comes in a list. */
  function Times(values: seq<string>, v: string): nat {
    if values == [] then 0 else Times(values[..|values| - 1], v) + if values[|values| - 1] == v then 1 else 0
  }

  lemma {:induction false} CountFreshOfTwo(rows: seq<Row>, v: string, a: seq<Suggestion>, b: seq<Suggestion>, c: Row)
    ensures CountFresh(rows, v, a + b, c) == CountFresh(rows, v, a, c) + CountFresh(rows, v, b, c)
  {
    if b == [] {
      EmptyIsUnit(a);
    } else {
      assert (a + b)[..|a + b| - 1] == a + b[..|b| - 1];
      CountFreshOfTwo(rows, v, a, b[..|b| - 1], c);
    }
  }

  lemma {:induction false} CountFreshOfKind(rows: seq<Row>, v: string, owner: string, kind: string, values: seq<string>,
                                            said: Detail, c: Row, payload: string)
    requires !Suppressed(rows, c.item) && c == Row(c.id, c.item, Ai, Fresh, Some(v), said)
    ensures c.item == Annotation(owner, kind, payload)
            ==> CountFresh(rows, v, KindItems(owner, kind, values, said), c) == Times(values, payload)
    ensures !(c.item.Annotation? && c.item.target == owner && c.item.kind == kind)
            ==> CountFresh(rows, v, KindItems(owner, kind, values, said), c) == 0
  {
    if values != [] {
      var init := values[..|values| - 1];
      CountFreshOfKind(rows, v, owner, kind, init, said, c, payload);
      assert KindItems(owner, kind, values, said)[..|values| - 1] == KindItems(owner, kind, init, said);
    }
  }

  /** Which list of the result each AI row comes from: a row of kind tag from the tags, of kind entity from
      the entities, of kind summary from a summary that is not empty, each as often as listed there, unless
      the user has decided about it. */
  lemma RowsComeFromTheirLists(rows: seq<Row>, owner: string, v: string, res: EnrichmentResult, said: Detail,
                               id: nat, kind: string, payload: string)
    ensures var item := Annotation(owner, kind, payload);
            Count(Written(rows, v, AnnotationItems(owner, res, said)), Row(id, item, Ai, Fresh, Some(v), said))
            == if Suppressed(rows, item) then 0
               else if kind == "tag" then Times(res.tags, payload)
               else if kind == "entity" then Times(res.entities, payload)
               else if kind == "summary" && payload == res.summary && res.summary != "" then 1
               else 0
  {
    var item := Annotation(owner, kind, payload);
    var c := Row(id, item, Ai, Fresh, Some(v), said);
    var tags, entities := KindItems(owner, "tag", res.tags, said), KindItems(owner, "entity", res.entities, said);
    var summary := if res.summary != "" then [res.summary] else [];
    WriteIsExact(rows, v, AnnotationItems(owner, res, said), c);
    CountFreshOfTwo(rows, v, tags, entities + KindItems(owner, "summary", summary, said), c);
    CountFreshOfTwo(rows, v, entities, KindItems(owner, "summary", summary, said), c);
    KindsDiffer();
    if Suppressed(rows, item) {
      SuppressedIsNotFresh(rows, v, AnnotationItems(owner, res, said), c);
    } else {
      CountFreshOfKind(rows, v, owner, "tag", res.tags, said, c, payload);
      CountFreshOfKind(rows, v, owner, "entity", res.entities, said, c, payload);
      CountFreshOfKind(rows, v, owner, "summary", summary, said, c, payload);
      assert summary != [] ==> summary[..0] == [] && Times(summary, payload) == if payload == res.summary then 1 else 0;
    }
  }

  lemma KindsDiffer()
    ensures "tag" != "entity" && "tag" != "summary" && "entity" != "summary"
  {
    assert "tag"[0] != "entity"[0] && "tag"[0] != "summary"[0] && "entity"[0] != "summary"[0];
  }

  lemma {:induction false} SuppressedIsNotFresh(rows: seq<Row>, v: string, items: seq<Suggestion>, c: Row)
    requires Suppressed(rows, c.item)
    ensures CountFresh(rows, v, items, c) == 0
  {
    if items != [] { SuppressedIsNotFresh(rows, v, items[..|items| - 1], c); }
  }

  /** An edge row comes from an inferred edge of the owner, with its reason and confidence. */
  lemma EdgesComeFromTheirList(owner: string, res: EnrichmentResult, k: nat)
    requires k < |res.inferredEdges|
    ensures |EdgeItems(owner, res)| == |res.inferredEdges|
    ensures var e, (item, said) := res.inferredEdges[k], EdgeItems(owner, res)[k];
            item.fromId == owner && item.toId == e.toId && said == Inferred(e.reason, e.confidence)
  {
  }

  /** After a write for `v` its AI rows are exactly the suggestions the user has not decided about,
      as often as suggested; every other row is there as often as before. */
  lemma WriteIsExact(rows: seq<Row>, v: string, items: seq<Suggestion>, c: Row)
    ensures Count(Written(rows, v, items), c)
            == if IsAiOf(c, v) then CountFresh(rows, v, items, c) else Count(rows, c)
  {
    ClearedLeaves(rows, v, c);
    InsertedAdds(Cleared(rows, v), v, items, c);
    forall item ensures Suppressed(Cleared(rows, v), item) <==> Suppressed(rows, item) {
      ClearedSuppresses(rows, v, item);
    }
    FreshDependsOnDecisions(Cleared(rows, v), rows, v, items, c);
    if !IsAiOf(c, v) { FreshIsAi(rows, v, items, c); }
  }

  /** Writes for different versions commute, up to row ids and row order. */
  lemma WritesCommute(rows: seq<Row>, v: string, a: seq<Suggestion>, w: string, b: seq<Suggestion>, c: Row)
    requires v != w
    ensures Count(Written(Written(rows, v, a), w, b), c) == Count(Written(Written(rows, w, b), v, a), c)
  {
    WriteIsExact(rows, v, a, c);
    WriteIsExact(rows, w, b, c);
    WriteIsExact(Written(rows, v, a), w, b, c);
    WriteIsExact(Written(rows, w, b), v, a, c);
    forall item
      ensures Suppressed(Written(rows, v, a), item) <==> Suppressed(rows, item)
      ensures Suppressed(Written(rows, w, b), item) <==> Suppressed(rows, item)
    {
      WrittenSuppresses(rows, v, a, item);
      WrittenSuppresses(rows, w, b, item);
    }
    FreshDependsOnDecisions(Written(rows, v, a), rows, w, b, c);
    FreshDependsOnDecisions(Written(rows, w, b), rows, v, a, c);
  }

  lemma {:induction false} ClearingTwice(rows: seq<Row>, v: string)
    ensures Cleared(Cleared(rows, v), v) == Cleared(rows, v)
  {
    if rows != [] {
      ClearingTwice(rows[..|rows| - 1], v);
      ClearedOfAppend(Cleared(rows[..|rows| - 1], v), rows[|rows| - 1], v);
    }
  }

  lemma ClearedOfAppend(rows: seq<Row>, r: Row, v: string)
    ensures Cleared(rows + [r], v) == if IsAiOf(r, v) then Cleared(rows, v) else Cleared(rows, v) + [r]
  {
    assert (rows + [r])[..|rows|] == rows;
  }

  lemma {:induction false} ClearingAfterInserting(rows: seq<Row>, v: string, items: seq<Suggestion>)
    ensures Cleared(Inserted(rows, v, items), v) == Cleared(rows, v)
  {
    if items != [] {
      var before := Inserted(rows, v, items[..|items| - 1]);
      ClearingAfterInserting(rows, v, items[..|items| - 1]);
      ClearedOfAppend(before, NewRow(NextId(before), v, items[|items| - 1]), v);
    }
  }

  /** Writing again changes nothing, row ids included; writing over an earlier result forgets it. */
  lemma LastWriteWins(rows: seq<Row>, v: string, a: seq<Suggestion>, b: seq<Suggestion>)
    ensures Written(Written(rows, v, a), v, b) == Written(rows, v, b)
  {
    ClearingTwice(rows, v);
    ClearingAfterInserting(Cleared(rows, v), v, a);
  }

  // ---------------------------------------------------------------- every run

  datatype Op = Enrich(version: string, items: seq<Suggestion>) | Delete(rowId: nat)

  function Apply(rows: seq<Row>, op: Op): seq<Row> {
    match op
    case Enrich(v, items) => Written(rows, v, items)
    case Delete(id) => Tombstoned(rows, id)
  }

  function Run(rows: seq<Row>, ops: seq<Op>): seq<Row> {
    if ops == [] then rows else Apply(Run(rows, ops[..|ops| - 1]), ops[|ops| - 1])
  }

  predicate DistinctIds(rows: seq<Row>) {
    forall i, j :: 0 <= i < j < |rows| ==> rows[i].id != rows[j].id
  }

  lemma {:induction false} NextIdIsNew(rows: seq<Row>)
    ensures forall r :: r in rows ==> r.id < NextId(rows)
  {
    if rows != [] {
      NextIdIsNew(rows[..|rows| - 1]);
      assert rows == rows[..|rows| - 1] + [rows[|rows| - 1]];
    }
  }

  lemma {:induction false} ClearedIsPart(rows: seq<Row>, v: string)
    requires DistinctIds(rows)
    ensures DistinctIds(Cleared(rows, v))
    ensures forall r :: r in Cleared(rows, v) <==> r in rows && !IsAiOf(r, v)
  {
    if rows != [] {
      var init, last := rows[..|rows| - 1], rows[|rows| - 1];
      ClearedIsPart(init, v);
      assert rows == init + [last];
      assert forall r :: r in init ==> r.id != last.id;
    }
  }

  lemma {:induction false} InsertedKeeps(rows: seq<Row>, v: string, items: seq<Suggestion>)
    requires DistinctIds(rows)
    ensures DistinctIds(Inserted(rows, v, items))
    ensures forall r :: r in rows ==> r in Inserted(rows, v, items)
  {
    if items != [] {
      InsertedKeeps(rows, v, items[..|items| - 1]);
      NextIdIsNew(Inserted(rows, v, items[..|items| - 1]));
    }
  }

  /** A user row stays the user's, about the same item, under the same id. */
  predicate StillThere(rows: seq<Row>, r: Row) {
    exists q :: q in rows && q.id == r.id && q.item == r.item && q.source == User
  }

  lemma StepKeepsUserRows(rows: seq<Row>, op: Op, r: Row)
    requires DistinctIds(rows) && StillThere(rows, r)
    ensures DistinctIds(Apply(rows, op)) && StillThere(Apply(rows, op), r)
  {
    var q :| q in rows && q.id == r.id && q.item == r.item && q.source == User;
    match op
    case Enrich(v, items) =>
      ClearedIsPart(rows, v);
      InsertedKeeps(Cleared(rows, v), v, items);
      assert q in Written(rows, v, items);
    case Delete(id) =>
      var k :| 0 <= k < |rows| && rows[k] == q;
      assert Tombstoned(rows, id)[k] in Tombstoned(rows, id);
  }

  /** How many AI rows there are for an item. */
  function CountAi(rows: seq<Row>, item: Item): nat {
    if rows == [] then 0
    else
      var last := rows[|rows| - 1];
      CountAi(rows[..|rows| - 1], item) + if last.source == Ai && last.item == item then 1 else 0
  }

  lemma {:induction false} ClearedHasNoMoreAi(rows: seq<Row>, v: string, item: Item)
    ensures CountAi(Cleared(rows, v), item) <= CountAi(rows, item)
  {
    if rows != [] {
      var init, last := Cleared(rows[..|rows| - 1], v), rows[|rows| - 1];
      ClearedHasNoMoreAi(rows[..|rows| - 1], v, item);
      assert (init + [last])[..|init|] == init;
    }
  }

  lemma {:induction false} InsertedAddsNoDecided(rows: seq<Row>, v: string, items: seq<Suggestion>, item: Item)
    requires Suppressed(rows, item)
    ensures CountAi(Inserted(rows, v, items), item) == CountAi(rows, item)
  {
    if items != [] {
      var before, last := Inserted(rows, v, items[..|items| - 1]), items[|items| - 1];
      InsertedAddsNoDecided(rows, v, items[..|items| - 1], item);
      InsertedSuppresses(rows, v, items[..|items| - 1], item);
      var row := NewRow(NextId(before), v, last);
      assert (before + [row])[..|before|] == before;
    }
  }

  lemma {:induction false} TombstonedHasNoMoreAi(rows: seq<Row>, id: nat, item: Item)
    ensures CountAi(Tombstoned(rows, id), item) <= CountAi(rows, item)
  {
    if rows != [] {
      TombstonedHasNoMoreAi(rows[..|rows| - 1], id, item);
      assert Tombstoned(rows, id)[..|rows| - 1] == Tombstoned(rows[..|rows| - 1], id);
    }
  }

  lemma StepAddsNoDecided(rows: seq<Row>, op: Op, item: Item)
    requires Suppressed(rows, item)
    ensures CountAi(Apply(rows, op), item) <= CountAi(rows, item)
  {
    match op
    case Enrich(v, items) =>
      ClearedHasNoMoreAi(rows, v, item);
      ClearedSuppresses(rows, v, item);
      InsertedAddsNoDecided(Cleared(rows, v), v, items, item);
    case Delete(id) =>
      TombstonedHasNoMoreAi(rows, id, item);
  }

  /** User decisions survive every run of enrichments and deletions, of any versions in any order. */
  lemma {:induction false} DecisionsSurvive(rows: seq<Row>, ops: seq<Op>, r: Row)
    requires DistinctIds(rows) && r in rows && r.source == User
    ensures DistinctIds(Run(rows, ops)) && StillThere(Run(rows, ops), r)
    ensures CountAi(Run(rows, ops), r.item) <= CountAi(rows, r.item)
  {
    if ops != [] {
      var before, op := Run(rows, ops[..|ops| - 1]), ops[|ops| - 1];
      DecisionsSurvive(rows, ops[..|ops| - 1], r);
      StepKeepsUserRows(before, op, r);
      StepAddsNoDecided(before, op, r.item);
    }
  }

  /** Deleting a suggestion decides about its item: no enrichment brings the item back. */
  lemma DeletedStaysDeleted(rows: seq<Row>, r: Row, ops: seq<Op>)
    requires DistinctIds(rows) && r in rows
    ensures var after := Tombstoned(rows, r.id);
            CountAi(Run(after, ops), r.item) <= CountAi(after, r.item) <= CountAi(rows, r.item)
    ensures r.source == Ai ==> CountAi(Tombstoned(rows, r.id), r.item) < CountAi(rows, r.item)
  {
    var k :| 0 <= k < |rows| && rows[k] == r;
    var t := Tombstoned(rows, r.id);
    TombstonedHasNoMoreAi(rows, r.id, r.item);
    DecisionsSurvive(t, ops, t[k]);
    if r.source == Ai { TombstoneTakesOne(rows, k); }
  }

  lemma {:induction false} TombstoneTakesOne(rows: seq<Row>, k: nat)
    requires k < |rows| && rows[k].source == Ai
    ensures CountAi(Tombstoned(rows, rows[k].id), rows[k].item) < CountAi(rows, rows[k].item)
  {
    var n, id, item := |rows| - 1, rows[k].id, rows[k].item;
    assert Tombstoned(rows, id)[..n] == Tombstoned(rows[..n], id);
    if k < n {
      TombstoneTakesOne(rows[..n], k);
    } else {
      TombstonedHasNoMoreAi(rows[..n], id, item);
    }
  }
}
