/** The batch route of enrichment: submitting jobs under a handle, and collecting their results. */
module Batch {
  import opened Text
  import opened JobQueue
  import opened Targets
  import E = Enrichment
  import Eg = Egress
  import R = Redact

  const ENRICH_PURPOSE := "enrich"

  /** A resolved version or snapshot: who owns it, and whether it may be sent. */
  datatype Target = Target(owner: string, body: string, noEgress: bool, live: bool)

  /** The store as the resolver reads it. */
  type Lookup = string -> Option<Target>

  /** Versions first, then snapshots; `scoped` is the scope rules on an external's id and type. */
  function ResolveEnrichTarget(st: Store, scoped: (string, string) -> bool, id: string): Option<Target> {
    if id in st.versions && st.versions[id].noteId in st.noteFlags then
      var v := st.versions[id];
      Some(Target(v.noteId, v.body, st.noteFlags[v.noteId], !v.deleted && !v.purged))
    else if id in st.snapshots && st.snapshots[id].externalId in st.externals then
      var s := st.snapshots[id];
      var e := st.externals[s.externalId];
      Some(Target(s.externalId, s.body, e.noEgress || scoped(s.externalId, e.sourceType), !s.tombstone))
    else None
  }

  function LookupIn(st: Store, scoped: (string, string) -> bool): Lookup {
    id => ResolveEnrichTarget(st, scoped, id)
  }

  predicate Gated(t: Option<Target>) {
    t.None? || !t.value.live || t.value.noEgress
  }

  // ---------------------------------------------------------------- submitting

  /** The jobs on one side of the gate, in order. */
  function Side(jobs: seq<(nat, string)>, lookup: Lookup, gated: bool): seq<(nat, string)> {
    if jobs == [] then []
    else
      var last := jobs[|jobs| - 1];
      Side(jobs[..|jobs| - 1], lookup, gated) + if Gated(lookup(last.1)) == gated then [last] else []
  }

  function Ids(jobs: seq<(nat, string)>): seq<nat> {
    seq(|jobs|, k requires 0 <= k < |jobs| => jobs[k].0)
  }

  /** One batch request: the redacted body, under the version's own id. */
  function RequestFor(v: string, lookup: Lookup, ps: seq<R.Pattern>): Eg.RedactedSend {
    var t := lookup(v);
    var (text, n) := R.Redacted(if t.Some? then t.value.body else "", ps);
    Eg.RedactedSend(v, text, n)
  }

  function Requests(jobs: seq<(nat, string)>, lookup: Lookup, ps: seq<R.Pattern>): seq<Eg.RedactedSend> {
    seq(|jobs|, k requires 0 <= k < |jobs| => RequestFor(jobs[k].1, lookup, ps))
  }

  function AuditRow(model: string, sent: seq<Eg.RedactedSend>): Eg.EgressRow {
    Eg.AuditRow(model, sent).(purpose := ENRICH_PURPOSE)
  }

  lemma BatchAuditRowIs(model: string, sent: seq<Eg.RedactedSend>)
    ensures AuditRow(model, sent).purpose == "enrich" && AuditRow(model, sent).model == model
    ensures AuditRow(model, sent).sentTargets == Eg.AuditRow(model, sent).sentTargets
    ensures AuditRow(model, sent).redactions == Eg.AuditRow(model, sent).redactions
  {
  }

  function MarkedDone(rows: Rows, ids: seq<nat>): Rows {
    map id | id in rows :: if id in ids then rows[id].(status := Done) else rows[id]
  }

  function MarkedRunning(rows: Rows, ids: seq<nat>, handle: string): Rows {
    map id | id in rows :: if id in ids then rows[id].(status := Running, batchHandle := Some(handle)) else rows[id]
  }

  datatype Submission = Nothing | Raised | Submitted(handle: string)

  /** `submit` is the provider's call: the handle, or None where it raises. */
  method SubmitEnrichBatch(t: JobTable, log: Eg.EgressLog, jobs: seq<(nat, string)>, lookup: Lookup,
                           ps: seq<R.Pattern>, model: string, submit: seq<Eg.RedactedSend> -> Option<string>)
    returns (out: Submission)
    modifies t`rows, log
    ensures var go, skipped := Side(jobs, lookup, false), MarkedDone(old(t.rows), Ids(Side(jobs, lookup, true)));
            var sent := Requests(go, lookup, ps);
            if go == [] || submit(sent).None?
            then out == (if go == [] then Nothing else Raised) && t.rows == skipped && log.rows == old(log.rows)
            else out == Submitted(submit(sent).value)
                 && t.rows == MarkedRunning(skipped, Ids(go), submit(sent).value)
                 && log.rows == old(log.rows) + [AuditRow(model, sent)]
  {
    var skip, go, requests := GateAll(jobs, lookup, ps);
    MarkDone(t, skip);
    if requests == [] {
      return Nothing;
    }
    var handle := submit(requests);
    if handle.None? {
      return Raised;
    }
    MarkRunning(t, go, handle.value);
    var _ := log.LogEgress(AuditRow(model, requests));
    return Submitted(handle.value);
  }

  method GateAll(jobs: seq<(nat, string)>, lookup: Lookup, ps: seq<R.Pattern>)
    returns (skip: seq<nat>, go: seq<nat>, requests: seq<Eg.RedactedSend>)
    ensures skip == Ids(Side(jobs, lookup, true)) && go == Ids(Side(jobs, lookup, false))
    ensures requests == Requests(Side(jobs, lookup, false), lookup, ps)
  {
    requests, skip, go := [], [], [];
    for i := 0 to |jobs|
      invariant skip == Ids(Side(jobs[..i], lookup, true))
      invariant go == Ids(Side(jobs[..i], lookup, false))
      invariant requests == Requests(Side(jobs[..i], lookup, false), lookup, ps)
    {
      assert jobs[..i + 1][..i] == jobs[..i];
      var (id, v) := jobs[i];
      var target := lookup(v);
      if target.None? || !target.value.live || target.value.noEgress {
        skip := skip + [id];
        continue;
      }
      var text, count := R.RedactCounting(target.value.body, ps);
      requests, go := requests + [Eg.RedactedSend(v, text, count)], go + [id];
    }
    assert jobs[..|jobs|] == jobs;
  }

  method MarkDone(t: JobTable, ids: seq<nat>)
    modifies t`rows
    ensures t.rows == MarkedDone(old(t.rows), ids)
  {
    for k := 0 to |ids|
      invariant t.rows == MarkedDone(old(t.rows), ids[..k])
    {
      if ids[k] in t.rows {
        t.rows := t.rows[ids[k] := t.rows[ids[k]].(status := Done)];
      }
      assert ids[..k + 1] == ids[..k] + [ids[k]];
    }
    assert ids[..|ids|] == ids;
  }

  method MarkRunning(t: JobTable, ids: seq<nat>, handle: string)
    modifies t`rows
    ensures t.rows == MarkedRunning(old(t.rows), ids, handle)
  {
    for k := 0 to |ids|
      invariant t.rows == MarkedRunning(old(t.rows), ids[..k], handle)
    {
      if ids[k] in t.rows {
        t.rows := t.rows[ids[k] := t.rows[ids[k]].(status := Running, batchHandle := Some(handle))];
      }
      assert ids[..k + 1] == ids[..k] + [ids[k]];
    }
    assert ids[..|ids|] == ids;
  }

  lemma {:induction false} SideHolds(jobs: seq<(nat, string)>, lookup: Lookup, gated: bool, job: (nat, string))
    ensures job in Side(jobs, lookup, gated) <==> job in jobs && Gated(lookup(job.1)) == gated
  {
    if jobs != [] {
      SideHolds(jobs[..|jobs| - 1], lookup, gated, job);
      assert jobs == jobs[..|jobs| - 1] + [jobs[|jobs| - 1]];
    }
  }

  lemma IdsHold(jobs: seq<(nat, string)>, id: nat)
    ensures id in Ids(jobs) <==> exists v :: (id, v) in jobs
  {
    if id in Ids(jobs) {
      var k :| 0 <= k < |jobs| && Ids(jobs)[k] == id;
      assert (id, jobs[k].1) in jobs;
    }
    if v :| (id, v) in jobs {
      var k :| 0 <= k < |jobs| && jobs[k] == (id, v);
      assert Ids(jobs)[k] == id;
    }
  }

  /** Submitting leaves each given job done where its target is gated and running under the new
      handle where it is not, and no other job changed. */
  lemma SubmittingConserves(rows: Rows, jobs: seq<(nat, string)>, lookup: Lookup, handle: string, id: nat, v: string)
    requires forall a, b :: a in jobs && b in jobs && a.0 == b.0 ==> a == b
    requires id in rows && ((exists w :: (id, w) in jobs) ==> (id, v) in jobs)
    ensures var skip, go := Ids(Side(jobs, lookup, true)), Ids(Side(jobs, lookup, false));
            MarkedRunning(MarkedDone(rows, skip), go, handle)[id]
            == if (id, v) !in jobs then rows[id]
               else if Gated(lookup(v)) then rows[id].(status := Done)
               else rows[id].(status := Running, batchHandle := Some(handle))
  {
    IdsHold(Side(jobs, lookup, true), id);
    IdsHold(Side(jobs, lookup, false), id);
    SideHolds(jobs, lookup, true, (id, v));
    SideHolds(jobs, lookup, false, (id, v));
    forall w | (id, w) in jobs ensures w == v { assert (id, w) == (id, v); }
    forall w, g | (id, w) in Side(jobs, lookup, g) ensures (id, w) in jobs { SideHolds(jobs, lookup, g, (id, w)); }
  }

  /** Nothing withheld, deleted or unknown is ever in a batch, and no request holds a secret. */
  lemma BatchHoldsNoSecret(jobs: seq<(nat, string)>, lookup: Lookup, ps: seq<R.Pattern>, k: nat, j: nat)
    requires forall p :: p in ps ==> R.Good(p)
    requires var sent := Requests(Side(jobs, lookup, false), lookup, ps); k < |sent| && j < |ps|
    ensures var s := Requests(Side(jobs, lookup, false), lookup, ps)[k];
            && R.Clean(ps[j], s.text) && lookup(s.targetId).Some?
            && lookup(s.targetId).value.live && !lookup(s.targetId).value.noEgress
  {
    var job := Side(jobs, lookup, false)[k];
    SideHolds(jobs, lookup, false, job);
    R.RedactionIsComplete(lookup(job.1).value.body, ps, j);
  }

  /** Every row a batch request is made from is one its owner lets leave: a version that is neither
      deleted nor purged, of a note without the flag, or a real snapshot of an external that neither
      its flag nor a scope rule withholds. */
  lemma BatchHoldsOnlyCleared(st: Store, scoped: (string, string) -> bool, jobs: seq<(nat, string)>,
                              ps: seq<R.Pattern>, k: nat)
    requires k < |Requests(Side(jobs, LookupIn(st, scoped), false), LookupIn(st, scoped), ps)|
    ensures var lookup := LookupIn(st, scoped);
            var s := Requests(Side(jobs, lookup, false), lookup, ps)[k];
            var id := s.targetId;
            || (id in st.versions && st.versions[id].noteId in st.noteFlags
                && !st.versions[id].deleted && !st.versions[id].purged && !st.noteFlags[st.versions[id].noteId]
                && s.text == R.Redacted(st.versions[id].body, ps).0)
            || (id in st.snapshots && st.snapshots[id].externalId in st.externals && !st.snapshots[id].tombstone
                && !st.externals[st.snapshots[id].externalId].noEgress
                && !scoped(st.snapshots[id].externalId, st.externals[st.snapshots[id].externalId].sourceType)
                && s.text == R.Redacted(st.snapshots[id].body, ps).0)
  {
    var lookup := LookupIn(st, scoped);
    SideHolds(jobs, lookup, false, Side(jobs, lookup, false)[k]);
  }

  // ---------------------------------------------------------------- collecting

  /** One result of an ended batch: a payload of the right shape, one that does not parse, or none. */
  datatype Outcome = Parsed(enrichment: E.EnrichmentResult) | Unparsable(error: string) | NotSucceeded(error: string)

  datatype Result = Result(customId: string, outcome: Outcome)

  /** The jobs in flight under a handle. */
  predicate InFlight(j: Job, handle: string) {
    j.kind.Enrich? && j.status.Running? && j.batchHandle == Some(handle)
  }

  /** Each version in flight with a job of its own; two jobs for one version leave either. */
  ghost predicate IsJobMap(m: map<string, nat>, rows: Rows, handle: string) {
    && (forall v :: v in m ==> m[v] in rows && InFlight(rows[m[v]], handle) && rows[m[v]].target == v)
    && (forall id :: id in rows && InFlight(rows[id], handle) ==> rows[id].target in m)
  }

  method JobMap(rows: Rows, handle: string) returns (m: map<string, nat>)
    ensures IsJobMap(m, rows, handle)
  {
    m := map[];
    var left := rows.Keys;
    while left != {}
      invariant left <= rows.Keys
      invariant forall v :: v in m ==> m[v] in rows && InFlight(rows[m[v]], handle) && rows[m[v]].target == v
      invariant forall id :: id in rows && id !in left && InFlight(rows[id], handle) ==> rows[id].target in m
      decreases left
    {
      var id :| id in left;
      left := left - {id};
      if InFlight(rows[id], handle) {
        m := m[rows[id].target := id];
      }
    }
  }

  /** The row a failed result leaves, the claim read back from the row itself. */
  function MarkedFailed(j: Job, error: string, s: RetryPolicy, now: Stamp): Job {
    if j.status.Running? then FailedRow(j, j.attempts, error, s, now) else j
  }

  /** What one result does to its job; `known` says whether the version still resolves. */
  function AfterResult(j: Job, o: Outcome, known: bool, ver: string, s: RetryPolicy, now: Stamp): Job {
    match o
    case Parsed(_) => if known then j.(status := Done, promptVer := Some(ver)) else j.(status := Done)
    case Unparsable(e) => MarkedFailed(j, e, s, now)
    case NotSucceeded(e) => MarkedFailed(j, e, s, now)
  }

  /** What a collection reads besides the rows: the store, the prompt version, the retry knobs, the
      clock's reading at each result, and what it stamps on annotations. */
  datatype Run = Run(lookup: Lookup, ver: string, policy: RetryPolicy, clock: nat -> Stamp, said: E.Detail)

  function Collected(rows: Rows, m: map<string, nat>, results: seq<Result>, c: Run): Rows {
    if results == [] then rows
    else
      var k, r := |results| - 1, results[|results| - 1];
      var before := Collected(rows, m, results[..k], c);
      if r.customId in m && m[r.customId] in before
      then before[m[r.customId] := AfterResult(before[m[r.customId]], r.outcome, c.lookup(r.customId).Some?,
                                               c.ver, c.policy, c.clock(k))]
      else before
  }

  predicate Writes(m: map<string, nat>, r: Result, c: Run) {
    r.customId in m && r.outcome.Parsed? && c.lookup(r.customId).Some?
  }

  function Annotated(ann: seq<E.Row>, m: map<string, nat>, results: seq<Result>, c: Run): seq<E.Row> {
    if results == [] then ann
    else
      var k, r := |results| - 1, results[|results| - 1];
      var before := Annotated(ann, m, results[..k], c);
      if Writes(m, r, c)
      then E.Written(before, r.customId,
                     E.AnnotationItems(c.lookup(r.customId).value.owner, r.outcome.enrichment, c.said))
      else before
  }

  function Linked(edges: seq<E.Row>, m: map<string, nat>, results: seq<Result>, c: Run): seq<E.Row> {
    if results == [] then edges
    else
      var k, r := |results| - 1, results[|results| - 1];
      var before := Linked(edges, m, results[..k], c);
      if Writes(m, r, c)
      then E.Written(before, r.customId, E.EdgeItems(c.lookup(r.customId).value.owner, r.outcome.enrichment))
      else before
  }

  method MarkJobFailed(t: JobTable, id: nat, error: string, s: RetryPolicy, now: Stamp)
    requires id in t.rows
    modifies t`rows
    ensures t.rows == old(t.rows)[id := MarkedFailed(old(t.rows)[id], error, s, now)]
  {
    var j := t.rows[id];
    var _, _, claimLost := t.RecordJobFailure(id, j.attempts, j.claimedAt, error, s, now);
  }

  /** `results` is None while the batch has not ended. */
  method CollectEnrichBatch(t: JobTable, d: E.DerivedTables, handle: string, results: Option<seq<Result>>, c: Run)
    returns (ended: bool, ghost m: map<string, nat>)
    modifies t`rows, d
    ensures ended == results.Some? && IsJobMap(m, old(t.rows), handle)
    ensures var rs := if ended then results.value else [];
            && t.rows == Collected(old(t.rows), m, rs, c)
            && d.annotations == Annotated(old(d.annotations), m, rs, c)
            && d.edges == Linked(old(d.edges), m, rs, c)
  {
    var jobs := JobMap(t.rows, handle);
    m := jobs;
    if results.None? {
      return false, m;
    }
    var rs := results.value;
    if jobs == map[] {
      NothingInFlight(t.rows, d.annotations, d.edges, rs, c);
      return true, m;
    }
    for k := 0 to |rs|
      invariant t.rows == Collected(old(t.rows), m, rs[..k], c)
      invariant d.annotations == Annotated(old(d.annotations), m, rs[..k], c)
      invariant d.edges == Linked(old(d.edges), m, rs[..k], c)
      invariant t.rows.Keys == old(t.rows).Keys
    {
      assert rs[..k + 1][..k] == rs[..k];
      CollectOne(t, d, jobs, rs[k], c, k);
    }
    assert rs[..|rs|] == rs;
    return true, m;
  }

  /** The loop's body. */
  method CollectOne(t: JobTable, d: E.DerivedTables, jobs: map<string, nat>, r: Result, c: Run, k: nat)
    requires r.customId in jobs ==> jobs[r.customId] in t.rows
    modifies t`rows, d
    ensures t.rows == if r.customId in jobs
                      then old(t.rows)[jobs[r.customId] :=
                             AfterResult(old(t.rows)[jobs[r.customId]], r.outcome, c.lookup(r.customId).Some?,
                                         c.ver, c.policy, c.clock(k))]
                      else old(t.rows)
    ensures if Writes(jobs, r, c)
            then var o := c.lookup(r.customId).value.owner;
                 && d.annotations == E.Written(old(d.annotations), r.customId,
                                               E.AnnotationItems(o, r.outcome.enrichment, c.said))
                 && d.edges == E.Written(old(d.edges), r.customId, E.EdgeItems(o, r.outcome.enrichment))
            else d.annotations == old(d.annotations) && d.edges == old(d.edges)
  {
    if r.customId !in jobs {
      return;
    }
    var id := jobs[r.customId];
    match r.outcome
    case Parsed(enrichment) =>
      var target := c.lookup(r.customId);
      if target.None? {
        t.rows := t.rows[id := t.rows[id].(status := Done)];
        return;
      }
      d.WriteEnrichment(target.value.owner, r.customId, enrichment, c.said);
      t.rows := t.rows[id := t.rows[id].(status := Done, promptVer := Some(c.ver))];
    case Unparsable(e) =>
      MarkJobFailed(t, id, e, c.policy, c.clock(k));
    case NotSucceeded(e) =>
      MarkJobFailed(t, id, e, c.policy, c.clock(k));
  }

  lemma {:induction false} NothingInFlight(rows: Rows, ann: seq<E.Row>, edges: seq<E.Row>, rs: seq<Result>, c: Run)
    ensures Collected(rows, map[], rs, c) == rows
    ensures Annotated(ann, map[], rs, c) == ann && Linked(edges, map[], rs, c) == edges
  {
    if rs != [] { NothingInFlight(rows, ann, edges, rs[..|rs| - 1], c); }
  }

  // ---------------------------------------------------------------- conservation

  /** No result but the `k`-th names this version. */
  predicate NamedOnlyAt(results: seq<Result>, v: string, k: nat) {
    && k < |results| && results[k].customId == v
    && forall i :: 0 <= i < |results| && i != k ==> results[i].customId != v
  }

  /** Up to its result a job's row is as it was; from then on it is what that one result makes of it. */
  lemma {:induction false} RowChangesOnce(rows: Rows, handle: string, m: map<string, nat>, results: seq<Result>, c: Run,
                                          v: string, k: nat, p: nat)
    requires IsJobMap(m, rows, handle) && v in m && NamedOnlyAt(results, v, k) && p <= |results|
    ensures m[v] in Collected(rows, m, results[..p], c)
    ensures Collected(rows, m, results[..p], c)[m[v]]
            == if p <= k then rows[m[v]]
               else AfterResult(rows[m[v]], results[k].outcome, c.lookup(v).Some?, c.ver, c.policy, c.clock(k))
    decreases p
  {
    if p > 0 {
      RowChangesOnce(rows, handle, m, results, c, v, k, p - 1);
      assert results[..p][..p - 1] == results[..p - 1];
      var w := results[p - 1].customId;
      assert w in m && w != v ==> m[w] != m[v];
    }
  }

  /** A job that no result can reach keeps its row. */
  lemma {:induction false} OthersKeepTheirRows(rows: Rows, handle: string, m: map<string, nat>, results: seq<Result>,
                                               c: Run, id: nat)
    requires IsJobMap(m, rows, handle) && id in rows
    requires forall r :: r in results && r.customId in m ==> m[r.customId] != id
    ensures id in Collected(rows, m, results, c) && Collected(rows, m, results, c)[id] == rows[id]
  {
    if results != [] {
      OthersKeepTheirRows(rows, handle, m, results[..|results| - 1], c, id);
      assert results[|results| - 1] in results;
    }
  }

  lemma OneJobPerVersion(m: map<string, nat>, rows: Rows, handle: string, id: nat)
    requires IsJobMap(m, rows, handle) && LiveKeysUnique(rows) && LiveUnstamped(rows)
    requires id in rows && InFlight(rows[id], handle)
    ensures rows[id].target in m && m[rows[id].target] == id
  {
    var other := m[rows[id].target];
    assert rows[other].Key() == rows[id].Key();
  }

  /** Collecting a batch whose results name each version in flight once moves every job in flight
      out of running; an errored or unparsable result adds exactly one attempt, any other none;
      every job not in flight under this handle is left alone. */
  lemma CollectingConserves(rows: Rows, handle: string, m: map<string, nat>, results: seq<Result>, c: Run, id: nat,
                            k: nat)
    requires IsJobMap(m, rows, handle) && LiveKeysUnique(rows) && LiveUnstamped(rows) && id in rows
    requires InFlight(rows[id], handle) ==> NamedOnlyAt(results, rows[id].target, k)
    ensures id in Collected(rows, m, results, c)
    ensures var before, after := rows[id], Collected(rows, m, results, c)[id];
            if InFlight(before, handle)
            then var failed := !results[k].outcome.Parsed?;
                 && after.attempts == before.attempts + (if failed then 1 else 0)
                 && after.status == (if !failed then Done
                                     else if after.attempts >= c.policy.maxAttempts then Dead
                                     else Failed)
                 && (forall p :: 0 <= p <= |results| ==>
                       && id in Collected(rows, m, results[..p], c)
                       && Collected(rows, m, results[..p], c)[id] == if p <= k then before else after)
            else after == before
  {
    if InFlight(rows[id], handle) {
      OneJobPerVersion(m, rows, handle, id);
      assert results[..|results|] == results;
      forall p | 0 <= p <= |results|
        ensures id in Collected(rows, m, results[..p], c)
        ensures Collected(rows, m, results[..p], c)[id]
                == if p <= k then rows[id]
                   else AfterResult(rows[id], results[k].outcome, c.lookup(rows[id].target).Some?, c.ver, c.policy,
                                    c.clock(k))
      {
        RowChangesOnce(rows, handle, m, results, c, rows[id].target, k, p);
      }
    } else {
      OthersKeepTheirRows(rows, handle, m, results, c, id);
    }
  }

  lemma {:induction false} DecisionsOutliveCollecting(ann: seq<E.Row>, m: map<string, nat>, results: seq<Result>,
                                                      c: Run, item: E.Item)
    ensures E.Suppressed(Annotated(ann, m, results, c), item) <==> E.Suppressed(ann, item)
  {
    if results != [] {
      var r, before := results[|results| - 1], Annotated(ann, m, results[..|results| - 1], c);
      DecisionsOutliveCollecting(ann, m, results[..|results| - 1], c, item);
      if Writes(m, r, c) {
        E.WrittenSuppresses(before, r.customId,
                            E.AnnotationItems(c.lookup(r.customId).value.owner, r.outcome.enrichment, c.said), item);
      }
    }
  }

  /** The annotations a collection leaves for a version are exactly what its one result suggests and
      the user has not decided about, in whatever order the results come. */
  lemma {:induction false} CollectedAnnotationsAreExact(ann: seq<E.Row>, m: map<string, nat>, results: seq<Result>,
                                                        c: Run, v: string, k: nat, row: E.Row)
    requires NamedOnlyAt(results, v, k) && E.IsAiOf(row, v)
    ensures E.Count(Annotated(ann, m, results, c), row)
            == if Writes(m, results[k], c)
               then E.CountFresh(ann, v,
                                 E.AnnotationItems(c.lookup(v).value.owner, results[k].outcome.enrichment, c.said),
                                 row)
               else E.Count(ann, row)
  {
    var n, r := |results| - 1, results[|results| - 1];
    var init := results[..n];
    var before := Annotated(ann, m, init, c);
    if Writes(m, r, c) {
      var items := E.AnnotationItems(c.lookup(r.customId).value.owner, r.outcome.enrichment, c.said);
      E.WriteIsExact(before, r.customId, items, row);
      forall item ensures E.Suppressed(before, item) <==> E.Suppressed(ann, item) {
        DecisionsOutliveCollecting(ann, m, init, c, item);
      }
      E.FreshDependsOnDecisions(before, ann, r.customId, items, row);
    }
    if k < n {
      CollectedAnnotationsAreExact(ann, m, init, c, v, k, row);
    } else {
      NotNamedNotTouched(ann, m, init, c, v, row);
    }
  }

  lemma {:induction false} NotNamedNotTouched(ann: seq<E.Row>, m: map<string, nat>, results: seq<Result>, c: Run,
                                              v: string, row: E.Row)
    requires (forall r :: r in results ==> r.customId != v) && E.IsAiOf(row, v)
    ensures E.Count(Annotated(ann, m, results, c), row) == E.Count(ann, row)
  {
    if results != [] {
      var r := results[|results| - 1];
      NotNamedNotTouched(ann, m, results[..|results| - 1], c, v, row);
      assert r in results;
      if Writes(m, r, c) {
        E.WriteIsExact(Annotated(ann, m, results[..|results| - 1], c), r.customId,
                       E.AnnotationItems(c.lookup(r.customId).value.owner, r.outcome.enrichment, c.said), row);
      }
    }
  }
}
