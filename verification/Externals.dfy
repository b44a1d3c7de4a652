/** Snapshot ingest: the write path of mirrored content, statement by statement. */
module Externals {
  import opened Text
  import opened JobQueue
  import opened Hashing

  datatype SnapshotStatus = Ok | Tombstone

  datatype Snapshot = Snapshot(externalId: string, body: string, rawPayload: Option<string>,
                               status: SnapshotStatus, fetchedAt: Stamp)

  datatype External = External(sourceType: string, noEgress: bool, head: Option<ContentId>)

  datatype Store = Store(externals: map<string, External>, snapshots: map<ContentId, Snapshot>, jobs: Rows,
                         nextJob: nat)

  /** One call of `ingest_snapshot`. */
  datatype Request = Request(externalId: string, sourceType: string, body: string, rawPayload: Option<string>,
                             status: SnapshotStatus, skipIfHeadAtOrAfter: Option<Stamp>, noEgressDefault: bool)
  {
    function Id(): ContentId {
      SnapshotId(externalId, body)
    }
  }

  datatype Outcome = Skipped | Ingested(id: ContentId, status: SnapshotStatus, deduped: bool)

  /** The three columns of the head read. */
  datatype HeadRow = HeadRow(id: ContentId, status: SnapshotStatus, fetchedAt: Stamp)

  // ---------------------------------------------------------------- the statements

  /** INSERT INTO externals ... ON CONFLICT DO NOTHING, seeding no_egress. */
  function Upsert(st: Store, r: Request): Store {
    if r.externalId in st.externals then st
    else st.(externals := st.externals[r.externalId := External(r.sourceType, r.noEgressDefault, None)])
  }

  /** The external's head joined to its snapshot row. */
  function HeadOf(st: Store, e: string): Option<HeadRow> {
    if e in st.externals && st.externals[e].head.Some? && st.externals[e].head.value in st.snapshots then
      var id := st.externals[e].head.value;
      Some(HeadRow(id, st.snapshots[id].status, st.snapshots[id].fetchedAt))
    else None
  }

  predicate GuardFires(r: Request, h: Option<HeadRow>) {
    && h.Some? && r.skipIfHeadAtOrAfter.Some?
    && h.value.status != Tombstone && h.value.fetchedAt >= r.skipIfHeadAtOrAfter.value
  }

  predicate IsDedup(r: Request, h: Option<HeadRow>) {
    h.Some? && h.value.id == r.Id()
  }

  function BumpFetched(st: Store, id: ContentId, now: Stamp): Store {
    if id in st.snapshots then st.(snapshots := st.snapshots[id := st.snapshots[id].(fetchedAt := now)]) else st
  }

  /** INSERT INTO snapshots ... ON CONFLICT DO NOTHING: an older row of the same content stays as it was. */
  function InsertSnapshot(st: Store, r: Request, now: Stamp): Store {
    if r.Id() in st.snapshots then st
    else st.(snapshots := st.snapshots[r.Id() := Snapshot(r.externalId, r.body, r.rawPayload, r.status, now)])
  }

  function MoveHead(st: Store, e: string, id: ContentId): Store {
    if e in st.externals then st.(externals := st.externals[e := st.externals[e].(head := Some(id))]) else st
  }

  /** A job's target names a content id; the fields are joined here where the source spells a digest. */
  function TargetOf(id: ContentId): string {
    Join(id.Fields(), "\0")
  }

  function EnqueueEmbed(st: Store, id: ContentId, now: Stamp): Store {
    var (jobs, next) := InsertAll(st.jobs, st.nextJob, [Embed], TargetOf(id), now);
    st.(jobs := jobs, nextJob := next)
  }

  /** What the statements after the head read do, given what it returned. */
  function AfterRead(st: Store, r: Request, h: Option<HeadRow>, now: Stamp, later: Stamp): (Store, Outcome) {
    if GuardFires(r, h) then (st, Skipped)
    else if IsDedup(r, h) then
      (if r.status.Tombstone? then st else BumpFetched(st, r.Id(), now), Ingested(r.Id(), r.status, true))
    else
      var moved := MoveHead(InsertSnapshot(st, r, now), r.externalId, r.Id());
      (if r.status.Tombstone? then moved else EnqueueEmbed(moved, r.Id(), later), Ingested(r.Id(), r.status, false))
  }

  /** The whole transaction, atomically: `now` and `later` are its clock readings. */
  function Ingest(st: Store, r: Request, now: Stamp, later: Stamp): (Store, Outcome) {
    var up := Upsert(st, r);
    AfterRead(up, r, HeadOf(up, r.externalId), now, later)
  }

  class ExternalTables {
    var store: Store

    method IngestSnapshot(r: Request, now: Stamp, later: Stamp) returns (out: Outcome)
      modifies this
      ensures (store, out) == Ingest(old(store), r, now, later)
    {
      store := Upsert(store, r);
      var h := HeadOf(store, r.externalId);
      if h.Some? && r.skipIfHeadAtOrAfter.Some? && h.value.status != Tombstone
         && h.value.fetchedAt >= r.skipIfHeadAtOrAfter.value {
        return Skipped;
      }
      var id := r.Id();
      if h.Some? && id == h.value.id {
        if r.status != Tombstone {
          store := BumpFetched(store, id, now);
        }
        return Ingested(id, r.status, true);
      }
      store := InsertSnapshot(store, r, now);
      store := MoveHead(store, r.externalId, id);
      if r.status != Tombstone {
        store := EnqueueEmbed(store, id, later);
      }
      return Ingested(id, r.status, false);
    }
  }

  // ---------------------------------------------------------------- refinement to a map

  /** What a reader should see: the last body accepted for each external, and all accepted ever. */
  datatype Mirror = Mirror(last: map<string, string>, accepted: set<(string, string)>)

  function Accept(m: Mirror, r: Request, out: Outcome): Mirror {
    if out.Ingested? then Mirror(m.last[r.externalId := r.body], m.accepted + {(r.externalId, r.body)}) else m
  }

  predicate Stored(st: Store, e: string, b: string) {
    SnapshotId(e, b) in st.snapshots
  }

  /** Every row is filed under the id of its own content. */
  ghost predicate RowsOwnTheirIds(st: Store) {
    forall id :: id in st.snapshots ==> id == SnapshotId(st.snapshots[id].externalId, st.snapshots[id].body)
  }

  function HeadId(st: Store, e: string): Option<ContentId> {
    if e in st.externals then st.externals[e].head else None
  }

  /** Every head points at a stored row of its own external. */
  ghost predicate HeadsAreOwnRows(st: Store) {
    forall e :: HeadId(st, e).Some? ==>
      HeadId(st, e).value in st.snapshots && st.snapshots[HeadId(st, e).value].externalId == e
  }

  /** The stored rows are exactly the accepted bodies, and each head is the last of its own external. */
  ghost predicate Mirrors(st: Store, m: Mirror) {
    && RowsOwnTheirIds(st) && HeadsAreOwnRows(st)
    && (forall e, b :: (e, b) in m.accepted <==> Stored(st, e, b))
    && (forall e :: e in m.last <==> HeadId(st, e).Some?)
    && (forall e :: e in m.last ==> HeadId(st, e) == Some(SnapshotId(e, m.last[e])))
  }

  /** The columns of a snapshot that are never rewritten. */
  predicate SameContent(a: Snapshot, b: Snapshot) {
    a.externalId == b.externalId && a.body == b.body && a.rawPayload == b.rawPayload && a.status == b.status
  }

  ghost predicate RowsKept(st: Store, st': Store) {
    forall id :: id in st.snapshots ==> id in st'.snapshots && SameContent(st.snapshots[id], st'.snapshots[id])
  }

  lemma AfterReadEffect(up: Store, r: Request, now: Stamp, later: Stamp)
    requires HeadsAreOwnRows(up) && r.externalId in up.externals
    ensures var (st', out) := AfterRead(up, r, HeadOf(up, r.externalId), now, later);
            && RowsKept(up, st')
            && (forall e :: e != r.externalId ==> HeadId(st', e) == HeadId(up, e))
            && (out.Skipped? ==> st' == up)
            && (out.Ingested? ==>
                  && st'.snapshots.Keys == up.snapshots.Keys + {r.Id()}
                  && HeadId(st', r.externalId) == Some(r.Id()))
            && (out.Ingested? && r.Id() !in up.snapshots ==>
                  st'.snapshots[r.Id()] == Snapshot(r.externalId, r.body, r.rawPayload, r.status, now))
  {
    var h := HeadOf(up, r.externalId);
    assert h.Some? ==> h.value.id in up.snapshots;
  }

  /** What one ingest does to rows and heads: it files at most one row, under its own id, moves
      only its own head, and never touches a stored row but for the time it was fetched. */
  lemma IngestEffect(st: Store, r: Request, now: Stamp, later: Stamp)
    requires HeadsAreOwnRows(st)
    ensures var (st', out) := Ingest(st, r, now, later);
            && RowsKept(st, st')
            && (forall e :: e != r.externalId ==> HeadId(st', e) == HeadId(st, e))
            && (out.Skipped? ==> st' == st)
            && (out.Ingested? ==>
                  && st'.snapshots.Keys == st.snapshots.Keys + {r.Id()}
                  && HeadId(st', r.externalId) == Some(r.Id()))
            && (out.Ingested? && r.Id() !in st.snapshots ==>
                  st'.snapshots[r.Id()] == Snapshot(r.externalId, r.body, r.rawPayload, r.status, now))
  {
    var up := Upsert(st, r);
    assert up.snapshots == st.snapshots && forall e :: HeadId(up, e) == HeadId(st, e);
    AfterReadEffect(up, r, now, later);
  }

  lemma FilingKeepsIds(st: Store, st': Store, r: Request)
    requires RowsOwnTheirIds(st) && RowsKept(st, st') && st'.snapshots.Keys == st.snapshots.Keys + {r.Id()}
    requires r.Id() !in st.snapshots ==>
               st'.snapshots[r.Id()].externalId == r.externalId && st'.snapshots[r.Id()].body == r.body
    ensures RowsOwnTheirIds(st') && st'.snapshots[r.Id()].externalId == r.externalId
  {
  }

  lemma FilingIsMirrored(st: Store, st': Store, m: Mirror, r: Request)
    requires Mirrors(st, m) && RowsOwnTheirIds(st') && RowsKept(st, st')
    requires st'.snapshots.Keys == st.snapshots.Keys + {r.Id()}
    requires st'.snapshots[r.Id()].externalId == r.externalId
    requires HeadId(st', r.externalId) == Some(r.Id())
    requires forall e :: e != r.externalId ==> HeadId(st', e) == HeadId(st, e)
    ensures Mirrors(st', Mirror(m.last[r.externalId := r.body], m.accepted + {(r.externalId, r.body)}))
  {
  }

  /** One ingest is one step of the map. */
  lemma IngestRefinesMirror(st: Store, m: Mirror, r: Request, now: Stamp, later: Stamp)
    requires Mirrors(st, m)
    ensures var (st', out) := Ingest(st, r, now, later); Mirrors(st', Accept(m, r, out))
  {
    IngestEffect(st, r, now, later);
    var (st', out) := Ingest(st, r, now, later);
    if out.Ingested? {
      FilingKeepsIds(st, st', r);
      FilingIsMirrored(st, st', m, r);
    }
  }

  /** One call with its two clock readings. */
  datatype Call = Call(r: Request, now: Stamp, later: Stamp)

  const EMPTY_STORE := Store(map[], map[], map[], 0)
  const EMPTY_MIRROR := Mirror(map[], {})

  function Step(st: Store, c: Call): (Store, Outcome) {
    Ingest(st, c.r, c.now, c.later)
  }

  function Run(st: Store, calls: seq<Call>): Store {
    if calls == [] then st else Step(Run(st, calls[..|calls| - 1]), calls[|calls| - 1]).0
  }

  function MirrorOf(st: Store, m: Mirror, calls: seq<Call>): Mirror {
    if calls == [] then m
    else
      var init, c := calls[..|calls| - 1], calls[|calls| - 1];
      Accept(MirrorOf(st, m, init), c.r, Step(Run(st, init), c).1)
  }

  /** Over any run the store is the map of last bodies, with one row per distinct body ever accepted. */
  lemma {:induction false} RunRefinesMirror(calls: seq<Call>)
    ensures Mirrors(Run(EMPTY_STORE, calls), MirrorOf(EMPTY_STORE, EMPTY_MIRROR, calls))
  {
    if calls != [] {
      var init, c := calls[..|calls| - 1], calls[|calls| - 1];
      RunRefinesMirror(init);
      IngestRefinesMirror(Run(EMPTY_STORE, init), MirrorOf(EMPTY_STORE, EMPTY_MIRROR, init), c.r, c.now, c.later);
    }
  }

  // ---------------------------------------------------------------- an external's own columns

  /** The flag and the type of an external. */
  predicate HasColumns(st: Store, e: string, sourceType: string, noEgress: bool) {
    e in st.externals && st.externals[e].sourceType == sourceType && st.externals[e].noEgress == noEgress
  }

  /** An ingest gives a new external the type it names and the default flag, leaves the type and flag of
      every other external as they are, those of its own if it is not new, and adds no other. */
  lemma IngestKeepsColumns(st: Store, r: Request, now: Stamp, later: Stamp)
    ensures var st' := Ingest(st, r, now, later).0;
            && st'.externals.Keys == st.externals.Keys + {r.externalId}
            && (r.externalId !in st.externals ==> HasColumns(st', r.externalId, r.sourceType, r.noEgressDefault))
            && forall e :: e in st.externals ==>
                 HasColumns(st', e, st.externals[e].sourceType, st.externals[e].noEgress)
  {
    var up := Upsert(st, r);
    AfterReadKeepsColumns(up, r, HeadOf(up, r.externalId), now, later);
  }

  lemma AfterReadKeepsColumns(up: Store, r: Request, h: Option<HeadRow>, now: Stamp, later: Stamp)
    requires r.externalId in up.externals
    ensures var st' := AfterRead(up, r, h, now, later).0;
            && st'.externals.Keys == up.externals.Keys
            && forall e :: e in up.externals ==>
                 HasColumns(st', e, up.externals[e].sourceType, up.externals[e].noEgress)
  {
  }

  /** Over any run an external keeps the type and the flag that its first call gave it. */
  lemma {:induction false} ColumnsAreOfTheFirstCall(calls: seq<Call>, k: nat)
    requires k < |calls| && forall j :: 0 <= j < k ==> calls[j].r.externalId != calls[k].r.externalId
    ensures var r := calls[k].r;
            HasColumns(Run(EMPTY_STORE, calls), r.externalId, r.sourceType, r.noEgressDefault)
  {
    var n, r := |calls| - 1, calls[k].r;
    var init, c := calls[..n], calls[n];
    IngestKeepsColumns(Run(EMPTY_STORE, init), c.r, c.now, c.later);
    if k < n {
      ColumnsAreOfTheFirstCall(init, k);
    } else {
      ExternalsAreCalled(init, r.externalId);
    }
  }

  /** An external is in the store exactly when some call of the run named it. */
  lemma {:induction false} ExternalsAreCalled(calls: seq<Call>, e: string)
    ensures e in Run(EMPTY_STORE, calls).externals <==> exists j :: 0 <= j < |calls| && calls[j].r.externalId == e
  {
    if calls != [] {
      var n := |calls| - 1;
      var init, c := calls[..n], calls[n];
      ExternalsAreCalled(init, e);
      IngestKeepsColumns(Run(EMPTY_STORE, init), c.r, c.now, c.later);
      if j :| 0 <= j < |init| && init[j].r.externalId == e { assert calls[j].r.externalId == e; }
      if j :| 0 <= j < |calls| && calls[j].r.externalId == e { assert j < n ==> init[j].r.externalId == e; }
    }
  }

  /** Remark: going back to an older body adds no row and leaves the old row as it was: its first status,
      and its old time of fetching. */
  lemma RevertKeepsTheOldRow(st: Store, r: Request, now: Stamp, later: Stamp)
    requires RowsOwnTheirIds(st) && HeadsAreOwnRows(st)
    requires r.Id() in st.snapshots && HeadId(st, r.externalId) != Some(r.Id())
    requires !GuardFires(r, HeadOf(st, r.externalId))
    ensures var st' := Ingest(st, r, now, later).0;
            st'.snapshots == st.snapshots && HeadId(st', r.externalId) == Some(r.Id())
  {
    assert HeadOf(Upsert(st, r), r.externalId) == HeadOf(st, r.externalId);
  }

  /** An embed job is enqueued for exactly the accepted, non-deduplicated ok ingests. */
  lemma EmbedEnqueuedExactly(st: Store, r: Request, now: Stamp, later: Stamp)
    ensures var (st', out) := Ingest(st, r, now, later);
            if out.Ingested? && !out.deduped && r.status.Ok? then
              && (st'.jobs, st'.nextJob) == InsertAll(st.jobs, st.nextJob, [Embed], TargetOf(r.Id()), later)
              && HasLive(st'.jobs, NewJob(Embed, TargetOf(r.Id()), later).Key())
            else st'.jobs == st.jobs && st'.nextJob == st.nextJob
  {
    var job := NewJob(Embed, TargetOf(r.Id()), later);
    assert [Embed][..0] == [];
    assert InsertAll(st.jobs, st.nextJob, [Embed], TargetOf(r.Id()), later)
           == Insert(st.jobs, st.nextJob, Embed, TargetOf(r.Id()), later);
    assert job.Live() && st.jobs[st.nextJob := job][st.nextJob] == job;
  }

  // ---------------------------------------------------------------- tombstones

  const TOMBSTONE_OPEN := "[tombstone: "

  function TombstoneBody(reason: string): string {
    TOMBSTONE_OPEN + reason + "]"
  }

  /** `re.match(r"^\[tombstone: (.+)\]$", body)`: `$` also stands before one final newline. */
  function ParseTombstoneReason(body: string): string {
    var e := if body != "" && body[|body| - 1] == '\n' then |body| - 1 else |body|;
    if e > |TOMBSTONE_OPEN| + 1 && TOMBSTONE_OPEN <= body && body[e - 1] == ']'
       && '\n' !in body[|TOMBSTONE_OPEN|..e - 1]
    then body[|TOMBSTONE_OPEN|..e - 1]
    else "other"
  }

  /** The reader undoes the writer for exactly the reasons on one non-empty line. */
  lemma ReasonRoundTrip(reason: string)
    ensures ParseTombstoneReason(TombstoneBody(reason)) == reason <==> reason != "" && '\n' !in reason
  {
    var body := TombstoneBody(reason);
    assert body[|body| - 1] == ']';
    assert body[|TOMBSTONE_OPEN|..|body| - 1] == reason;
    assert reason == "other" ==> '\n' !in reason;
  }

  /** The text of a tombstone, and what is read of a body that is not one. */
  lemma TombstoneTextIs(reason: string, body: string)
    ensures TombstoneBody(reason) == "[tombstone: " + reason + "]"
    ensures !("[tombstone: " <= body) ==> ParseTombstoneReason(body) == "other"
    ensures HasTombstoneForm(body) <==> "[tombstone: " <= body && |body| > 12 && body[|body| - 1] == ']'
  {
  }

  predicate HasTombstoneForm(body: string) {
    TOMBSTONE_OPEN <= body && |body| > |TOMBSTONE_OPEN| && body[|body| - 1] == ']'
  }

  /** Callers write tombstones through `tombstone_body`, and no fetched text has that form. */
  predicate Disciplined(r: Request) {
    r.status.Tombstone? <==> HasTombstoneForm(r.body)
  }

  ghost predicate StatusTellsForm(st: Store) {
    forall id :: id in st.snapshots ==>
      (st.snapshots[id].status.Tombstone? <==> HasTombstoneForm(st.snapshots[id].body))
  }

  lemma DisciplineKeepsForm(st: Store, r: Request, now: Stamp, later: Stamp)
    requires StatusTellsForm(st) && HeadsAreOwnRows(st) && Disciplined(r)
    ensures StatusTellsForm(Ingest(st, r, now, later).0)
  {
    IngestEffect(st, r, now, later);
  }

  /** After an accepted ingest the head shows the status asked for, unless an older row of the
      same content was filed under the other status. */
  lemma HeadStatusIsFirstStatus(st: Store, r: Request, now: Stamp, later: Stamp)
    requires RowsOwnTheirIds(st) && HeadsAreOwnRows(st) && Ingest(st, r, now, later).1.Ingested?
    ensures var h := HeadOf(Ingest(st, r, now, later).0, r.externalId);
            && h.Some? && h.value.id == r.Id()
            && (h.value.status == r.status <==> r.Id() !in st.snapshots || st.snapshots[r.Id()].status == r.status)
  {
    IngestEffect(st, r, now, later);
  }

  // ---------------------------------------------------------------- late success

  /** The head of `e` is a real fetch from `g` or later. */
  predicate FreshHead(st: Store, e: string, g: Stamp) {
    var h := HeadOf(st, e);
    h.Some? && h.value.status.Ok? && h.value.fetchedAt >= g
  }

  /** An accepted call that leaves its external with a fresh head: a real fetch, of the current body
      or a new one at `g` or later, or of an older body whose row is from `g` or later. */
  predicate MakesFresh(st: Store, c: Call, g: Stamp) {
    var id := c.r.Id();
    && c.r.status.Ok?
    && if HeadId(st, c.r.externalId) == Some(id) || id !in st.snapshots then c.now >= g
       else st.snapshots[id].fetchedAt >= g
  }

  /** A call that has no effect on `e`: for another external, or skipped. */
  predicate PassesBy(st: Store, c: Call, e: string) {
    c.r.externalId != e || Step(st, c).1.Skipped?
  }

  ghost predicate Sound(st: Store) {
    RowsOwnTheirIds(st) && HeadsAreOwnRows(st) && StatusTellsForm(st)
  }

  lemma StepKeepsSound(st: Store, c: Call)
    requires Sound(st) && Disciplined(c.r)
    ensures Sound(Step(st, c).0)
  {
    IngestEffect(st, c.r, c.now, c.later);
    DisciplineKeepsForm(st, c.r, c.now, c.later);
  }

  lemma AcceptedIsFreshIff(st: Store, c: Call, g: Stamp)
    requires Sound(st) && Disciplined(c.r) && Step(st, c).1.Ingested?
    ensures FreshHead(Step(st, c).0, c.r.externalId, g) <==> MakesFresh(st, c, g)
  {
    IngestEffect(st, c.r, c.now, c.later);
    HeadStatusIsFirstStatus(st, c.r, c.now, c.later);
    AcceptedHeadTime(st, c);
  }

  /** When the head row of an accepted call was fetched. */
  lemma AcceptedHeadTime(st: Store, c: Call)
    requires Sound(st) && Step(st, c).1.Ingested?
    ensures var h := HeadOf(Step(st, c).0, c.r.externalId);
            && h.Some?
            && h.value.fetchedAt
               == if c.r.Id() !in st.snapshots || (HeadId(st, c.r.externalId) == Some(c.r.Id()) && c.r.status.Ok?)
                  then c.now else st.snapshots[c.r.Id()].fetchedAt
  {
    IngestEffect(st, c.r, c.now, c.later);
  }

  lemma PassingByKeepsHead(st: Store, c: Call, e: string, g: Stamp)
    requires Sound(st) && PassesBy(st, c, e)
    ensures FreshHead(Step(st, c).0, e, g) <==> FreshHead(st, e, g)
  {
    IngestEffect(st, c.r, c.now, c.later);
    if c.r.externalId != e && HeadId(st, e).Some? {
      assert HeadId(st, e).value != c.r.Id();
      OtherRowsAreUntouched(st, c, HeadId(st, e).value);
      assert HeadOf(Step(st, c).0, e) == HeadOf(st, e);
    }
  }

  /** Exactly when one call leaves a fresh head: it makes one, or it passes by a fresh one. */
  lemma FreshAfterIff(st: Store, c: Call, e: string, g: Stamp)
    requires Sound(st) && Disciplined(c.r)
    ensures FreshHead(Step(st, c).0, e, g) <==> if PassesBy(st, c, e) then FreshHead(st, e, g) else MakesFresh(st, c, g)
  {
    if PassesBy(st, c, e) {
      PassingByKeepsHead(st, c, e, g);
    } else {
      AcceptedIsFreshIff(st, c, g);
    }
  }

  lemma OtherRowsAreUntouched(st: Store, c: Call, id: ContentId)
    requires id in st.snapshots && id != c.r.Id()
    ensures id in Step(st, c).0.snapshots && Step(st, c).0.snapshots[id] == st.snapshots[id]
  {
  }

  /** The last call of a run that has an effect on `e` makes its head fresh; where none has, the head
      was fresh to begin with. */
  predicate EndsFresh(st: Store, calls: seq<Call>, e: string, g: Stamp) {
    if calls == [] then FreshHead(st, e, g)
    else
      var init, last := calls[..|calls| - 1], calls[|calls| - 1];
      if PassesBy(Run(st, init), last, e) then EndsFresh(st, init, e, g) else MakesFresh(Run(st, init), last, g)
  }

  lemma {:induction false} RunIsFreshIff(st: Store, calls: seq<Call>, e: string, g: Stamp)
    requires Sound(st) && forall c :: c in calls ==> Disciplined(c.r)
    ensures Sound(Run(st, calls)) && (FreshHead(Run(st, calls), e, g) <==> EndsFresh(st, calls, e, g))
  {
    if calls != [] {
      var init, last := calls[..|calls| - 1], calls[|calls| - 1];
      RunIsFreshIff(st, init, e, g);
      StepKeepsSound(Run(st, init), last);
      FreshAfterIff(Run(st, init), last, e, g);
    }
  }

  /** Exactly when a late success is kept. After any run of ingests a tombstone guarded by `g` changes
      nothing if and only if the last ingest that had an effect on its external was a real fetch of
      the current body or a new one at `g` or later, or of an older body whose row is from `g` or
      later; where no ingest had one, if the head was such a fetch before. */
  lemma TombstoneIsSkippedIffLastIngestIsFresh(st: Store, calls: seq<Call>, tombstone: Call, g: Stamp)
    requires Sound(st) && forall c :: c in calls ==> Disciplined(c.r)
    requires tombstone.r.skipIfHeadAtOrAfter == Some(g)
    ensures var late := Run(st, calls);
            Step(late, tombstone) == (late, Skipped) <==> EndsFresh(st, calls, tombstone.r.externalId, g)
  {
    RunIsFreshIff(st, calls, tombstone.r.externalId, g);
    GuardFiresIffFresh(Run(st, calls), tombstone, g);
  }

  /** Every call of a run passes `e` by or makes its head fresh. */
  predicate AllKeepFresh(st: Store, calls: seq<Call>, e: string, g: Stamp) {
    forall k :: 0 <= k < |calls| ==>
      PassesBy(Run(st, calls[..k]), calls[k], e) || MakesFresh(Run(st, calls[..k]), calls[k], g)
  }

  lemma {:induction false} KeepingFreshEndsFresh(st: Store, calls: seq<Call>, e: string, g: Stamp)
    requires FreshHead(st, e, g) && AllKeepFresh(st, calls, e, g)
    ensures EndsFresh(st, calls, e, g)
  {
    if calls != [] {
      var init := calls[..|calls| - 1];
      assert forall k :: 0 <= k < |init| ==> init[..k] == calls[..k];
      KeepingFreshEndsFresh(st, init, e, g);
    }
  }

  /** Late success is kept. Once an ok ingest has made a head fresh, a tombstone guarded by `g` changes
      nothing, however many calls come between, as long as each passes the external by or makes its
      head fresh again. */
  lemma LateSuccessIsKept(st: Store, success: Call, between: seq<Call>, tombstone: Call, g: Stamp)
    requires Sound(st) && Disciplined(success.r) && Step(st, success).1.Ingested? && MakesFresh(st, success, g)
    requires forall c :: c in between ==> Disciplined(c.r)
    requires AllKeepFresh(Step(st, success).0, between, success.r.externalId, g)
    requires tombstone.r.externalId == success.r.externalId && tombstone.r.skipIfHeadAtOrAfter == Some(g)
    ensures var late := Run(Step(st, success).0, between);
            Step(late, tombstone) == (late, Skipped)
  {
    var start := Step(st, success).0;
    AcceptedIsFreshIff(st, success, g);
    StepKeepsSound(st, success);
    KeepingFreshEndsFresh(start, between, success.r.externalId, g);
    TombstoneIsSkippedIffLastIngestIsFresh(start, between, tombstone, g);
  }

  /** The guard fires exactly when the head is a fresh real fetch. */
  lemma GuardFiresIffFresh(st: Store, c: Call, g: Stamp)
    requires c.r.skipIfHeadAtOrAfter == Some(g)
    ensures Step(st, c) == (st, Skipped) <==> FreshHead(st, c.r.externalId, g)
  {
  }

  /** Exactly which reverts defeat the guard: an ok ingest of a body that is neither current nor new
      leaves a tombstone guarded by `g` to land if and only if the body's row is from before `g`,
      however late the ingest is. */
  lemma RevertDefeatsTheGuardIffOld(st: Store, revert: Call, tombstone: Call, g: Stamp)
    requires Sound(st) && Disciplined(revert.r) && revert.r.status.Ok? && Step(st, revert).1.Ingested?
    requires revert.r.Id() in st.snapshots && HeadId(st, revert.r.externalId) != Some(revert.r.Id())
    requires tombstone.r.externalId == revert.r.externalId && tombstone.r.skipIfHeadAtOrAfter == Some(g)
    ensures Step(Step(st, revert).0, tombstone).1.Ingested? <==> st.snapshots[revert.r.Id()].fetchedAt < g
  {
    AcceptedIsFreshIff(st, revert, g);
    GuardFiresIffFresh(Step(st, revert).0, tombstone, g);
  }

  lemma RunOfThree(st: Store, x: Call, y: Call, z: Call)
    ensures Run(st, [x, y, z]) == Step(Step(Step(st, x).0, y).0, z).0
  {
    RunOfOneMore(st, [x, y], z);
    RunOfOneMore(st, [x], y);
    RunOfOneMore(st, [], x);
    assert [x, y] + [z] == [x, y, z] && [x] + [y] == [x, y] && [] + [x] == [x];
  }

  lemma RunOfOneMore(st: Store, calls: seq<Call>, c: Call)
    ensures Run(st, calls + [c]) == Step(Run(st, calls), c).0
  {
    assert (calls + [c])[..|calls|] == calls;
  }

  /** Two successes of different bodies: the second is current, and the first keeps its time. */
  lemma TwoBodies(x: Call, y: Call)
    requires Disciplined(x.r) && Disciplined(y.r) && x.r.status.Ok? && y.r.status.Ok?
    requires x.r.skipIfHeadAtOrAfter.None? && y.r.skipIfHeadAtOrAfter.None?
    requires x.r.externalId == y.r.externalId && x.r.body != y.r.body
    ensures var st := Step(Step(EMPTY_STORE, x).0, y).0;
            && Sound(st) && HeadId(st, y.r.externalId) == Some(y.r.Id())
            && x.r.Id() in st.snapshots && st.snapshots[x.r.Id()].fetchedAt == x.now
  {
    var st := Step(EMPTY_STORE, x).0;
    StepKeepsSound(EMPTY_STORE, x);
    StepKeepsSound(st, y);
    IngestEffect(EMPTY_STORE, x.r, x.now, x.later);
    IngestEffect(st, y.r, y.now, y.later);
    OtherRowsAreUntouched(st, y, x.r.Id());
  }

  /** A body, another, and the first again: a tombstone guarded by a time after the first is not
      skipped, whenever the third came. */
  lemma RevertLetsATombstoneLand(x: Call, y: Call, again: Call, tombstone: Call, g: Stamp)
    requires Disciplined(x.r) && Disciplined(y.r) && x.r.status.Ok? && y.r.status.Ok?
    requires x.r.skipIfHeadAtOrAfter.None? && y.r.skipIfHeadAtOrAfter.None? && again.r == x.r
    requires x.r.externalId == y.r.externalId == tombstone.r.externalId && x.r.body != y.r.body
    requires tombstone.r.skipIfHeadAtOrAfter == Some(g) && x.now < g
    ensures var st := Run(EMPTY_STORE, [x, y, again]);
            HeadId(st, x.r.externalId) == Some(x.r.Id()) && Step(st, tombstone).1.Ingested?
  {
    RunOfThree(EMPTY_STORE, x, y, again);
    TwoBodies(x, y);
    var st := Step(Step(EMPTY_STORE, x).0, y).0;
    IngestEffect(st, x.r, again.now, again.later);
    RevertDefeatsTheGuardIffOld(st, again, tombstone, g);
  }

  /** A revert defeats the guard: the external's last success is newer than `g`, and the
      tombstone still lands, because the reverted row kept its old time. */
  lemma RevertDefeatsTheGuard()
    ensures var a := Request("u", "web", "A", None, Ok, None, false);
            var b := a.(body := "B");
            var t := Request("u", "web", TombstoneBody("dead"), None, Tombstone, Some(8), false);
            var st := Run(EMPTY_STORE, [Call(a, 1, 1), Call(b, 5, 5), Call(a, 9, 9)]);
            HeadId(st, "u") == Some(a.Id()) && Step(st, Call(t, 10, 10)).1.Ingested?
  {
    var a := Request("u", "web", "A", None, Ok, None, false);
    var b := a.(body := "B");
    var t := Request("u", "web", TombstoneBody("dead"), None, Tombstone, Some(8), false);
    assert a.body[0] != b.body[0];
    RevertLetsATombstoneLand(Call(a, 1, 1), Call(b, 5, 5), Call(a, 9, 9), Call(t, 10, 10), 8);
  }
}
