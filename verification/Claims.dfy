/** Every interleaving of the queue's writers, over any number of workers acting on stale reads. */
module ClaimProtocol {
  import opened Text
  import opened JobQueue

  /** What a worker read of a row at some time, and may act on at any later time. */
  datatype Read = Read(attempts: nat, claimedAt: Option<Stamp>)

  datatype Outcome = Charged(dead: bool) | Released

  /** One write that ended a claim: `Charged` by a failure, `Released` by any other writer. */
  datatype Ending = Ending(claimedAt: Option<Stamp>, outcome: Outcome)

  /** A row, every read made of it so far, every stamp its claims have used, and its endings in order. */
  datatype Cell = Cell(job: Job, seen: set<Read>, stamps: set<Stamp>, log: seq<Ending>) {
    /** Close the claim in place and write `j` over it. */
    function End(j: Job, outcome: Outcome): Cell {
      this.(job := j, log := log + [Ending(job.claimedAt, outcome)])
    }

    predicate Claimable(now: Stamp) {
      job.status.Pending? && job.nextAttemptAt <= now
    }

    predicate Acts(read: Read) {
      read in seen && InPlace(job, read.claimedAt)
    }
  }

  datatype Write =
    | Claim(now: Stamp)                       // pending -> running, stamping claimed_at
    | ReadRow                                 // SELECT attempts, claimed_at
    | Fail(read: Read, error: string, now: Stamp) // record_job_failure, and the stale reclaim
    | AuthReset(read: Read, error: string)    // run_one's permanent-failure arm
    | ResetRetryable(now: Stamp)              // failed and due -> pending
    | Succeed(promptVer: Option<string>)      // status = 'done' WHERE id = ?
    | Attach(handle: string)                  // submit: status = 'running', batch_handle = ? WHERE id = ?
    | RevertBatch(to: Status, next: Stamp)    // submit failed: WHERE id = ? AND status = 'running'
    | BudgetDead(error: string)               // collect-failure budget spent on a batch handle

  /** One write to one row. A write whose guard fails changes nothing. */
  function Apply(c: Cell, op: Write, s: RetryPolicy): Cell {
    var j := c.job;
    match op
    case Claim(now) =>
      if c.Claimable(now)
      then c.(job := j.(status := Running, claimedAt := Some(now)), stamps := c.stamps + {now})
      else c
    case ReadRow => c.(seen := c.seen + {Read(j.attempts, j.claimedAt)})
    case Fail(read, error, now) =>
      if c.Acts(read) then
        var f := FailedRow(j, read.attempts, error, s, now);
        c.End(f, Charged(f.status.Dead?))
      else c
    case AuthReset(read, error) =>
      if c.Acts(read) then c.End(j.(status := Pending, lastError := Some(error)), Released) else c
    case ResetRetryable(now) =>
      if j.status.Failed? && j.nextAttemptAt <= now then c.(job := j.(status := Pending)) else c
    case Succeed(promptVer) =>
      var d := j.(status := Done, promptVer := if j.kind.Enrich? then promptVer else j.promptVer);
      if j.status.Running? then c.End(d, Released) else c.(job := d)
    case Attach(handle) => c.(job := j.(status := Running, batchHandle := Some(handle)))
    case RevertBatch(to, next) =>
      if j.status.Running? && to.Pending? then c.End(j.(status := Pending), Released)
      else if j.status.Running? && to.Failed? then c.End(j.(status := Failed, nextAttemptAt := next), Released)
      else c
    case BudgetDead(error) =>
      if j.status.Running? && j.batchHandle.Some? then c.End(j.(status := Dead, lastError := Some(error)), Released)
      else c
  }

  /** The one assumption on time: successive claims of a row get different stamps. */
  predicate FreshStamp(c: Cell, op: Write) {
    op.Claim? && c.Claimable(op.now) ==> op.now !in c.stamps
  }

  /** A batch handle is attached only to a row that is still running. */
  predicate AttachesToRunning(c: Cell, op: Write) {
    op.Attach? ==> c.job.status.Running?
  }

  // ---------------------------------------------------------------- the ledger of one row

  predicate Ended(log: seq<Ending>, claimedAt: Option<Stamp>) {
    exists k :: 0 <= k < |log| && log[k].claimedAt == claimedAt
  }

  ghost predicate EndedOnce(log: seq<Ending>) {
    forall i, j :: 0 <= i < j < |log| ==> log[i].claimedAt != log[j].claimedAt
  }

  function ChargedCount(log: seq<Ending>): nat {
    if log == [] then 0
    else ChargedCount(log[..|log| - 1]) + if log[|log| - 1].outcome.Charged? then 1 else 0
  }

  ghost predicate DiedOnce(log: seq<Ending>) {
    forall i, j :: 0 <= i < j < |log| && log[i].outcome == Charged(true) ==> log[j].outcome != Charged(true)
  }

  predicate Died(log: seq<Ending>) {
    exists k :: 0 <= k < |log| && log[k].outcome == Charged(true)
  }

  /** A row agrees with its ledger. */
  ghost predicate CellOk(c: Cell, s: RetryPolicy) {
    var j := c.job;
    && (j.claimedAt.None? ==> j.status.Pending? || j.status.Done?)
    && (j.claimedAt.Some? ==> j.claimedAt.value in c.stamps)
    && (j.claimedAt.Some? ==> (Ended(c.log, j.claimedAt) <==> !j.status.Running?))
    && (forall k :: 0 <= k < |c.log| ==> c.log[k].claimedAt.Some? && c.log[k].claimedAt.value in c.stamps)
    && (forall t :: t in c.stamps ==> Ended(c.log, Some(t)) || InPlace(j, Some(t)))
    && EndedOnce(c.log) && DiedOnce(c.log)
    && j.attempts == ChargedCount(c.log)
    && j.attempts <= s.maxAttempts
    && (j.Live() ==> j.attempts < s.maxAttempts && !Died(c.log))
    && (forall r :: r in c.seen ==> r.claimedAt.Some? ==> r.claimedAt.value in c.stamps)
    && (forall r :: r in c.seen && InPlace(j, r.claimedAt) ==> r.attempts == j.attempts)
  }

  lemma ChargedCountOfEnd(log: seq<Ending>, e: Ending)
    ensures ChargedCount(log + [e]) == ChargedCount(log) + if e.outcome.Charged? then 1 else 0
  {
    assert (log + [e])[..|log|] == log;
  }

  lemma LedgerGrows(log: seq<Ending>, e: Ending)
    requires EndedOnce(log) && DiedOnce(log) && !Ended(log, e.claimedAt) && !(Died(log) && e.outcome == Charged(true))
    ensures EndedOnce(log + [e]) && DiedOnce(log + [e])
    ensures forall t :: Ended(log + [e], t) <==> Ended(log, t) || t == e.claimedAt
    ensures Died(log + [e]) <==> Died(log) || e.outcome == Charged(true)
  {
    var l := log + [e];
    assert l[|log|] == e;
    assert forall k :: 0 <= k < |log| ==> l[k] == log[k];
  }

  /** Ending the claim in place, with the count the ledger asks for, keeps the agreement. */
  lemma EndKeepsOk(c: Cell, j: Job, outcome: Outcome, s: RetryPolicy)
    requires CellOk(c, s) && c.job.status.Running?
    requires j.claimedAt == c.job.claimedAt && !j.status.Running?
    requires j.attempts == c.job.attempts + if outcome.Charged? then 1 else 0
    requires j.attempts <= s.maxAttempts && (j.Live() ==> j.attempts < s.maxAttempts && outcome != Charged(true))
    ensures CellOk(c.End(j, outcome), s)
  {
    var e := Ending(c.job.claimedAt, outcome);
    ChargedCountOfEnd(c.log, e);
    LedgerGrows(c.log, e);
    EndIsStamped(c, j, outcome, s);
    EndedRowIsOk(c, j, c.log + [e], s);
  }

  /** A row that is not running agrees with a ledger in which every claim has ended. */
  lemma EndedRowIsOk(c: Cell, j: Job, log: seq<Ending>, s: RetryPolicy)
    requires j.claimedAt.Some? && j.claimedAt.value in c.stamps && !j.status.Running?
    requires forall k :: 0 <= k < |log| ==> log[k].claimedAt.Some? && log[k].claimedAt.value in c.stamps
    requires Ended(log, j.claimedAt) && forall t :: t in c.stamps ==> Ended(log, Some(t))
    requires EndedOnce(log) && DiedOnce(log) && j.attempts == ChargedCount(log) && j.attempts <= s.maxAttempts
    requires j.Live() ==> j.attempts < s.maxAttempts && !Died(log)
    requires forall r :: r in c.seen ==> r.claimedAt.Some? ==> r.claimedAt.value in c.stamps
    ensures CellOk(c.(job := j, log := log), s)
  {
  }

  lemma EndIsStamped(c: Cell, j: Job, outcome: Outcome, s: RetryPolicy)
    requires CellOk(c, s) && c.job.status.Running? && j.claimedAt == c.job.claimedAt
    ensures var log := c.End(j, outcome).log;
            && (forall k :: 0 <= k < |log| ==> log[k].claimedAt.Some? && log[k].claimedAt.value in c.stamps)
            && (forall t :: t in c.stamps ==> Ended(log, Some(t)))
  {
    var e := Ending(c.job.claimedAt, outcome);
    LedgerGrows(c.log, e);
  }

  lemma ClaimKeepsOk(c: Cell, now: Stamp, s: RetryPolicy)
    requires CellOk(c, s) && FreshStamp(c, Claim(now))
    ensures CellOk(Apply(c, Claim(now), s), s)
  {
  }

  lemma ReadKeepsOk(c: Cell, s: RetryPolicy)
    requires CellOk(c, s)
    ensures CellOk(Apply(c, ReadRow, s), s)
  {
  }

  /** A write to a row that is not running, which does not set it running or bring it back to life. */
  lemma QuietKeepsOk(c: Cell, j: Job, s: RetryPolicy)
    requires CellOk(c, s) && !c.job.status.Running? && !j.status.Running?
    requires j.claimedAt == c.job.claimedAt && j.attempts == c.job.attempts
    requires if j.status.Done? then true else j.Live() && c.job.Live() && j.claimedAt.Some?
    ensures CellOk(c.(job := j), s)
  {
  }

  /** Every write of every worker keeps the agreement. */
  lemma ApplyKeepsOk(c: Cell, op: Write, s: RetryPolicy)
    requires CellOk(c, s) && ValidPolicy(s) && FreshStamp(c, op) && AttachesToRunning(c, op)
    ensures CellOk(Apply(c, op, s), s)
  {
    var c' := Apply(c, op, s);
    if op.Claim? {
      ClaimKeepsOk(c, op.now, s);
    } else if op.ReadRow? {
      ReadKeepsOk(c, s);
    } else if |c'.log| > |c.log| {
      var outcome := c'.log[|c.log|].outcome;
      assert c' == c.End(c'.job, outcome);
      EndKeepsOk(c, c'.job, outcome, s);
    } else if c' != c && !op.Attach? {
      QuietKeepsOk(c, c'.job, s);
    }
  }

  /** Attaching a handle keeps the agreement of a row exactly when the row is running. */
  lemma AttachOkIffRunning(c: Cell, handle: string, s: RetryPolicy)
    requires CellOk(c, s)
    ensures CellOk(Apply(c, Attach(handle), s), s) <==> c.job.status.Running?
  {
  }

  /** Claiming a row keeps its agreement exactly when no earlier claim of it had the same stamp. */
  lemma ClaimOkIffFresh(c: Cell, now: Stamp, s: RetryPolicy)
    requires CellOk(c, s)
    ensures CellOk(Apply(c, Claim(now), s), s) <==> FreshStamp(c, Claim(now))
  {
    if FreshStamp(c, Claim(now)) {
      ClaimKeepsOk(c, now, s);
    } else {
      assert Ended(c.log, Some(now));
    }
  }

  /** A worker whose claim has been ended writes nothing, whatever state the row has cycled to. */
  lemma EndedClaimCannotWrite(c: Cell, read: Read, error: string, now: Stamp, s: RetryPolicy)
    requires CellOk(c, s) && Ended(c.log, read.claimedAt)
    ensures Apply(c, Fail(read, error, now), s) == c && Apply(c, AuthReset(read, error), s) == c
  {
  }

  /** A new job can be claimed from the moment it was enqueued on, and a failed one, once reset, from the
      moment it is due. */
  lemma JobsAreClaimableWhenDue(kind: Kind, target: string, at: Stamp, c: Cell, s: RetryPolicy, now: Stamp, due: Stamp)
    requires c.job.status.Failed? && c.job.nextAttemptAt == due
    ensures Cell(NewJob(kind, target, at), {}, {}, []).Claimable(now) <==> at <= now
    ensures var reset := Apply(c, ResetRetryable(now), s);
            if due <= now then reset.job.status.Pending? && reset.Claimable(now) else reset == c && !c.Claimable(now)
  {
  }

  /** Remark: a dead row is left alone by exactly the writes other than the two that test nothing. */
  lemma DeadIsTerminalButForUnguardedWrites(c: Cell, op: Write, s: RetryPolicy)
    requires c.job.status.Dead?
    ensures Apply(c, op, s).job == c.job <==> !op.Succeed? && !op.Attach?
  {
  }

  /** `record_job_failure` is the `Fail` write: same row, and its caller sees a dead-letter
      that is not claim-lost exactly when the ledger gains a death. */
  lemma FailMatchesRecordJobFailure(rows: Rows, id: nat, c: Cell, read: Read, error: string, now: Stamp, s: RetryPolicy)
    requires id in rows && rows[id] == c.job && read in c.seen
    ensures var c' := Apply(c, Fail(read, error, now), s);
            var held := HoldsClaim(rows, id, read.claimedAt);
            && c'.job == (if held then FailedRow(rows[id], read.attempts, error, s, now) else rows[id])
            && (held <==> |c'.log| == |c.log| + 1)
            && (held ==> c'.log[..|c.log|] == c.log
                         && c'.log[|c.log|] == Ending(read.claimedAt, Charged(read.attempts + 1 >= s.maxAttempts)))
  {
  }

  // ---------------------------------------------------------------- the whole queue

  datatype World = World(cells: map<nat, Cell>, nextId: nat)

  datatype Step = Enqueue(kind: Kind, target: string, now: Stamp) | On(id: nat, op: Write)

  const EMPTY_WORLD := World(map[], 0)

  function RowsOf(w: World): Rows {
    map id | id in w.cells :: w.cells[id].job
  }

  function Do(w: World, step: Step, s: RetryPolicy): World {
    match step
    case Enqueue(kind, target, now) =>
      if Insert(RowsOf(w), w.nextId, kind, target, now).1 == w.nextId then w
      else World(w.cells[w.nextId := Cell(NewJob(kind, target, now), {}, {}, [])], w.nextId + 1)
    case On(id, op) =>
      if id in w.cells then w.(cells := w.cells[id := Apply(w.cells[id], op, s)]) else w
  }

  predicate GoodStep(w: World, step: Step) {
    step.On? && step.id in w.cells ==>
      FreshStamp(w.cells[step.id], step.op) && AttachesToRunning(w.cells[step.id], step.op)
  }

  /** The state after a run. */
  function Run(w: World, steps: seq<Step>, s: RetryPolicy): World
    decreases |steps|
  {
    if steps == [] then w else Run(Do(w, steps[0], s), steps[1..], s)
  }

  predicate GoodRun(w: World, steps: seq<Step>, s: RetryPolicy)
    decreases |steps|
  {
    steps == [] || (GoodStep(w, steps[0]) && GoodRun(Do(w, steps[0], s), steps[1..], s))
  }

  ghost predicate Inv(w: World, s: RetryPolicy) {
    && (forall id :: id in w.cells ==> id < w.nextId && CellOk(w.cells[id], s))
    && LiveKeysUnique(RowsOf(w)) && LiveUnstamped(RowsOf(w))
  }

  /** A row that is live after a write to it was live before, under the same key and prompt version. */
  lemma ApplyKeepsKey(c: Cell, op: Write, s: RetryPolicy)
    requires AttachesToRunning(c, op)
    ensures var j := Apply(c, op, s).job;
            j.Live() ==> c.job.Live() && j.Key() == c.job.Key() && j.promptVer == c.job.promptVer
  {
  }

  lemma UpdateKeepsLive(rows: Rows, id: nat, j: Job)
    requires LiveKeysUnique(rows) && LiveUnstamped(rows) && id in rows
    requires j.Live() ==> rows[id].Live() && j.Key() == rows[id].Key() && j.promptVer == rows[id].promptVer
    ensures LiveKeysUnique(rows[id := j]) && LiveUnstamped(rows[id := j])
  {
  }

  lemma RowsOfUpdate(w: World, id: nat, c: Cell, next: nat)
    ensures RowsOf(World(w.cells[id := c], next)) == RowsOf(w)[id := c.job]
  {
  }

  lemma NewCellIsOk(kind: Kind, target: string, now: Stamp, s: RetryPolicy)
    requires ValidPolicy(s)
    ensures CellOk(Cell(NewJob(kind, target, now), {}, {}, []), s)
  {
  }

  lemma EnqueueKeepsInv(w: World, kind: Kind, target: string, now: Stamp, s: RetryPolicy)
    requires Inv(w, s) && ValidPolicy(s)
    ensures Inv(Do(w, Enqueue(kind, target, now), s), s)
  {
    var rows := RowsOf(w);
    if !HasLive(rows, NewJob(kind, target, now).Key()) {
      InsertKeeps(rows, w.nextId, kind, target, now);
      RowsOfUpdate(w, w.nextId, Cell(NewJob(kind, target, now), {}, {}, []), w.nextId + 1);
      NewCellIsOk(kind, target, now, s);
    }
  }

  /** Every step keeps the invariant of every row, and what holds of live rows. */
  lemma DoKeepsInv(w: World, step: Step, s: RetryPolicy)
    requires Inv(w, s) && ValidPolicy(s) && GoodStep(w, step)
    ensures Inv(Do(w, step, s), s)
  {
    if step.Enqueue? {
      EnqueueKeepsInv(w, step.kind, step.target, step.now, s);
    } else if step.id in w.cells {
      var c, c' := w.cells[step.id], Apply(w.cells[step.id], step.op, s);
      ApplyKeepsOk(c, step.op, s);
      ApplyKeepsKey(c, step.op, s);
      UpdateKeepsLive(RowsOf(w), step.id, c'.job);
      RowsOfUpdate(w, step.id, c', w.nextId);
    }
  }

  /** The two conditions on a step are exact: a step keeps the invariant if and only if it meets them. */
  lemma DoKeepsInvIffGood(w: World, step: Step, s: RetryPolicy)
    requires Inv(w, s) && ValidPolicy(s)
    ensures Inv(Do(w, step, s), s) <==> GoodStep(w, step)
  {
    if GoodStep(w, step) {
      DoKeepsInv(w, step, s);
    } else {
      var c := w.cells[step.id];
      if step.op.Claim? { ClaimOkIffFresh(c, step.op.now, s); } else { AttachOkIffRunning(c, step.op.handle, s); }
      assert Do(w, step, s).cells[step.id] == Apply(c, step.op, s);
    }
  }

  lemma {:induction false} RunKeepsInv(w: World, steps: seq<Step>, s: RetryPolicy)
    requires Inv(w, s) && ValidPolicy(s) && GoodRun(w, steps, s)
    ensures Inv(Run(w, steps, s), s)
    decreases |steps|
  {
    if steps != [] {
      DoKeepsInv(w, steps[0], s);
      RunKeepsInv(Do(w, steps[0], s), steps[1..], s);
    }
  }

  /** From an empty queue, over any interleaving: each claim is ended by at most one write, the
      attempts of a row count its claims that ended in failure and never pass the limit, a job is
      seen dead-lettered at most once, and live rows have distinct keys and no prompt version. */
  lemma QueuePromises(steps: seq<Step>, s: RetryPolicy)
    requires ValidPolicy(s) && GoodRun(EMPTY_WORLD, steps, s)
    ensures var w := Run(EMPTY_WORLD, steps, s);
            && LiveKeysUnique(RowsOf(w)) && LiveUnstamped(RowsOf(w))
            && forall id :: id in w.cells ==>
                 var c := w.cells[id];
                 && EndedOnce(c.log)
                 && c.job.attempts == ChargedCount(c.log) <= s.maxAttempts
                 && DiedOnce(c.log)
                 && (Died(c.log) ==> c.job.status.Dead? || c.job.status.Done?)
  {
    RunKeepsInv(EMPTY_WORLD, steps, s);
  }

  // ---------------------------------------------------------------- what the assumptions are for

  const ONE_TRY := RetryPolicy(1, 1000, 60000)

  function FreshCell(): Cell {
    Cell(NewJob(Enrich, "v1", 0), {}, {}, [])
  }

  /** Without fresh stamps a stale worker ends a claim that is not its own. */
  lemma RepeatedStampEndsAClaimTwice()
    ensures var r := Read(0, Some(7));
            var c := Apply(Apply(Apply(FreshCell(), Claim(7), ONE_TRY), ReadRow, ONE_TRY), AuthReset(r, "key"),
                           ONE_TRY);
            var again := Apply(c, Claim(7), ONE_TRY);
            && CellOk(c, ONE_TRY) && c.Claimable(7) && !FreshStamp(c, Claim(7))
            && !EndedOnce(Apply(again, Fail(r, "late", 9), ONE_TRY).log)
  {
    var r := Read(0, Some(7));
    var c := Apply(Apply(Apply(FreshCell(), Claim(7), ONE_TRY), ReadRow, ONE_TRY), AuthReset(r, "key"), ONE_TRY);
    assert c.log == [Ending(Some(7), Released)];
    assert ChargedCount(c.log[..0]) == 0;
    var again := Apply(c, Claim(7), ONE_TRY);
    assert again.Acts(r);
    var last := Apply(again, Fail(r, "late", 9), ONE_TRY);
    assert last.log[0].claimedAt == last.log[1].claimedAt;
  }

  function DeadCell(): Cell {
    Apply(Apply(Apply(FreshCell(), Claim(7), ONE_TRY), ReadRow, ONE_TRY), Fail(Read(0, Some(7)), "stale", 9), ONE_TRY)
  }

  lemma DyingKeepsOk(c: Cell)
    requires c.log == [] && c.job.status.Running? && c.job.claimedAt == Some(7) && c.job.attempts == 0
    requires c.stamps == {7} && c.seen == {Read(0, Some(7))}
    ensures CellOk(c, ONE_TRY)
    ensures CellOk(c.End(FailedRow(c.job, 0, "stale", ONE_TRY, 9), Charged(true)), ONE_TRY)
  {
    assert !Ended(c.log, Some(7));
    EndKeepsOk(c, FailedRow(c.job, 0, "stale", ONE_TRY, 9), Charged(true), ONE_TRY);
  }

  lemma DeadCellIsDead()
    ensures DeadCell().job.status.Dead? && DeadCell().job.attempts == 1 && DeadCell().job.claimedAt == Some(7)
    ensures DeadCell().log == [Ending(Some(7), Charged(true))] && CellOk(DeadCell(), ONE_TRY)
  {
    var c := Apply(Apply(FreshCell(), Claim(7), ONE_TRY), ReadRow, ONE_TRY);
    assert c.Acts(Read(0, Some(7))) && c.log == [];
    assert DeadCell() == c.End(FailedRow(c.job, 0, "stale", ONE_TRY, 9), Charged(true));
    ChargedCountOfEnd([], Ending(Some(7), Charged(true)));
    DyingKeepsOk(c);
  }

  /** A submission that outlives its claim brings a dead job back, past the attempt limit. */
  lemma UnguardedAttachRevivesTheDead()
    ensures var back := Apply(Apply(DeadCell(), Attach("batch"), ONE_TRY), ReadRow, ONE_TRY);
            var end := Apply(back, Fail(Read(1, Some(7)), "errored", 11), ONE_TRY);
            && DeadCell().job.status.Dead? && CellOk(DeadCell(), ONE_TRY)
            && end.job.attempts > ONE_TRY.maxAttempts && !EndedOnce(end.log) && !DiedOnce(end.log)
  {
    DeadCellIsDead();
    var back := Apply(Apply(DeadCell(), Attach("batch"), ONE_TRY), ReadRow, ONE_TRY);
    assert back.Acts(Read(1, Some(7)));
    var end := Apply(back, Fail(Read(1, Some(7)), "errored", 11), ONE_TRY);
    assert end.log[0] == end.log[1];
  }
}
