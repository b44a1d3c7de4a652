/** A job across several batches: what a handle's results do to it when they are collected again. */
module BatchRuns {
  import opened Text
  import opened JobQueue
  import opened ClaimProtocol
  import B = Batch

  /** A write to the job's row, or a collection of a handle whose results name the job's version. */
  datatype Event = Work(op: Write)
                 | Collection(handle: string, outcome: B.Outcome, known: bool, ver: string, now: Stamp)

  /** The failure that a result reports. */
  function ErrorOf(o: B.Outcome): string
    requires !o.Parsed?
  {
    match o
    case Unparsable(e) => e
    case NotSucceeded(e) => e
  }

  /** A collection finds the job in flight or leaves it alone. A good result is a success; a bad one
      reads the row's own claim and fails it. */
  function Collect(c: Cell, e: Event, s: RetryPolicy): Cell
    requires e.Collection?
  {
    if !B.InFlight(c.job, e.handle) then c
    else if e.outcome.Parsed? then Apply(c, Succeed(if e.known then Some(e.ver) else c.job.promptVer), s)
    else Apply(Apply(c, ReadRow, s), Fail(Read(c.job.attempts, c.job.claimedAt), ErrorOf(e.outcome), e.now), s)
  }

  function After(c: Cell, e: Event, s: RetryPolicy): Cell {
    match e
    case Work(op) => Apply(c, op, s)
    case Collection(_, _, _, _, _) => Collect(c, e, s)
  }

  function AfterAll(c: Cell, es: seq<Event>, s: RetryPolicy): Cell {
    if es == [] then c else After(AfterAll(c, es[..|es| - 1], s), es[|es| - 1], s)
  }

  predicate GoodEvent(c: Cell, e: Event) {
    e.Work? ==> FreshStamp(c, e.op) && AttachesToRunning(c, e.op)
  }

  ghost predicate GoodEvents(c: Cell, es: seq<Event>, s: RetryPolicy) {
    forall k :: 0 <= k < |es| ==> GoodEvent(AfterAll(c, es[..k], s), es[k])
  }

  predicate IsAttach(e: Event) {
    e.Work? && e.op.Attach?
  }

  /** No event gives the job a handle. */
  predicate NoAttach(es: seq<Event>) {
    forall k :: 0 <= k < |es| ==> !IsAttach(es[k])
  }

  /** No event gives the job this handle: a provider's handles are new each time. */
  predicate NeverAttaches(es: seq<Event>, handle: string) {
    forall k :: 0 <= k < |es| ==> es[k] != Work(Attach(handle))
  }

  /** Event `i` claims the job. */
  predicate Claims(c: Cell, es: seq<Event>, i: nat, s: RetryPolicy)
    requires i < |es|
  {
    es[i].Work? && es[i].op.Claim? && AfterAll(c, es[..i], s).Claimable(es[i].op.now)
  }

  // ---------------------------------------------------------------- one collection

  /** What a collection makes of the rows is, row by row, what it makes of each job. */
  lemma CollectionIsCollect(rows: Rows, handle: string, m: map<string, nat>, results: seq<B.Result>, run: B.Run,
                            id: nat, k: nat, c: Cell)
    requires B.IsJobMap(m, rows, handle) && LiveKeysUnique(rows) && LiveUnstamped(rows) && id in rows
    requires k < |results| && (B.InFlight(rows[id], handle) ==> B.NamedOnlyAt(results, rows[id].target, k))
    requires c.job == rows[id]
    ensures var known := run.lookup(rows[id].target).Some?;
            var e := Collection(handle, results[k].outcome, known, run.ver, run.clock(k));
            && id in B.Collected(rows, m, results, run)
            && B.Collected(rows, m, results, run)[id] == Collect(c, e, run.policy).job
  {
    if B.InFlight(rows[id], handle) {
      B.OneJobPerVersion(m, rows, handle, id);
      B.RowChangesOnce(rows, handle, m, results, run, rows[id].target, k, |results|);
      assert results[..|results|] == results;
    } else {
      B.OthersKeepTheirRows(rows, handle, m, results, run, id);
    }
  }

  /** A collection that finds the job in flight ends its claim: a bad result charges one attempt, a good
      one none. Any other collection changes nothing. */
  lemma CollectCharges(c: Cell, e: Event, s: RetryPolicy)
    requires CellOk(c, s) && ValidPolicy(s) && e.Collection?
    ensures var c' := Collect(c, e, s);
            && CellOk(c', s)
            && if !B.InFlight(c.job, e.handle) then c' == c
               else && !c'.job.status.Running? && |c'.log| == |c.log| + 1 && c'.log[..|c.log|] == c.log
                    && c'.job.batchHandle == c.job.batchHandle && c'.stamps == c.stamps
                    && c'.job.attempts == c.job.attempts + (if e.outcome.Parsed? then 0 else 1)
                    && (c'.job.status.Done? <==> e.outcome.Parsed?)
  {
    if B.InFlight(c.job, e.handle) {
      if e.outcome.Parsed? {
        ApplyKeepsOk(c, Succeed(if e.known then Some(e.ver) else c.job.promptVer), s);
      } else {
        var read := Apply(c, ReadRow, s);
        ApplyKeepsOk(c, ReadRow, s);
        ApplyKeepsOk(read, Fail(Read(c.job.attempts, c.job.claimedAt), ErrorOf(e.outcome), e.now), s);
      }
    }
  }

  // ---------------------------------------------------------------- any run

  lemma OneMore(c: Cell, es: seq<Event>, e: Event, s: RetryPolicy)
    ensures AfterAll(c, es + [e], s) == After(AfterAll(c, es, s), e, s)
  {
    assert (es + [e])[..|es|] == es;
  }

  lemma GoodPrefix(c: Cell, es: seq<Event>, n: nat, s: RetryPolicy)
    requires GoodEvents(c, es, s) && n <= |es|
    ensures GoodEvents(c, es[..n], s)
  {
    forall k | 0 <= k < n ensures GoodEvent(AfterAll(c, es[..n][..k], s), es[..n][k]) {
      assert es[..n][..k] == es[..k];
    }
  }

  lemma AfterKeepsOk(c: Cell, e: Event, s: RetryPolicy)
    requires CellOk(c, s) && ValidPolicy(s) && GoodEvent(c, e)
    ensures CellOk(After(c, e, s), s)
  {
    if e.Work? { ApplyKeepsOk(c, e.op, s); } else { CollectCharges(c, e, s); }
  }

  lemma {:induction false} AfterAllKeepsOk(c: Cell, es: seq<Event>, s: RetryPolicy)
    requires CellOk(c, s) && ValidPolicy(s) && GoodEvents(c, es, s)
    ensures CellOk(AfterAll(c, es, s), s)
  {
    if es != [] {
      var n := |es| - 1;
      GoodPrefix(c, es, n, s);
      AfterAllKeepsOk(c, es[..n], s);
      AfterKeepsOk(AfterAll(c, es[..n], s), es[n], s);
    }
  }

  /** What one event leaves: stamps come from claims, handles from attaching, and no ending is lost. */
  lemma AfterFacts(c: Cell, e: Event, s: RetryPolicy)
    ensures var c' := After(c, e, s);
            && c'.stamps
               == (if e.Work? && e.op.Claim? && c.Claimable(e.op.now) then c.stamps + {e.op.now} else c.stamps)
            && c'.job.batchHandle == (if e.Work? && e.op.Attach? then Some(e.op.handle) else c.job.batchHandle)
            && c'.job.kind == c.job.kind
            && c.log <= c'.log
  {
  }

  lemma EndedStays(a: seq<Ending>, b: seq<Ending>, claimedAt: Option<Stamp>)
    requires a <= b && Ended(a, claimedAt)
    ensures Ended(b, claimedAt)
  {
    var k :| 0 <= k < |a| && a[k].claimedAt == claimedAt;
    assert b[k] == a[k];
  }

  /** A claim of the run whose stamp is `t`. */
  ghost predicate ClaimedAt(c: Cell, es: seq<Event>, t: Stamp, s: RetryPolicy) {
    exists i :: 0 <= i < |es| && Claims(c, es, i, s) && es[i].op.now == t
  }

  lemma ClaimedAtOneMore(c: Cell, es: seq<Event>, e: Event, t: Stamp, s: RetryPolicy)
    ensures ClaimedAt(c, es + [e], t, s)
            <==> ClaimedAt(c, es, t, s) || (e == Work(Claim(t)) && AfterAll(c, es, s).Claimable(t))
  {
    var all := es + [e];
    assert all[..|es|] == es;
    assert forall i :: 0 <= i < |es| ==> all[..i] == es[..i] && all[i] == es[i];
    if ClaimedAt(c, es, t, s) {
      var i :| 0 <= i < |es| && Claims(c, es, i, s) && es[i].op.now == t;
      assert Claims(c, all, i, s);
    }
    if e == Work(Claim(t)) && AfterAll(c, es, s).Claimable(t) {
      assert Claims(c, all, |es|, s);
    }
    if ClaimedAt(c, all, t, s) {
      var i :| 0 <= i < |all| && Claims(c, all, i, s) && all[i].op.now == t;
      if i < |es| { assert Claims(c, es, i, s); }
    }
  }

  /** The stamps of a row after a run are those it had and those of the run's claims. */
  lemma {:induction false} StampsComeFromClaims(c: Cell, es: seq<Event>, t: Stamp, s: RetryPolicy)
    ensures t in AfterAll(c, es, s).stamps <==> t in c.stamps || ClaimedAt(c, es, t, s)
    ensures c.log <= AfterAll(c, es, s).log
  {
    if es != [] {
      var init, e := es[..|es| - 1], es[|es| - 1];
      assert es == init + [e];
      StampsComeFromClaims(c, init, t, s);
      AfterFacts(AfterAll(c, init, s), e, s);
      ClaimedAtOneMore(c, init, e, t, s);
    }
  }

  lemma AttachOneMore(es: seq<Event>, e: Event, h: string)
    ensures NoAttach(es + [e]) <==> NoAttach(es) && !IsAttach(e)
    ensures NeverAttaches(es + [e], h) <==> NeverAttaches(es, h) && e != Work(Attach(h))
  {
    var all := es + [e];
    assert all[|es|] == e && forall k :: 0 <= k < |es| ==> all[k] == es[k];
  }

  lemma {:induction false} HandleComesFromAttaching(c: Cell, es: seq<Event>, h: string, s: RetryPolicy)
    requires c.job.batchHandle == Some(h) && NeverAttaches(es, h)
    ensures AfterAll(c, es, s).job.kind == c.job.kind
    ensures AfterAll(c, es, s).job.batchHandle == Some(h) <==> NoAttach(es)
  {
    if es != [] {
      var init, e := es[..|es| - 1], es[|es| - 1];
      assert es == init + [e];
      AttachOneMore(init, e, h);
      HandleComesFromAttaching(c, init, h, s);
      AfterFacts(AfterAll(c, init, s), e, s);
    }
  }

  /** A row that was not running is running after a run exactly when a claim of the run has not ended. */
  lemma RunningIffClaimOpen(c: Cell, es: seq<Event>, s: RetryPolicy)
    requires CellOk(c, s) && ValidPolicy(s) && GoodEvents(c, es, s) && !c.job.status.Running?
    ensures AfterAll(c, es, s).job.status.Running?
            <==> exists t :: ClaimedAt(c, es, t, s) && !Ended(AfterAll(c, es, s).log, Some(t))
  {
    var c' := AfterAll(c, es, s);
    AfterAllKeepsOk(c, es, s);
    if c'.job.status.Running? {
      var t := c'.job.claimedAt.value;
      StampsComeFromClaims(c, es, t, s);
      if t in c.stamps { EndedStays(c.log, c'.log, Some(t)); }
      assert ClaimedAt(c, es, t, s);
    }
    if t :| ClaimedAt(c, es, t, s) && !Ended(c'.log, Some(t)) {
      StampsComeFromClaims(c, es, t, s);
    }
  }

  // ---------------------------------------------------------------- a handle collected again

  /** The job has been claimed again, the claim has not ended, and no new handle has been attached. */
  ghost predicate ReclaimedUnderOldHandle(c: Cell, es: seq<Event>, s: RetryPolicy) {
    && NoAttach(es)
    && exists t :: ClaimedAt(c, es, t, s) && !Ended(AfterAll(c, es, s).log, Some(t))
  }

  /** Exactly when a handle that has been collected takes the job again. */
  lemma TakenAgainIffReclaimed(c: Cell, es: seq<Event>, h: string, s: RetryPolicy)
    requires CellOk(c, s) && ValidPolicy(s) && GoodEvents(c, es, s)
    requires c.job.kind.Enrich? && !c.job.status.Running? && c.job.batchHandle == Some(h)
    requires NeverAttaches(es, h)
    ensures B.InFlight(AfterAll(c, es, s).job, h) <==> ReclaimedUnderOldHandle(c, es, s)
  {
    HandleComesFromAttaching(c, es, h, s);
    RunningIffClaimOpen(c, es, s);
  }

  /** Event `k` is a collection of the handle that finds the job in flight. */
  predicate Takes(c: Cell, es: seq<Event>, k: nat, h: string, s: RetryPolicy)
    requires k < |es|
  {
    es[k].Collection? && es[k].handle == h && B.InFlight(AfterAll(c, es[..k], s).job, h)
  }

  /** Results are used once. After a collection has taken a job, a later collection of its handle takes
      it again, in any run among any other writes and other batches, if and only if it comes while the
      job is claimed again and has not been given its new handle. */
  lemma ResultsAreUsedAgainIff(c: Cell, first: Event, taken: Cell, es: seq<Event>, k: nat, s: RetryPolicy)
    requires CellOk(c, s) && ValidPolicy(s) && first.Collection? && B.InFlight(c.job, first.handle)
    requires taken == Collect(c, first, s) && GoodEvents(taken, es, s)
    requires k < |es| && es[k].Collection? && es[k].handle == first.handle
    requires NeverAttaches(es, first.handle)
    ensures Takes(taken, es, k, first.handle, s) <==> ReclaimedUnderOldHandle(taken, es[..k], s)
  {
    CollectCharges(c, first, s);
    AfterFacts(c, first, s);
    GoodPrefix(taken, es, k, s);
    TakenAgainIffReclaimed(taken, es[..k], first.handle, s);
  }

  /** However the collections fall, they are harmless if and only if the job is never claimed again:
      between a claim and its new handle there is always a moment at which the old results are taken. */
  lemma HarmlessAtAnyTimeIffNeverReclaimed(c: Cell, es: seq<Event>, h: string, s: RetryPolicy)
    requires CellOk(c, s) && ValidPolicy(s) && GoodEvents(c, es, s)
    requires c.job.kind.Enrich? && !c.job.status.Running? && c.job.batchHandle == Some(h)
    requires NeverAttaches(es, h)
    ensures (forall n :: 0 <= n <= |es| ==> !B.InFlight(AfterAll(c, es[..n], s).job, h))
            <==> forall i :: 0 <= i < |es| ==> !Claims(c, es, i, s)
  {
    if forall i :: 0 <= i < |es| ==> !Claims(c, es, i, s) {
      forall n | 0 <= n <= |es| ensures !B.InFlight(AfterAll(c, es[..n], s).job, h) {
        NeverClaimedNeverRunning(c, es, n, s);
      }
    }
    if i :| 0 <= i < |es| && Claims(c, es, i, s) {
      FirstClaimIsExposed(c, es, i, h, s);
    }
  }

  lemma NeverClaimedNeverRunning(c: Cell, es: seq<Event>, n: nat, s: RetryPolicy)
    requires CellOk(c, s) && ValidPolicy(s) && GoodEvents(c, es, s) && !c.job.status.Running? && n <= |es|
    requires forall i :: 0 <= i < n ==> !Claims(c, es, i, s)
    ensures !AfterAll(c, es[..n], s).job.status.Running?
  {
    GoodPrefix(c, es, n, s);
    RunningIffClaimOpen(c, es[..n], s);
    forall t ensures !ClaimedAt(c, es[..n], t, s) {
      if ClaimedAt(c, es[..n], t, s) {
        var i :| 0 <= i < n && Claims(c, es[..n], i, s) && es[..n][i].op.now == t;
        assert es[..n][..i] == es[..i] && Claims(c, es, i, s);
      }
    }
  }

  lemma {:induction false} FirstClaimIsExposed(c: Cell, es: seq<Event>, i: nat, h: string, s: RetryPolicy)
    requires CellOk(c, s) && ValidPolicy(s) && GoodEvents(c, es, s)
    requires c.job.kind.Enrich? && !c.job.status.Running? && c.job.batchHandle == Some(h)
    requires NeverAttaches(es, h) && i < |es| && Claims(c, es, i, s)
    ensures exists n :: 0 <= n <= |es| && B.InFlight(AfterAll(c, es[..n], s).job, h)
  {
    if j :| 0 <= j < i && Claims(c, es, j, s) {
      FirstClaimIsExposed(c, es, j, h, s);
    } else {
      NothingAttachedYet(c, es, i, s);
      ClaimIsExposed(c, es, i, h, s);
    }
  }

  /** A claim leaves the job in flight under the handle it has. */
  lemma ClaimIsExposed(c: Cell, es: seq<Event>, i: nat, h: string, s: RetryPolicy)
    requires c.job.kind.Enrich? && c.job.batchHandle == Some(h) && i < |es| && Claims(c, es, i, s)
    requires NoAttach(es[..i])
    ensures B.InFlight(AfterAll(c, es[..i + 1], s).job, h)
  {
    HandleComesFromAttaching(c, es[..i], h, s);
    assert es[..i + 1] == es[..i] + [es[i]];
    OneMore(c, es[..i], es[i], s);
  }

  lemma NothingAttachedYet(c: Cell, es: seq<Event>, n: nat, s: RetryPolicy)
    requires CellOk(c, s) && ValidPolicy(s) && GoodEvents(c, es, s) && !c.job.status.Running? && n <= |es|
    requires forall i :: 0 <= i < n ==> !Claims(c, es, i, s)
    ensures NoAttach(es[..n])
  {
    forall k | 0 <= k < n ensures !IsAttach(es[k]) {
      NeverClaimedNeverRunning(c, es, k, s);
    }
  }

  // ---------------------------------------------------------------- a run that charges twice

  const THREE_TRIES := RetryPolicy(3, 1000, 60000)

  /** Claimed at 1 and in flight under `h`. */
  function FlyingCell(): Cell {
    Apply(Apply(FreshCell(), Claim(1), THREE_TRIES), Attach("h"), THREE_TRIES)
  }

  function Errored(now: Stamp): Event {
    Collection("h", B.NotSucceeded("overloaded"), true, "1", now)
  }

  /** The job after its result: failed, with one attempt charged. */
  function FailedCell(): Cell {
    Collect(FlyingCell(), Errored(2), THREE_TRIES)
  }

  const AGAIN := [Work(ResetRetryable(5000)), Work(Claim(5000)), Errored(5001)]

  lemma FailedCellIs()
    ensures B.InFlight(FlyingCell().job, "h") && FailedCell().log == [Ending(Some(1), Charged(false))]
    ensures FailedCell().job.status.Failed? && FailedCell().job.attempts == 1
    ensures FailedCell().job.nextAttemptAt == 1002 && FailedCell().job.batchHandle == Some("h")
    ensures FailedCell().stamps == {1} && FailedCell().job.kind.Enrich?
  {
    assert Power2(0) == 1 && BackoffDelay(1, THREE_TRIES) == 1000;
  }

  lemma AgainUnfolds(c: Cell)
    ensures AfterAll(c, AGAIN[..2], THREE_TRIES)
            == Apply(Apply(c, ResetRetryable(5000), THREE_TRIES), Claim(5000), THREE_TRIES)
    ensures AfterAll(c, AGAIN, THREE_TRIES) == Collect(AfterAll(c, AGAIN[..2], THREE_TRIES), Errored(5001), THREE_TRIES)
  {
    assert AGAIN[..2][..1][..0] == [] && AGAIN[..2][..1] == AGAIN[..1];
    assert AGAIN[..3] == AGAIN && AGAIN[..2][1] == Work(Claim(5000)) && AGAIN[..1][0] == Work(ResetRetryable(5000));
    assert AfterAll(c, AGAIN[..1], THREE_TRIES) == Apply(c, ResetRetryable(5000), THREE_TRIES);
  }

  /** A failed job is claimed again for its next batch; the old batch, polled before the new handle is
      attached, charges its one result a second time and ends the new claim. */
  lemma OneResultChargesTwice()
    ensures FailedCell().job.attempts == 1 && Takes(FailedCell(), AGAIN, 2, "h", THREE_TRIES)
    ensures var end := AfterAll(FailedCell(), AGAIN, THREE_TRIES);
            end.job.attempts == 2 && end.log == [Ending(Some(1), Charged(false)), Ending(Some(5000), Charged(false))]
  {
    FailedCellIs();
    AgainUnfolds(FailedCell());
    var claimed := AfterAll(FailedCell(), AGAIN[..2], THREE_TRIES);
    assert B.InFlight(claimed.job, "h") && claimed.job.attempts == 1 && claimed.job.claimedAt == Some(5000);
    assert AGAIN[2] == Errored(5001);
  }
}
