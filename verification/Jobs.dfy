/** The durable job queue: its rows, and the writes that `jobs.py` makes to them. */
module JobQueue {
  import opened Text

  /** A millisecond timestamp. `QueueClock` proves that the stored strings compare as these do. */
  type Stamp = int

  datatype Kind = Embed | Enrich | Refresh

  datatype Status = Pending | Running | Done | Failed | Dead

  datatype Job = Job(kind: Kind, target: string, promptVer: Option<string>, status: Status, attempts: nat,
                     lastError: Option<string>, batchHandle: Option<string>,
                     claimedAt: Option<Stamp>, nextAttemptAt: Stamp)
  {
    predicate Live() {
      status.Pending? || status.Running? || status.Failed?
    }

    /** The key of the partial unique index: an absent prompt version counts as "". */
    function Key(): (Kind, string, string) {
      (kind, target, if promptVer.Some? then promptVer.value else "")
    }
  }

  type Rows = map<nat, Job>

  /** Retry knobs; the delays are in milliseconds. */
  datatype RetryPolicy = RetryPolicy(maxAttempts: nat, backoffBase: nat, backoffCap: nat)

  ghost predicate ValidPolicy(s: RetryPolicy) {
    s.maxAttempts >= 1 && s.backoffBase > 0 && s.backoffCap > 0
  }

  /** No two live rows share a key: what `idx_jobs_live` enforces. */
  ghost predicate LiveKeysUnique(rows: Rows) {
    forall a, b :: a in rows && b in rows && rows[a].Live() && rows[b].Live() && rows[a].Key() == rows[b].Key()
                   ==> a == b
  }

  /** A prompt version is stamped when a job is done: live rows carry none. */
  ghost predicate LiveUnstamped(rows: Rows) {
    forall id :: id in rows && rows[id].Live() ==> rows[id].promptVer.None?
  }

  predicate HasLive(rows: Rows, key: (Kind, string, string)) {
    exists id :: id in rows && rows[id].Live() && rows[id].Key() == key
  }

  function NewJob(kind: Kind, target: string, now: Stamp): Job {
    Job(kind, target, None, Pending, 0, None, None, None, now)
  }

  /** INSERT ... ON CONFLICT DO NOTHING of one pending row under the next free id. */
  function Insert(rows: Rows, nextId: nat, kind: Kind, target: string, now: Stamp): (Rows, nat) {
    var job := NewJob(kind, target, now);
    if HasLive(rows, job.Key()) then (rows, nextId) else (rows[nextId := job], nextId + 1)
  }

  function InsertAll(rows: Rows, nextId: nat, kinds: seq<Kind>, target: string, now: Stamp): (Rows, nat) {
    if kinds == [] then (rows, nextId)
    else
      var (r, n) := InsertAll(rows, nextId, kinds[..|kinds| - 1], target, now);
      Insert(r, n, kinds[|kinds| - 1], target, now)
  }

  /** The compare-and-swap guard: this exact claim is still in place. */
  predicate InPlace(j: Job, claimedAt: Option<Stamp>) {
    j.status.Running? && j.claimedAt == claimedAt
  }

  predicate HoldsClaim(rows: Rows, id: nat, claimedAt: Option<Stamp>) {
    id in rows && InPlace(rows[id], claimedAt)
  }

  function Power2(n: nat): nat {
    if n == 0 then 1 else 2 * Power2(n - 1)
  }

  function BackoffDelay(newAttempts: nat, s: RetryPolicy): nat
    requires newAttempts >= 1
  {
    var d := s.backoffBase * Power2(newAttempts - 1);
    if d <= s.backoffCap then d else s.backoffCap
  }

  /** The retry decision for a job that just failed: new count, dead or not, next attempt. */
  function NextFailureState(currentAttempts: nat, s: RetryPolicy, now: Stamp): (nat, bool, Option<Stamp>) {
    var n := currentAttempts + 1;
    if n >= s.maxAttempts then (n, true, None)
    else (n, false, Some(now + BackoffDelay(n, s)))
  }

  /** The row a failure leaves behind. */
  function FailedRow(j: Job, currentAttempts: nat, error: string, s: RetryPolicy, now: Stamp): Job {
    var (n, dead, next) := NextFailureState(currentAttempts, s, now);
    if dead then j.(status := Dead, attempts := n, lastError := Some(error))
    else j.(status := Failed, attempts := n, lastError := Some(error), nextAttemptAt := next.value)
  }

  class JobTable {
    var rows: Rows
    var nextId: nat

    ghost predicate Valid()
      reads this
    {
      LiveKeysUnique(rows) && forall id :: id in rows ==> id < nextId
    }

    constructor ()
      ensures Valid() && rows == map[] && nextId == 0
    {
      rows, nextId := map[], 0;
    }

    method EnqueueDeriveJobs(target: string, kinds: seq<Kind>, now: Stamp)
      requires Valid()
      modifies this
      ensures Valid()
      ensures (rows, nextId) == InsertAll(old(rows), old(nextId), kinds, target, now)
      ensures forall id :: id in old(rows) ==> id in rows && rows[id] == old(rows)[id]
      ensures forall k :: k in kinds ==> HasLive(rows, NewJob(k, target, now).Key())
    {
      for i := 0 to |kinds|
        invariant Valid()
        invariant (rows, nextId) == InsertAll(old(rows), old(nextId), kinds[..i], target, now)
        invariant forall id :: id in old(rows) ==> id in rows && rows[id] == old(rows)[id]
        invariant forall k :: 0 <= k < i ==> HasLive(rows, NewJob(kinds[k], target, now).Key())
      {
        ghost var before := rows;
        var (r, n) := Insert(rows, nextId, kinds[i], target, now);
        InsertKeeps(rows, nextId, kinds[i], target, now);
        rows, nextId := r, n;
        assert kinds[..i + 1][..i] == kinds[..i];
        forall k | 0 <= k < i + 1
          ensures HasLive(rows, NewJob(kinds[k], target, now).Key())
        {
          if k < i {
            var id :| id in before && before[id].Live() && before[id].Key() == NewJob(kinds[k], target, now).Key();
            assert rows[id] == before[id];
          }
        }
      }
      assert kinds[..|kinds|] == kinds;
    }

    /** One guarded UPDATE; true when the claim was still held. */
    method CasUpdateRunning(id: nat, claimedAt: Option<Stamp>, newRow: Job -> Job) returns (held: bool)
      modifies this`rows
      ensures held <==> HoldsClaim(old(rows), id, claimedAt)
      ensures held ==> rows == old(rows)[id := newRow(old(rows)[id])]
      ensures !held ==> rows == old(rows)
    {
      held := id in rows && rows[id].status.Running? && rows[id].claimedAt == claimedAt;
      if held {
        rows := rows[id := newRow(rows[id])];
      }
    }

    method RecordJobFailure(id: nat, currentAttempts: nat, claimedAt: Option<Stamp>, error: string,
                            s: RetryPolicy, now: Stamp)
      returns (newAttempts: nat, deadLettered: bool, claimLost: bool)
      modifies this`rows
      ensures newAttempts == currentAttempts + 1
      ensures deadLettered <==> newAttempts >= s.maxAttempts
      ensures claimLost <==> !HoldsClaim(old(rows), id, claimedAt)
      ensures claimLost ==> rows == old(rows)
      ensures !claimLost ==> rows == old(rows)[id := FailedRow(old(rows)[id], currentAttempts, error, s, now)]
      ensures !claimLost && !deadLettered ==>
                var delay := s.backoffBase * Power2(currentAttempts);
                && rows[id].status.Failed? && rows[id].attempts == newAttempts
                && rows[id].nextAttemptAt == now + if delay < s.backoffCap then delay else s.backoffCap
      ensures !claimLost && deadLettered ==> rows[id].status.Dead? && rows[id].attempts == newAttempts
      ensures !claimLost ==> rows[id].lastError == Some(error) && rows[id].claimedAt == claimedAt
    {
      var (n, dead, next) := NextFailureState(currentAttempts, s, now);
      var held;
      if dead {
        held := CasUpdateRunning(id, claimedAt,
                                 (j: Job) => j.(status := Dead, attempts := n, lastError := Some(error)));
      } else {
        var at := next.value;
        held := CasUpdateRunning(id, claimedAt,
                                 (j: Job) => j.(status := Failed, attempts := n, lastError := Some(error),
                                                nextAttemptAt := at));
      }
      return n, dead, !held;
    }
  }

  /** Inserting keeps every row and the uniqueness of live keys, and leaves a live row for the key. */
  lemma InsertKeeps(rows: Rows, nextId: nat, kind: Kind, target: string, now: Stamp)
    requires LiveKeysUnique(rows) && forall id :: id in rows ==> id < nextId
    ensures var (r, n) := Insert(rows, nextId, kind, target, now);
            && LiveKeysUnique(r) && (forall id :: id in r ==> id < n)
            && (forall id :: id in rows ==> id in r && r[id] == rows[id])
            && HasLive(r, NewJob(kind, target, now).Key())
  {
    var (r, n) := Insert(rows, nextId, kind, target, now);
    if n != nextId {
      assert r[nextId].Live();
    }
  }

  /** Enqueueing again while the jobs are live changes nothing. */
  lemma {:induction false} ReEnqueueIsNoOp(rows: Rows, nextId: nat, kinds: seq<Kind>, target: string, now: Stamp)
    requires forall k :: k in kinds ==> HasLive(rows, NewJob(k, target, now).Key())
    ensures InsertAll(rows, nextId, kinds, target, now) == (rows, nextId)
  {
    if kinds != [] {
      ReEnqueueIsNoOp(rows, nextId, kinds[..|kinds| - 1], target, now);
    }
  }

  lemma {:induction false} Power2Positive(n: nat)
    ensures Power2(n) >= 1
  {
    if n > 0 { Power2Positive(n - 1); }
  }

  /** Successive failures back off by at least as long each time, never beyond the cap,
      and always into the future. */
  lemma BackoffGrowsToCap(n: nat, s: RetryPolicy)
    requires n >= 1 && ValidPolicy(s)
    ensures 0 < BackoffDelay(n, s) <= BackoffDelay(n + 1, s) <= s.backoffCap
    ensures BackoffDelay(n + 1, s) == s.backoffCap || BackoffDelay(n + 1, s) == 2 * BackoffDelay(n, s)
  {
    Power2Positive(n - 1);
    var p := Power2(n - 1);
    assert s.backoffBase * Power2(n) == 2 * (s.backoffBase * p);
    assert s.backoffBase * p >= s.backoffBase;
  }
}
