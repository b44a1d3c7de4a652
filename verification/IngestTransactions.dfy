/** `ingest_snapshot` at the grain of its SQL statements, run by any number of connections. */
module IngestTransactions {
  import opened Text
  import opened JobQueue
  import opened Externals

  /** Where a connection stands: which statement it will run next, and what it has learned. */
  datatype Phase =
    | Idle
    | Upserting                                 // the lock-taking upsert comes next
    | Reading                                   // the head read comes next
    | Deciding(head: Option<HeadRow>)           // guard, dedup, or the insert comes next
    | Moving(now: Stamp)                        // the head move comes next
    | Enqueuing(now: Stamp)                     // the embed enqueue comes next
    | Committing(call: Call, out: Outcome)      // COMMIT comes next

  /** `view` is the connection's own uncommitted copy, meaningful while it holds the write lock. */
  datatype Conn = Conn(phase: Phase, r: Request, view: Store)

  datatype Event = Ingestion(call: Call, out: Outcome) | Other(externals: map<string, External>, jobs: Rows,
                                                                       nextJob: nat)

  /** The database: what is committed, who holds SQLite's one write lock, and the order of commits. */
  datatype System = System(committed: Store, lock: Option<nat>, conns: map<nat, Conn>, log: seq<Event>)

  datatype Action =
    | Begin(c: nat, r: Request)
    | Statement(c: nat, now: Stamp)             // run the connection's next statement at clock reading `now`
    | Rollback(c: nat)                          // an error or a crash before COMMIT
    | OtherCommit(externals: map<string, External>, jobs: Rows, nextJob: nat) // any other writer of those tables

  function SetPhase(s: System, c: nat, p: Phase): System
    requires c in s.conns
  {
    s.(conns := s.conns[c := s.conns[c].(phase := p)])
  }

  function SetView(s: System, c: nat, p: Phase, view: Store): System
    requires c in s.conns
  {
    s.(conns := s.conns[c := s.conns[c].(phase := p, view := view)])
  }

  function NextStatement(s: System, c: nat, now: Stamp): System
    requires c in s.conns
  {
    var k := s.conns[c];
    match k.phase
    case Idle => s
    case Upserting =>
      if s.lock.Some? then s
      else SetView(s, c, Reading, Upsert(s.committed, k.r)).(lock := Some(c))
    case Reading => SetPhase(s, c, Deciding(HeadOf(k.view, k.r.externalId)))
    case Deciding(h) =>
      if GuardFires(k.r, h) then SetPhase(s, c, Committing(Call(k.r, now, now), Skipped))
      else if IsDedup(k.r, h) then
        SetView(s, c, Committing(Call(k.r, now, now), Ingested(k.r.Id(), k.r.status, true)),
                if k.r.status.Tombstone? then k.view else BumpFetched(k.view, k.r.Id(), now))
      else SetView(s, c, Moving(now), InsertSnapshot(k.view, k.r, now))
    case Moving(at) =>
      SetView(s, c,
              if k.r.status.Tombstone? then Committing(Call(k.r, at, at), Ingested(k.r.Id(), k.r.status, false))
              else Enqueuing(at),
              MoveHead(k.view, k.r.externalId, k.r.Id()))
    case Enqueuing(at) =>
      SetView(s, c, Committing(Call(k.r, at, now), Ingested(k.r.Id(), k.r.status, false)),
              EnqueueEmbed(k.view, k.r.Id(), now))
    case Committing(call, out) =>
      SetPhase(s, c, Idle).(committed := k.view, lock := None, log := s.log + [Ingestion(call, out)])
  }

  function Do(s: System, a: Action): System {
    match a
    case Begin(c, r) =>
      if c in s.conns && !s.conns[c].phase.Idle? then s
      else s.(conns := s.conns[c := Conn(Upserting, r, s.committed)])
    case Statement(c, now) => if c in s.conns then NextStatement(s, c, now) else s
    case Rollback(c) =>
      if c !in s.conns then s
      else SetPhase(s, c, Idle).(lock := if s.lock == Some(c) then None else s.lock)
    case OtherCommit(ext, jobs, next) =>
      if s.lock.Some? then s
      else s.(committed := s.committed.(externals := ext, jobs := jobs, nextJob := next),
              log := s.log + [Other(ext, jobs, next)])
  }

  function RunAll(s: System, actions: seq<Action>): System {
    if actions == [] then s else Do(RunAll(s, actions[..|actions| - 1]), actions[|actions| - 1])
  }

  /** The atomic reading of one event. */
  function Replay(st: Store, e: Event): Store {
    match e
    case Ingestion(call, _) => Step(st, call).0
    case Other(ext, jobs, next) => st.(externals := ext, jobs := jobs, nextJob := next)
  }

  function ReplayAll(st: Store, log: seq<Event>): Store {
    if log == [] then st else Replay(ReplayAll(st, log[..|log| - 1]), log[|log| - 1])
  }

  /** Each logged outcome is the one the atomic ingest gives at that point of the order. */
  ghost predicate OutcomesAgree(st: Store, log: seq<Event>) {
    forall k :: 0 <= k < |log| && log[k].Ingestion? ==> Step(ReplayAll(st, log[..k]), log[k].call).1 == log[k].out
  }

  /** What a connection inside its transaction has done so far, told from the committed store. */
  ghost predicate InProgress(committed: Store, k: Conn) {
    var up := Upsert(committed, k.r);
    var h := HeadOf(up, k.r.externalId);
    match k.phase
    case Idle => true
    case Upserting => true
    case Reading => k.view == up
    case Deciding(head) => k.view == up && head == h
    case Moving(at) => !GuardFires(k.r, h) && !IsDedup(k.r, h) && k.view == InsertSnapshot(up, k.r, at)
    case Enqueuing(at) =>
      !GuardFires(k.r, h) && !IsDedup(k.r, h) && k.r.status.Ok?
      && k.view == MoveHead(InsertSnapshot(up, k.r, at), k.r.externalId, k.r.Id())
    case Committing(call, out) => call.r == k.r && Step(committed, call) == (k.view, out)
  }

  predicate InTransaction(p: Phase) {
    !p.Idle? && !p.Upserting?
  }

  /** The connection in its transaction is the lock holder, and its work so far rests on what is
      committed now; the committed store is the logged events, one after the other. */
  ghost predicate Inv(s: System, start: Store) {
    && (forall c :: c in s.conns && InTransaction(s.conns[c].phase) ==> s.lock == Some(c))
    && (s.lock.Some? ==> s.lock.value in s.conns && InTransaction(s.conns[s.lock.value].phase))
    && (forall c :: c in s.conns ==> InProgress(s.committed, s.conns[c]))
    && s.committed == ReplayAll(start, s.log)
    && OutcomesAgree(start, s.log)
  }

  lemma ReplayOneMore(st: Store, log: seq<Event>, e: Event)
    requires OutcomesAgree(st, log)
    requires e.Ingestion? ==> Step(ReplayAll(st, log), e.call).1 == e.out
    ensures ReplayAll(st, log + [e]) == Replay(ReplayAll(st, log), e)
    ensures OutcomesAgree(st, log + [e])
  {
    assert (log + [e])[..|log|] == log;
    assert forall k :: 0 <= k < |log| ==> (log + [e])[..k] == log[..k] && (log + [e])[k] == log[k];
  }

  /** A statement before COMMIT changes only its own connection, and keeps it in step. */
  lemma StatementKeepsProgress(s: System, c: nat, now: Stamp)
    requires c in s.conns && InProgress(s.committed, s.conns[c]) && !s.conns[c].phase.Committing?
    ensures var s' := NextStatement(s, c, now);
            && s'.committed == s.committed && s'.log == s.log
            && c in s'.conns && s'.conns == s.conns[c := s'.conns[c]]
            && InProgress(s.committed, s'.conns[c])
            && (InTransaction(s.conns[c].phase) ==> InTransaction(s'.conns[c].phase) && s'.lock == s.lock)
            && (!InTransaction(s.conns[c].phase) && InTransaction(s'.conns[c].phase) ==>
                  s.lock.None? && s'.lock == Some(c))
            && (!InTransaction(s'.conns[c].phase) ==> s'.lock == s.lock)
  {
  }

  lemma CommitKeepsInv(s: System, c: nat, now: Stamp, start: Store)
    requires Inv(s, start) && c in s.conns && s.conns[c].phase.Committing?
    ensures Inv(NextStatement(s, c, now), start)
  {
    var p := s.conns[c].phase;
    assert s.lock == Some(c);
    ReplayOneMore(start, s.log, Ingestion(p.call, p.out));
  }

  lemma OtherCommitKeepsInv(s: System, a: Action, start: Store)
    requires Inv(s, start) && a.OtherCommit?
    ensures Inv(Do(s, a), start)
  {
    ReplayOneMore(start, s.log, Other(a.externals, a.jobs, a.nextJob));
    if s.lock.None? {
      assert forall c :: c in s.conns ==> !InTransaction(s.conns[c].phase);
    }
  }

  /** Every action of every connection keeps the invariant. */
  lemma DoKeepsInv(s: System, a: Action, start: Store)
    requires Inv(s, start)
    ensures Inv(Do(s, a), start)
  {
    if a.OtherCommit? {
      OtherCommitKeepsInv(s, a, start);
    } else if a.Statement? && a.c in s.conns {
      if s.conns[a.c].phase.Committing? {
        CommitKeepsInv(s, a.c, a.now, start);
      } else {
        StatementKeepsProgress(s, a.c, a.now);
      }
    }
  }

  function Start(st: Store): System {
    System(st, None, map[], [])
  }

  lemma {:induction false} RunKeepsInv(st: Store, actions: seq<Action>)
    ensures Inv(RunAll(Start(st), actions), st)
  {
    if actions != [] {
      RunKeepsInv(st, actions[..|actions| - 1]);
      DoKeepsInv(RunAll(Start(st), actions[..|actions| - 1]), actions[|actions| - 1], st);
    }
  }

  /** Whatever the interleaving, crashes included, the committed database is the result of whole
      ingests, one after the other in commit order, and every caller was told the outcome that its
      ingest has at its place in that order. */
  lemma InterleavingsAreAtomic(st: Store, actions: seq<Action>)
    ensures var s := RunAll(Start(st), actions);
            s.committed == ReplayAll(st, s.log) && OutcomesAgree(st, s.log)
  {
    RunKeepsInv(st, actions);
  }

  /** The head, status and time that a transaction read are still the committed ones when it
      decides, and the decision it took is still right while it writes. */
  lemma HeadReadIsStillCurrent(st: Store, actions: seq<Action>, c: nat)
    ensures var s := RunAll(Start(st), actions);
            c in s.conns ==>
              var k := s.conns[c];
              var current := HeadOf(s.committed, k.r.externalId);
              && (k.phase.Deciding? ==> k.phase.head == current)
              && (k.phase.Moving? || k.phase.Enqueuing? ==> !GuardFires(k.r, current) && !IsDedup(k.r, current))
  {
    RunKeepsInv(st, actions);
    var s := RunAll(Start(st), actions);
    if c in s.conns {
      assert HeadOf(Upsert(s.committed, s.conns[c].r), s.conns[c].r.externalId)
             == HeadOf(s.committed, s.conns[c].r.externalId);
    }
  }

  /** The order of the first two statements carries the result. Had the head been read before the
      lock was taken, a tombstone committed in between would stay head for good under a successful
      refetch that still believes it is deduplicating. */
  lemma ReadingBeforeTheLockLosesASuccess()
    ensures var ok := Request("u", "web", "A", None, Ok, None, false);
            var dead := Request("u", "web", TombstoneBody("dead"), None, Tombstone, None, false);
            var before := Ingest(EMPTY_STORE, ok, 1, 1).0;
            var read := HeadOf(before, "u");
            var between := Ingest(before, dead, 2, 2).0;
            var stale := AfterRead(between, ok, read, 3, 3).0;
            && HeadId(stale, "u") == Some(dead.Id())
            && HeadId(Ingest(between, ok, 3, 3).0, "u") == Some(ok.Id())
  {
    assert "A" != TombstoneBody("dead") by { assert |TombstoneBody("dead")| > 1; }
  }
}
