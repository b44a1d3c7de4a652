/** One lazily loaded embedder shared by threads: double-checked locking, one statement a step. */
module SharedEmbedder {
  import opened Text

  /** Where a thread is. A load made on the way to the revision goes on to the probe. */
  datatype Pc =
    | Idle
    | LoadCheck(probing: bool) | LoadLock(probing: bool) | LoadRecheck(probing: bool) | Build(probing: bool)
    | LoadUnlock(probing: bool) | BuildFailed | LoadReturn(probing: bool)
    | ProbeCheck | ProbeLock | ProbeRecheck | Probe | ProbeFlag | ProbeUnlock | ProbeReturn
    | ResetLock | ResetCheck | ResetClear | ResetUnlock
  {
    /** Inside a `with self._load_lock` block. */
    predicate Holding() {
      LoadRecheck? || Build? || LoadUnlock? || BuildFailed? || ProbeRecheck? || Probe? || ProbeFlag? || ProbeUnlock?
      || ResetCheck? || ResetClear? || ResetUnlock?
    }

    predicate Waiting() {
      LoadLock? || ProbeLock? || ResetLock?
    }

    /** How many steps the thread's call still takes, at most. */
    function Rank(): nat {
      match this
      case Idle => 0
      case LoadCheck(p) => if p then 14 else 6
      case LoadLock(p) => if p then 13 else 5
      case LoadRecheck(p) => if p then 12 else 4
      case Build(p) => if p then 11 else 3
      case LoadUnlock(p) => if p then 10 else 2
      case BuildFailed => 1
      case LoadReturn(p) => if p then 9 else 1
      case ProbeCheck => 8
      case ProbeLock => 7
      case ProbeRecheck => 6
      case Probe => 5
      case ProbeFlag => 4
      case ProbeUnlock => 3
      case ProbeReturn => 1
      case ResetLock => 4
      case ResetCheck => 3
      case ResetClear => 2
      case ResetUnlock => 1
    }
  }

  datatype Call = Load | ModelRevision | ResetRevisionProbe

  /** What the outside decides when it is asked: the object a construction yields or its failure, and
      the revision a probe resolves or None. */
  datatype World = World(made: Option<nat>, resolved: Option<string>)

  /** The fields and the lock, and what has happened so far: constructions, probes and whether the
      last one's flag is still to be set, effective resets, and what calls have returned. */
  datatype Shared = Shared(model: Option<nat>, revision: Option<string>, probed: bool, lock: Option<nat>,
                           built: nat, probes: nat, pending: bool, resets: nat,
                           loaded: seq<Option<nat>>, reported: seq<Option<string>>)

  datatype State = State(shared: Shared, pcs: map<nat, Pc>)

  function PcOf(s: State, t: nat): Pc {
    if t in s.pcs then s.pcs[t] else Idle
  }

  /** A thread waits only for a lock that is taken. */
  predicate Ready(sh: Shared, pc: Pc) {
    !pc.Idle? && (pc.Waiting() ==> sh.lock.None?)
  }

  predicate CanStep(s: State, t: nat) {
    Ready(s.shared, PcOf(s, t))
  }

  function Entry(call: Call): Pc {
    match call
    case Load => LoadCheck(false)
    case ModelRevision => LoadCheck(true)
    case ResetRevisionProbe => ResetLock
  }

  /** One statement of thread `t`: what it does to the fields, and where it goes. */
  function Act(sh: Shared, t: nat, pc: Pc, w: World): (Shared, Pc)
    requires Ready(sh, pc)
  {
    match pc
    case Idle => (sh, Idle)
    case LoadCheck(p) => (sh, if sh.model.None? then LoadLock(p) else LoadReturn(p))
    case LoadLock(p) => (sh.(lock := Some(t)), LoadRecheck(p))
    case LoadRecheck(p) => (sh, if sh.model.None? then Build(p) else LoadUnlock(p))
    case Build(p) =>
      if w.made.None? then (sh, BuildFailed) else (sh.(model := w.made, built := sh.built + 1), LoadUnlock(p))
    case LoadUnlock(p) => (sh.(lock := None), LoadReturn(p))
    case BuildFailed => (sh.(lock := None), Idle)
    case LoadReturn(p) => (sh.(loaded := sh.loaded + [sh.model]), if p then ProbeCheck else Idle)
    case ProbeCheck => (sh, if sh.probed then ProbeReturn else ProbeLock)
    case ProbeLock => (sh.(lock := Some(t)), ProbeRecheck)
    case ProbeRecheck => (sh, if sh.probed then ProbeUnlock else Probe)
    case Probe => (sh.(revision := w.resolved, probes := sh.probes + 1, pending := true), ProbeFlag)
    case ProbeFlag => (sh.(probed := true, pending := false), ProbeUnlock)
    case ProbeUnlock => (sh.(lock := None), ProbeReturn)
    case ProbeReturn => (sh.(reported := sh.reported + [sh.revision]), Idle)
    case ResetLock => (sh.(lock := Some(t)), ResetCheck)
    case ResetCheck => (sh, if sh.probed && sh.revision.None? then ResetClear else ResetUnlock)
    case ResetClear => (sh.(probed := false, resets := sh.resets + 1), ResetUnlock)
    case ResetUnlock => (sh.(lock := None), Idle)
  }

  datatype Event = Begins(thread: nat, call: Call) | Goes(thread: nat, world: World)

  predicate Allowed(s: State, e: Event) {
    match e
    case Begins(t, _) => PcOf(s, t).Idle?
    case Goes(t, _) => CanStep(s, t)
  }

  function After(s: State, e: Event): State
    requires Allowed(s, e)
  {
    match e
    case Begins(t, call) => State(s.shared, s.pcs[t := Entry(call)])
    case Goes(t, w) =>
      var (sh, pc) := Act(s.shared, t, PcOf(s, t), w);
      State(sh, s.pcs[t := pc])
  }

  predicate Follows(s: State, e: Event, r: State) {
    Allowed(s, e) && r == After(s, e)
  }

  /** Every interleaving. */
  predicate IsRun(states: seq<State>, events: seq<Event>) {
    && |states| == |events| + 1 && states[0] == START
    && forall i, j :: 0 <= i < |events| && j == i + 1 ==> Follows(states[i], events[i], states[j])
  }

  const START := State(Shared(None, None, false, None, 0, 0, false, 0, [], []), map[])

  // ---------------------------------------------------------------- the invariant

  /** What a thread knows where it is. */
  predicate Knows(sh: Shared, t: nat, pc: Pc) {
    && (pc.Holding() <==> sh.lock == Some(t))
    && (pc.Holding() ==> (sh.pending <==> pc.ProbeFlag?))
    && (pc.Build? ==> sh.model.None?)
    && (pc.LoadUnlock? || pc.LoadReturn? ==> sh.model.Some?)
    && (pc.Probe? ==> !sh.probed)
    && (pc.ResetClear? ==> sh.probed && sh.revision.None?)
  }

  /** How the fields and the history fit together. */
  ghost predicate Fits(sh: Shared) {
    && (sh.lock.None? ==> !sh.pending)
    && (sh.pending ==> !sh.probed)
    && (sh.revision.Some? ==> sh.probed || sh.pending)
    && sh.built == (if sh.model.Some? then 1 else 0)
    && (forall m :: m in sh.loaded ==> m.Some? && sh.model == m)
    && sh.probes == sh.resets + (if sh.probed || sh.pending then 1 else 0)
    && (forall r :: r in sh.reported && r.Some? ==> sh.revision == r)
  }

  ghost predicate Inv(s: State) {
    Fits(s.shared) && forall t: nat :: Knows(s.shared, t, PcOf(s, t))
  }

  /** The fields still fit after a step, and the model and a successful revision are still there. */
  lemma ActFits(sh: Shared, t: nat, pc: Pc, w: World)
    requires Fits(sh) && Knows(sh, t, pc) && Ready(sh, pc)
    ensures var sh' := Act(sh, t, pc, w).0;
            && Fits(sh')
            && (sh.revision.Some? ==> sh'.revision == sh.revision)
            && (sh.model.Some? ==> sh'.model == sh.model)
  {
  }

  lemma StepperKnows(sh: Shared, t: nat, pc: Pc, w: World)
    requires Fits(sh) && Knows(sh, t, pc) && Ready(sh, pc)
    ensures var (sh', pc') := Act(sh, t, pc, w); Knows(sh', t, pc')
  {
  }

  /** What a thread knows stays true while another steps: either it holds the lock, or it knows only
      what nobody takes back. */
  lemma OthersKeepKnowing(sh: Shared, t: nat, pc: Pc, w: World, u: nat, other: Pc)
    requires Fits(sh) && Knows(sh, t, pc) && Ready(sh, pc) && Knows(sh, u, other) && u != t
    ensures Knows(Act(sh, t, pc, w).0, u, other)
  {
  }

  lemma AfterKeepsInv(s: State, e: Event)
    requires Inv(s) && Allowed(s, e)
    ensures Inv(After(s, e))
    ensures s.shared.revision.Some? ==> After(s, e).shared.revision == s.shared.revision
    ensures s.shared.model.Some? ==> After(s, e).shared.model == s.shared.model
  {
    var r := After(s, e);
    match e
    case Begins(t, call) =>
      forall u: nat ensures Knows(r.shared, u, PcOf(r, u)) {
        assert Knows(s.shared, u, PcOf(s, u));
      }
    case Goes(t, w) =>
      var pc := PcOf(s, t);
      ActFits(s.shared, t, pc, w);
      forall u: nat ensures Knows(r.shared, u, PcOf(r, u)) {
        if u == t {
          StepperKnows(s.shared, t, pc, w);
        } else {
          OthersKeepKnowing(s.shared, t, pc, w, u, PcOf(s, u));
        }
      }
  }

  // ---------------------------------------------------------------- what every run keeps

  lemma {:induction false} RunKeepsInv(states: seq<State>, events: seq<Event>, i: nat)
    requires IsRun(states, events) && i < |states|
    ensures Inv(states[i])
  {
    if i > 0 {
      RunKeepsInv(states, events, i - 1);
      assert Follows(states[i - 1], events[i - 1], states[i]);
      AfterKeepsInv(states[i - 1], events[i - 1]);
    }
  }

  lemma {:induction false} FieldsAreStable(states: seq<State>, events: seq<Event>, i: nat, j: nat)
    requires IsRun(states, events) && i <= j < |states|
    ensures states[i].shared.revision.Some? ==> states[j].shared.revision == states[i].shared.revision
    ensures states[i].shared.model.Some? ==> states[j].shared.model == states[i].shared.model
    decreases j
  {
    if i < j {
      FieldsAreStable(states, events, i, j - 1);
      RunKeepsInv(states, events, j - 1);
      assert Follows(states[j - 1], events[j - 1], states[j]);
      AfterKeepsInv(states[j - 1], events[j - 1]);
    }
  }

  /** Under every interleaving: the model is constructed at most once and every load that returns
      returns that one object; a successful revision is never overwritten and no caller reports
      another one; probes are never more than one ahead of the effective resets. */
  lemma OneModelOneRevision(states: seq<State>, events: seq<Event>, i: nat, j: nat)
    requires IsRun(states, events) && i <= j < |states|
    ensures var a, b := states[i].shared, states[j].shared;
            && b.built <= 1 && b.probes <= b.resets + 1
            && (forall m :: m in b.loaded ==> m.Some? && b.model == m)
            && (forall r :: r in b.reported && r.Some? ==> b.revision == r)
            && (a.revision.Some? ==> b.revision == a.revision)
  {
    RunKeepsInv(states, events, j);
    FieldsAreStable(states, events, i, j);
  }

  /** After a probe has succeeded every caller that returns reports that revision. */
  lemma LaterCallersReportIt(states: seq<State>, events: seq<Event>, i: nat, j: nat, t: nat, w: World)
    requires IsRun(states, events) && i <= j < |events|
    requires states[i].shared.revision.Some? && events[j] == Goes(t, w) && PcOf(states[j], t).ProbeReturn?
    ensures states[j + 1].shared.reported == states[j].shared.reported + [states[i].shared.revision]
  {
    FieldsAreStable(states, events, i, j);
    assert Follows(states[j], events[j], states[j + 1]);
  }

  /** No deadlock: whenever a thread is in a call, it can step or the holder of the lock can. */
  lemma SomeThreadCanStep(states: seq<State>, events: seq<Event>, i: nat, t: nat)
    requires IsRun(states, events) && i < |states| && !PcOf(states[i], t).Idle?
    ensures var s := states[i];
            CanStep(s, t) || (s.shared.lock.Some? && s.shared.lock.value != t && CanStep(s, s.shared.lock.value))
  {
    RunKeepsInv(states, events, i);
    var s := states[i];
    assert Knows(s.shared, t, PcOf(s, t));
    if s.shared.lock.Some? { assert Knows(s.shared, s.shared.lock.value, PcOf(s, s.shared.lock.value)); }
  }

  /** And every step brings its own thread's call nearer its end, so every call ends. */
  lemma StepsFinishCalls(sh: Shared, t: nat, pc: Pc, w: World)
    requires Ready(sh, pc)
    ensures Act(sh, t, pc, w).1.Rank() < pc.Rank()
  {
  }

  // ---------------------------------------------------------------- one thread

  /** The embedder's fields. */
  datatype Fields = Fields(model: Option<nat>, revision: Option<string>, probed: bool)

  function FieldsOf(sh: Shared): Fields {
    Fields(sh.model, sh.revision, sh.probed)
  }

  /** What a call that nothing interrupts does to the fields. */
  function Called(f: Fields, call: Call, w: World): Fields {
    var loaded := if f.model.Some? then f else f.(model := w.made);
    match call
    case Load => loaded
    case ModelRevision =>
      if loaded.model.None? || loaded.probed then loaded else loaded.(revision := w.resolved, probed := true)
    case ResetRevisionProbe => if f.probed && f.revision.None? then f.(probed := false) else f
  }

  /** The class as one thread sees it; a construction that fails leaves the fields alone. */
  class FastEmbedEmbedder {
    var model: Option<nat>
    var revision: Option<string>
    var probed: bool

    function State(): Fields
      reads this
    {
      Fields(model, revision, probed)
    }

    constructor ()
      ensures State() == FieldsOf(START.shared)
    {
      model, revision, probed := None, None, false;
    }

    method LoadModel(w: World) returns (m: Option<nat>)
      modifies this`model
      ensures State() == Called(old(State()), Load, w) && m == model
    {
      if model.None? {
        model := w.made;
      }
      m := model;
    }

    /** None where loading raises; else what the caller is told. */
    method Revision(w: World) returns (r: Option<Option<string>>)
      modifies this
      ensures State() == Called(old(State()), ModelRevision, w)
      ensures r == if model.None? then None else Some(revision)
    {
      var m := LoadModel(w);
      if m.None? {
        return None;
      }
      if !probed {
        revision := w.resolved;
        probed := true;
      }
      return Some(revision);
    }

    method Reset()
      modifies this`probed
      ensures State() == Called(old(State()), ResetRevisionProbe, World(None, None))
    {
      if probed && revision.None? {
        probed := false;
      }
    }
  }

  /** A thread's steps to the end of its call, no other thread stepping. */
  function Alone(sh: Shared, t: nat, pc: Pc, w: World): Shared
    requires Ready(sh, pc) || pc.Idle?
    decreases pc.Rank()
  {
    if pc.Idle? then sh
    else
      StepsFinishCalls(sh, t, pc, w);
      var (sh', pc') := Act(sh, t, pc, w);
      if pc'.Waiting() && sh'.lock.Some? then sh' else Alone(sh', t, pc', w)
  }

  /** Steps of the machine taken by one thread alone do to the fields what the method does. */
  lemma AloneIsTheCall(sh: Shared, t: nat, call: Call, w: World)
    requires sh.lock.None?
    ensures FieldsOf(Alone(sh, t, Entry(call), w)) == Called(FieldsOf(sh), call, w)
    ensures Alone(sh, t, Entry(call), w).lock.None?
  {
    match call
    case Load => AloneLoads(sh, t, false, w);
    case ModelRevision =>
      AloneLoads(sh, t, true, w);
      var loaded := if sh.model.Some? then sh else sh.(model := w.made, built := sh.built + 1);
      if loaded.model.Some? { AloneProbes(loaded.(loaded := sh.loaded + [loaded.model]), t, w); }
    case ResetRevisionProbe => AloneResets(sh, t, w);
  }

  /** One step of a thread alone. */
  lemma Then(sh: Shared, t: nat, pc: Pc, w: World, next: Shared, at: Pc)
    requires Ready(sh, pc) && Act(sh, t, pc, w) == (next, at) && (at.Waiting() ==> next.lock.None?)
    ensures Alone(sh, t, pc, w) == Alone(next, t, at, w)
  {
  }

  lemma AloneLoads(sh: Shared, t: nat, probing: bool, w: World)
    requires sh.lock.None?
    ensures var made := if sh.model.Some? then sh else sh.(model := w.made, built := sh.built + 1);
            Alone(sh, t, LoadCheck(probing), w)
            == if made.model.None? then sh
               else Alone(made.(loaded := sh.loaded + [made.model]), t, if probing then ProbeCheck else Idle, w)
  {
    var made := if sh.model.Some? then sh else sh.(model := w.made, built := sh.built + 1);
    var end := if probing then ProbeCheck else Idle;
    if sh.model.Some? {
      Then(sh, t, LoadCheck(probing), w, sh, LoadReturn(probing));
      Then(sh, t, LoadReturn(probing), w, made.(loaded := sh.loaded + [made.model]), end);
    } else {
      var held := sh.(lock := Some(t));
      Then(sh, t, LoadCheck(probing), w, sh, LoadLock(probing));
      Then(sh, t, LoadLock(probing), w, held, LoadRecheck(probing));
      Then(held, t, LoadRecheck(probing), w, held, Build(probing));
      if w.made.Some? {
        Then(held, t, Build(probing), w, made.(lock := Some(t)), LoadUnlock(probing));
        Then(made.(lock := Some(t)), t, LoadUnlock(probing), w, made, LoadReturn(probing));
        Then(made, t, LoadReturn(probing), w, made.(loaded := sh.loaded + [made.model]), end);
      } else {
        Then(held, t, Build(probing), w, held, BuildFailed);
        Then(held, t, BuildFailed, w, sh, Idle);
      }
    }
  }

  lemma AloneReports(sh: Shared, t: nat, w: World)
    ensures Alone(sh, t, ProbeFlag, w)
            == sh.(probed := true, pending := false, lock := None, reported := sh.reported + [sh.revision])
  {
    var flagged := sh.(probed := true, pending := false);
    var freed := flagged.(lock := None);
    Then(sh, t, ProbeFlag, w, flagged, ProbeUnlock);
    Then(flagged, t, ProbeUnlock, w, freed, ProbeReturn);
    Then(freed, t, ProbeReturn, w, freed.(reported := freed.reported + [freed.revision]), Idle);
  }

  lemma AloneReportsAgain(sh: Shared, t: nat, w: World)
    requires sh.lock.None? && sh.probed
    ensures Alone(sh, t, ProbeCheck, w) == sh.(reported := sh.reported + [sh.revision])
  {
    Then(sh, t, ProbeCheck, w, sh, ProbeReturn);
    Then(sh, t, ProbeReturn, w, sh.(reported := sh.reported + [sh.revision]), Idle);
  }

  lemma AloneLocks(sh: Shared, t: nat, w: World)
    requires sh.lock.None? && !sh.probed
    ensures Alone(sh, t, ProbeCheck, w) == Alone(sh.(lock := Some(t)), t, ProbeRecheck, w)
  {
    Then(sh, t, ProbeCheck, w, sh, ProbeLock);
    Then(sh, t, ProbeLock, w, sh.(lock := Some(t)), ProbeRecheck);
  }

  lemma AloneProbesOnce(sh: Shared, t: nat, w: World)
    requires sh.lock.None? && !sh.probed
    ensures Alone(sh, t, ProbeCheck, w)
            == Alone(sh.(lock := Some(t), revision := w.resolved, probes := sh.probes + 1, pending := true),
                     t, ProbeFlag, w)
  {
    var held := sh.(lock := Some(t));
    AloneLocks(sh, t, w);
    Then(held, t, ProbeRecheck, w, held, Probe);
    Then(held, t, Probe, w, held.(revision := w.resolved, probes := sh.probes + 1, pending := true), ProbeFlag);
  }

  lemma AloneProbes(sh: Shared, t: nat, w: World)
    requires sh.lock.None?
    ensures var r := Alone(sh, t, ProbeCheck, w);
            r.lock.None? && r.model == sh.model && r.probed
            && r.revision == if sh.probed then sh.revision else w.resolved
  {
    if sh.probed {
      AloneReportsAgain(sh, t, w);
    } else {
      AloneProbesOnce(sh, t, w);
      AloneReports(sh.(lock := Some(t), revision := w.resolved, probes := sh.probes + 1, pending := true), t, w);
    }
  }

  lemma AloneResets(sh: Shared, t: nat, w: World)
    requires sh.lock.None?
    ensures Alone(sh, t, ResetLock, w)
            == if sh.probed && sh.revision.None? then sh.(probed := false, resets := sh.resets + 1) else sh
  {
    var held := sh.(lock := Some(t));
    Then(sh, t, ResetLock, w, held, ResetCheck);
    if sh.probed && sh.revision.None? {
      var cleared := held.(probed := false, resets := sh.resets + 1);
      Then(held, t, ResetCheck, w, held, ResetClear);
      Then(held, t, ResetClear, w, cleared, ResetUnlock);
      Then(cleared, t, ResetUnlock, w, cleared.(lock := None), Idle);
    } else {
      Then(held, t, ResetCheck, w, held, ResetUnlock);
      Then(held, t, ResetUnlock, w, sh, Idle);
    }
  }
}
