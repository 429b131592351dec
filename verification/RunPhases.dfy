/**
  The run state machine of cmd/queuelabrun/main.go and outcome.go: a straight line of phases that may each
  fail, over a stack of deferred calls that tear down, close the ownership window and release the worker
  after the return value has been chosen.
 */
module RunPhases {
  import opened Common
  import opened Teardown

  // ------------------------------------------------------------------ outcome

  datatype Disposition =
    | Unset
    | ClientFailed | ProtocolBuildFailed | AcquisitionRefused | EnvironmentUnqualified | SetupFailed
    | Cancelled | CollectorDesync | ReconstructRefused | CardinalityRefused | DeviceNotEstablished
    | WorkerNotRestored | ResidueLeft | ChecksPassed | Unclassified

  /** The disposition, and the causes the reason text folds in, latest first. */
  datatype Outcome = Outcome(disposition: Disposition, causes: seq<Disposition>)

  const NO_OUTCOME := Outcome(Unset, [])

  /** `amend`: the disposition is replaced, what was decided before is kept as a cause. */
  function Amend(o: Outcome, d: Disposition): (r: Outcome)
    ensures r.disposition == d && (o.causes == [] ==> Originates(r, d))
    ensures forall first :: Originates(o, first) ==> Originates(r, first)
  {
    Outcome(d, [d] + o.causes)
  }

  /** The earliest cause an outcome still names. */
  predicate Originates(o: Outcome, d: Disposition) {
    |o.causes| > 0 && o.causes[|o.causes| - 1] == d
  }

  function Amended(o: Outcome, ds: seq<Disposition>): Outcome {
    if ds == [] then o else Amend(Amended(o, ds[..|ds| - 1]), ds[|ds| - 1])
  }

  /**
    However often an outcome is amended after it was chosen, it reports the last amendment and still names,
    as its earliest cause, what was decided first.
   */
  lemma {:induction false} AmendmentsKeepTheOrigin(o: Outcome, ds: seq<Disposition>, first: Disposition)
    requires Originates(o, first)
    ensures Originates(Amended(o, ds), first) && |Amended(o, ds).causes| == |o.causes| + |ds|
    ensures ds != [] ==> Amended(o, ds).disposition == ds[|ds| - 1]
    ensures forall d <- ds :: d in Amended(o, ds).causes
  {
    if ds != [] {
      AmendmentsKeepTheOrigin(o, ds[..|ds| - 1], first);
      assert ds == ds[..|ds| - 1] + [ds[|ds| - 1]];
    }
  }

  datatype Failure = Failure(cancelled: bool)

  /** `classifyPhaseFailure`: a phase that ended because it was cancelled is a cancellation. */
  function PhaseFailure(phase: Disposition, f: Failure): Outcome {
    var d := if f.cancelled then Cancelled else phase;
    Outcome(d, [d])
  }

  // -------------------------------------------------------------------- trace

  /** What the run does to the worker and the cluster, in the order it does it. */
  datatype Action = AcquireWorker | OpenWindow | Create | CloseWindow | TearDown | Release | Hold

  /** Which actions a trace contains. */
  datatype Seen = Seen(
    acquired: bool, watched: bool, created: bool, closed: bool, tornDown: bool, released: bool, held: bool)

  const NOTHING := Seen(false, false, false, false, false, false, false)

  function Mark(s: Seen, a: Action): Seen {
    match a
    case AcquireWorker => s.(acquired := true)
    case OpenWindow => s.(watched := true)
    case Create => s.(created := true)
    case CloseWindow => s.(closed := true)
    case TearDown => s.(tornDown := true)
    case Release => s.(released := true)
    case Hold => s.(held := true)
  }

  function SeenOf(t: seq<Action>): Seen {
    if t == [] then NOTHING else Mark(SeenOf(t[..|t| - 1]), t[|t| - 1])
  }

  predicate Did(s: Seen, a: Action) {
    match a
    case AcquireWorker => s.acquired
    case OpenWindow => s.watched
    case Create => s.created
    case CloseWindow => s.closed
    case TearDown => s.tornDown
    case Release => s.released
    case Hold => s.held
  }

  lemma MarkAdds(s: Seen, a: Action, b: Action)
    ensures Did(Mark(s, a), b) <==> Did(s, b) || a == b
  {
  }

  lemma {:induction false} SeenIsMembership(t: seq<Action>, a: Action)
    ensures Did(SeenOf(t), a) <==> a in t
  {
    if t == [] {
      assert !Did(NOTHING, a);
    } else {
      var rest, last := t[..|t| - 1], t[|t| - 1];
      SeenIsMembership(rest, a);
      MarkAdds(SeenOf(rest), last, a);
      assert a in t <==> a in rest || last == a by { assert t == rest + [last]; }
    }
  }

  /** What may come next: the ordering rules the deferred calls exist to keep. */
  predicate Permits(s: Seen, a: Action) {
    match a
    case AcquireWorker => s == NOTHING
    case OpenWindow => s.acquired && !s.watched && !s.released && !s.held
    case Create => s.watched && !s.closed && !s.tornDown && !s.released && !s.held
    case CloseWindow => s.watched && !s.closed && !s.released
    case TearDown => s.watched && !s.tornDown && !s.released && !s.held
    case Release => s.acquired && !s.released && !s.held && (s.watched ==> s.closed && s.tornDown)
    case Hold => s.tornDown && !s.released && !s.held
  }

  predicate Orderly(t: seq<Action>) {
    t == [] || (Orderly(t[..|t| - 1]) && Permits(SeenOf(t[..|t| - 1]), t[|t| - 1]))
  }

  lemma {:induction false} OrderlyAt(t: seq<Action>, i: nat)
    requires Orderly(t) && i < |t|
    ensures Permits(SeenOf(t[..i]), t[i])
    ensures forall a :: Did(SeenOf(t[..i]), a) <==> a in t[..i]
  {
    forall a ensures Did(SeenOf(t[..i]), a) <==> a in t[..i] {
      SeenIsMembership(t[..i], a);
    }
    if i < |t| - 1 {
      OrderlyAt(t[..|t| - 1], i);
      assert t[..|t| - 1][..i] == t[..i];
    }
  }

  lemma NothingOpensAfterRelease(t: seq<Action>, i: nat, w: nat)
    requires Orderly(t) && i <= w < |t| && t[i] == Release
    ensures t[w] != OpenWindow
  {
    OrderlyAt(t, w);
    assert i < w ==> t[i] in t[..w];
  }

  /**
    What an orderly trace means: everything but creating happens at most once; a release and a hold exclude
    each other; teardown and closing precede any release of a watched worker; nothing is created after
    teardown; a hold follows the teardown that called for it.
   */
  lemma OrderlyMeans(t: seq<Action>, i: nat, k: nat)
    requires Orderly(t) && i < |t| && k < |t|
    ensures t[i] == t[k] && t[i] != Create ==> i == k
    ensures t[i] == Release ==> t[k] != Hold
    ensures t[i] == Release && OpenWindow in t ==> TearDown in t[..i] && CloseWindow in t[..i]
    ensures t[i] == TearDown && (t[k] == Create || t[k] == OpenWindow) ==> k < i
    ensures t[i] == Hold && t[k] == TearDown ==> k < i
  {
    OrderlyAt(t, i);
    OrderlyAt(t, k);
    assert i < k ==> t[i] in t[..k];
    assert k < i ==> t[k] in t[..i];
    if t[i] == Release && OpenWindow in t {
      var w :| 0 <= w < |t| && t[w] == OpenWindow;
      if w < i {
        assert t[w] in t[..i];
      } else {
        NothingOpensAfterRelease(t, i, w);
      }
    }
  }

  // -------------------------------------------------------------- environment

  /** The points of `run` that can fail, in the order they are reached. */
  datatype Phase =
    | Connect | BuildTrace | ValidateTrace | BuildSchedule | ResolveVariant | BuildFixtures
    | Acquire | StartSentinel
    | SizeWorker | RenderContract | Qualify
    | EnsureNamespace | ApplyFixtures | StartStreams | Establish
    | ReachHorizon | Reconstruct | Cardinality

  datatype ScheduleStep = ScheduleStep(barrier: Option<Failure>, submit: Option<Failure>)

  datatype TearDownResult = CouldNotRun | LeftStanding(residue: seq<ResidueEntry>)

  predicate KeepsWorker(r: TearDownResult) {
    r.CouldNotRun? || HoldsWorker(r.residue)
  }

  predicate LeavesResidue(r: TearDownResult) {
    r.CouldNotRun? || r.residue != []
  }

  /** Everything the cluster answers in one run; every value is possible. */
  datatype Env = Env(
    fails: Phase -> Option<Failure>,
    schedule: seq<ScheduleStep>,
    streamLost: bool,
    windowViolated: bool,
    teardown: TearDownResult,
    releaseFails: bool,
    observesDevice: bool)

  // -------------------------------------------------------------------- defers

  /** The deferred calls in the order `run` registers them. */
  datatype Deferred =
    | EmergencyRelease | PublishWindow | DeferredTearDown | CancelStreams | CaptureEvidence
    | CancelDevice | JoinDevice

  const REGISTERED := [EmergencyRelease, PublishWindow, DeferredTearDown, CancelStreams, CaptureEvidence,
                       CancelDevice, JoinDevice]

  /** Which call is on top says how many are left. */
  lemma TopOfStack(defers: seq<Deferred>)
    requires 0 < |defers| <= |REGISTERED| && defers == REGISTERED[..|defers|]
    ensures defers[|defers| - 1] == EmergencyRelease <==> |defers| == 1
    ensures defers[|defers| - 1] == PublishWindow <==> |defers| == 2
    ensures defers[|defers| - 1] == DeferredTearDown <==> |defers| == 3
  {
  }

  // ------------------------------------------------------- what a clean run is

  predicate Clears(env: Env, p: Phase) {
    env.fails(p).None?
  }

  predicate Prepares(env: Env) {
    && Clears(env, Connect) && Clears(env, BuildTrace) && Clears(env, ValidateTrace)
    && Clears(env, BuildSchedule) && Clears(env, ResolveVariant) && Clears(env, BuildFixtures)
  }

  predicate SetsUp(env: Env) {
    && Clears(env, SizeWorker) && Clears(env, RenderContract) && Clears(env, Qualify)
    && Clears(env, EnsureNamespace) && Clears(env, ApplyFixtures)
    && Clears(env, StartStreams) && Clears(env, Establish)
  }

  predicate Submits(schedule: seq<ScheduleStep>) {
    forall s <- schedule :: s.barrier.None? && s.submit.None?
  }

  lemma SubmitsOneMore(schedule: seq<ScheduleStep>, i: nat)
    requires i < |schedule|
    ensures Submits(schedule[..i + 1]) <==> Submits(schedule[..i]) && Submits([schedule[i]])
    ensures Submits(schedule) ==> Submits([schedule[i]])
  {
    assert schedule[..i + 1] == schedule[..i] + [schedule[i]];
    assert schedule[i] in [schedule[i]];
  }

  predicate ReadsOff(env: Env) {
    && Clears(env, ReachHorizon) && !env.streamLost && !env.windowViolated
    && Clears(env, Reconstruct) && Clears(env, Cardinality)
  }

  /** Nothing at all went wrong, up to and including the proof that the worker was restored. */
  predicate AllClear(env: Env) {
    && Prepares(env) && Clears(env, Acquire) && Clears(env, StartSentinel) && SetsUp(env)
    && Submits(env.schedule) && ReadsOff(env)
    && !LeavesResidue(env.teardown) && !env.releaseFails
  }

  /** What a failing phase makes of the run. */
  function At(env: Env, p: Phase, d: Disposition): Option<Disposition> {
    match env.fails(p)
    case None => None
    case Some(f) => Some(PhaseFailure(d, f).disposition)
  }

  function Else(first: Option<Disposition>, next: Option<Disposition>): Option<Disposition> {
    if first.Some? then first else next
  }

  function PrepareVerdict(env: Env): Option<Disposition> {
    Else(At(env, Connect, ClientFailed),
    Else(At(env, BuildTrace, ProtocolBuildFailed),
    Else(At(env, ValidateTrace, ProtocolBuildFailed),
    Else(At(env, BuildSchedule, ProtocolBuildFailed),
    Else(At(env, ResolveVariant, SetupFailed),
         At(env, BuildFixtures, SetupFailed))))))
  }

  function CreateVerdict(env: Env): Option<Disposition> {
    Else(At(env, SizeWorker, EnvironmentUnqualified),
    Else(At(env, RenderContract, EnvironmentUnqualified),
    Else(At(env, Qualify, EnvironmentUnqualified),
    Else(At(env, EnsureNamespace, SetupFailed),
         At(env, ApplyFixtures, SetupFailed)))))
  }

  function SetUpVerdict(env: Env): Option<Disposition> {
    Else(CreateVerdict(env), Else(At(env, StartStreams, SetupFailed), At(env, Establish, SetupFailed)))
  }

  /** A cancelled barrier wait cancels the run; any other missed barrier only ends the schedule. */
  function StepVerdict(step: ScheduleStep): Option<Disposition> {
    match step.barrier
    case Some(f) => if f.cancelled then Some(Cancelled) else None
    case None => if step.submit.Some? then Some(PhaseFailure(SetupFailed, step.submit.value).disposition) else None
  }

  function ScheduleVerdict(schedule: seq<ScheduleStep>): Option<Disposition> {
    if schedule == [] then None
    else if StepVerdict(schedule[0]).Some? || schedule[0].barrier.Some? then StepVerdict(schedule[0])
    else ScheduleVerdict(schedule[1..])
  }

  /** The schedule is decided by its first step that does not go through. */
  lemma {:induction false} FirstStepDecides(schedule: seq<ScheduleStep>, i: nat)
    requires i <= |schedule| && Submits(schedule[..i])
    ensures i == |schedule| ==> ScheduleVerdict(schedule) == None
    ensures i < |schedule| && !Submits([schedule[i]]) ==> ScheduleVerdict(schedule) == StepVerdict(schedule[i])
  {
    if 0 < i {
      assert schedule[0] == schedule[..i][0];
      assert schedule[1..][..i - 1] == schedule[..i][1..];
      FirstStepDecides(schedule[1..], i - 1);
    }
  }

  /** `ledgerLost`: some barrier was missed, a stream was lost, or the worker was not exclusive. */
  function ReadOffVerdict(env: Env, ledgerLost: bool): Option<Disposition> {
    Else(At(env, ReachHorizon, Cancelled),
    Else(if ledgerLost then Some(CollectorDesync) else None,
    Else(At(env, Reconstruct, ReconstructRefused),
         At(env, Cardinality, CardinalityRefused))))
  }

  function OpenVerdict(env: Env): Option<Disposition> {
    Else(PrepareVerdict(env), Else(At(env, Acquire, AcquisitionRefused), At(env, StartSentinel, SetupFailed)))
  }

  function MeasureVerdict(env: Env): Option<Disposition> {
    Else(SetUpVerdict(env),
    Else(ScheduleVerdict(env.schedule),
         ReadOffVerdict(env, !Submits(env.schedule) || env.streamLost || env.windowViolated)))
  }

  /** The first thing that goes wrong before teardown, as the disposition it is recorded under. */
  function Verdict(env: Env): Option<Disposition> {
    Else(OpenVerdict(env), MeasureVerdict(env))
  }

  /** The body decides nothing before teardown exactly when nothing has gone wrong before it. */
  lemma NoVerdictExactlyWhenClear(env: Env)
    ensures Verdict(env).None? <==>
              && Prepares(env) && Clears(env, Acquire) && Clears(env, StartSentinel) && SetsUp(env)
              && Submits(env.schedule) && ReadsOff(env)
  {
    if Submits(env.schedule) {
      assert env.schedule[..|env.schedule|] == env.schedule;
      FirstStepDecides(env.schedule, |env.schedule|);
    }
  }

  /** The place of a phase in the run. */
  function Place(p: Phase): nat {
    match p
    case Connect => 0
    case BuildTrace => 1
    case ValidateTrace => 2
    case BuildSchedule => 3
    case ResolveVariant => 4
    case BuildFixtures => 5
    case Acquire => 6
    case StartSentinel => 7
    case SizeWorker => 8
    case RenderContract => 9
    case Qualify => 10
    case EnsureNamespace => 11
    case ApplyFixtures => 12
    case StartStreams => 13
    case Establish => 14
    case ReachHorizon => 15
    case Reconstruct => 16
    case Cardinality => 17
  }

  /** What a failure of the phase is recorded as, unless it was cancelled. */
  function RecordedAs(p: Phase): Disposition {
    match p
    case Connect => ClientFailed
    case Acquire => AcquisitionRefused
    case ReachHorizon => Cancelled
    case Reconstruct => ReconstructRefused
    case Cardinality => CardinalityRefused
    case _ =>
      if 1 <= Place(p) <= 3 then ProtocolBuildFailed
      else if 8 <= Place(p) <= 10 then EnvironmentUnqualified
      else SetupFailed
  }

  ghost predicate ClearBefore(env: Env, p: Phase) {
    forall q :: Place(q) < Place(p) ==> env.fails(q).None?
  }

  function Cause(env: Env, p: Phase): Disposition
    requires env.fails(p).Some?
  {
    if env.fails(p).value.cancelled then Cancelled else RecordedAs(p)
  }

  lemma NothingAtOpening(env: Env, p: Phase)
    requires ClearBefore(env, p) && Place(p) >= Place(SizeWorker)
    ensures OpenVerdict(env) == None
  {
  }

  lemma NothingAtSetUp(env: Env, p: Phase)
    requires ClearBefore(env, p) && Place(p) >= Place(ReachHorizon)
    ensures OpenVerdict(env) == None && SetUpVerdict(env) == None
  {
    NothingAtOpening(env, p);
  }

  lemma FirstFailureAtOpening(env: Env, p: Phase)
    requires env.fails(p).Some? && ClearBefore(env, p) && Place(p) < Place(SizeWorker)
    ensures OpenVerdict(env) == Some(Cause(env, p))
  {
    assert Place(p) >= Place(Acquire) ==> PrepareVerdict(env) == None;
  }

  lemma FirstFailureAtSetUp(env: Env, p: Phase)
    requires env.fails(p).Some? && ClearBefore(env, p) && Place(SizeWorker) <= Place(p) < Place(ReachHorizon)
    ensures SetUpVerdict(env) == Some(Cause(env, p))
  {
    assert Place(p) >= Place(StartStreams) ==> CreateVerdict(env) == None;
  }

  /**
    The first phase to fail decides the run: it is a cancellation if the failure was one, and otherwise what
    that phase is recorded as.
   */
  lemma FirstFailureDecides(env: Env, p: Phase)
    requires env.fails(p).Some? && ClearBefore(env, p)
    requires Place(p) >= Place(ReachHorizon) ==> Submits(env.schedule)
    requires Place(p) > Place(ReachHorizon) ==> !env.streamLost && !env.windowViolated
    ensures Verdict(env) == Some(if env.fails(p).value.cancelled then Cancelled else RecordedAs(p))
  {
    if Place(p) < Place(SizeWorker) {
      FirstFailureAtOpening(env, p);
    } else if Place(p) < Place(ReachHorizon) {
      NothingAtOpening(env, p);
      FirstFailureAtSetUp(env, p);
    } else {
      NothingAtSetUp(env, p);
      SubmittedWithoutVerdict(env.schedule);
    }
  }

  lemma SubmittedWithoutVerdict(schedule: seq<ScheduleStep>)
    requires Submits(schedule)
    ensures ScheduleVerdict(schedule) == None
  {
    assert schedule[..|schedule|] == schedule;
    FirstStepDecides(schedule, |schedule|);
  }

  /** The first step that does not go through decides a run that got to its schedule. */
  lemma FirstFailedStepDecides(env: Env, i: nat)
    requires ClearBefore(env, ReachHorizon) && i < |env.schedule| && Submits(env.schedule[..i])
    ensures var step := env.schedule[i];
            && (step.barrier.Some? && step.barrier.value.cancelled ==> Verdict(env) == Some(Cancelled))
            && (step.barrier.Some? && !step.barrier.value.cancelled && Clears(env, ReachHorizon) ==>
                  Verdict(env) == Some(CollectorDesync))
            && (step.barrier.None? && step.submit.Some? ==>
                  Verdict(env) == Some(if step.submit.value.cancelled then Cancelled else SetupFailed))
  {
    NothingAtSetUp(env, ReachHorizon);
    FirstStepDecides(env.schedule, i);
    SubmitsOneMore(env.schedule, i);
    assert env.schedule[i] in [env.schedule[i]];
  }

  /** A lost stream or a shared worker spoils the ledger of a run that submitted everything. */
  lemma LostLedgerDecides(env: Env)
    requires ClearBefore(env, Reconstruct) && Submits(env.schedule) && (env.streamLost || env.windowViolated)
    ensures Verdict(env) == Some(CollectorDesync)
  {
    NothingAtSetUp(env, Reconstruct);
    SubmittedWithoutVerdict(env.schedule);
  }

  /** Nothing before teardown is recorded as teardown's or the release's, or as success. */
  lemma VerdictsBeforeTeardown(env: Env)
    ensures Verdict(env).Some? ==> Verdict(env).value !in {Unset, ChecksPassed, WorkerNotRestored, ResidueLeft}
  {
    ScheduleVerdictIs(env.schedule);
  }

  lemma {:induction false} ScheduleVerdictIs(schedule: seq<ScheduleStep>)
    ensures ScheduleVerdict(schedule) in {None, Some(Cancelled), Some(SetupFailed)}
  {
    if schedule != [] {
      ScheduleVerdictIs(schedule[1..]);
    }
  }

  class Runner {
    const env: Env
    var o: Outcome
    var result: bool
    var left: seq<ResidueEntry>
    var releaseAttempted: bool
    var workerHeldForResidue: bool
    var teardownAttempted: bool
    var windowClosed: bool
    var desynced: bool
    var defers: seq<Deferred>
    var trace: seq<Action>
    ghost var seen: Seen
    /** What the body decided, before any deferred call amended it. */
    ghost var chosen: Disposition

    constructor (env: Env)
      ensures this.env == env && Valid() && o == NO_OUTCOME && trace == [] && defers == [] && !desynced
    {
      this.env := env;
      o, result, left := NO_OUTCOME, false, [];
      releaseAttempted, workerHeldForResidue, teardownAttempted, windowClosed := false, false, false, false;
      desynced, defers, trace, seen, chosen := false, [], [], NOTHING, Unset;
    }

    /** The trace is orderly, and the flags say what it says. */
    ghost predicate Recorded()
      reads this
    {
      && seen == SeenOf(trace) && Orderly(trace)
      && (releaseAttempted ==> seen.released)
      && workerHeldForResidue == seen.held
      && teardownAttempted == seen.tornDown
      && windowClosed == seen.closed
      && (seen.held <==> seen.tornDown && KeepsWorker(env.teardown))
      && !(seen.released && seen.held)
    }

    /** Every duty that has fallen due is done or still on the stack, in the order it must be done. */
    ghost predicate Covered()
      reads this
    {
      && |defers| <= |REGISTERED| && defers == REGISTERED[..|defers|]
      && (|defers| >= 1 ==> seen.acquired)
      && (|defers| >= 2 ==> seen.watched)
      && (seen.watched ==> seen.acquired)
      && (seen.tornDown || seen.closed ==> seen.watched)
      && (seen.watched ==> |defers| >= 3 || seen.tornDown)
      && (seen.watched ==> |defers| >= 2 || seen.closed)
      && (seen.acquired ==> |defers| >= 1 || seen.released || seen.held)
      && (seen.released || seen.held ==> seen.acquired)
      && (seen.released && |defers| >= 1 ==> releaseAttempted)
      && (seen.released && seen.watched ==> seen.closed && seen.tornDown)
    }

    /** What the outcome says about the release, the teardown and the result. */
    ghost predicate Accounted()
      reads this
    {
      && o.disposition == (if seen.released && env.releaseFails then WorkerNotRestored
                           else if seen.tornDown && LeavesResidue(env.teardown) then ResidueLeft
                           else chosen)
      && chosen != WorkerNotRestored && chosen != ResidueLeft
      && (chosen != Unset && chosen != ChecksPassed ==> Originates(o, chosen))
      && (result <==> o.disposition == ChecksPassed)
      && (result ==> AllClear(env) && seen.released && seen.tornDown && seen.closed)
      && left == (if seen.tornDown && env.teardown.LeftStanding? then env.teardown.residue else [])
    }

    ghost predicate Valid()
      reads this
    {
      Recorded() && Covered() && Accounted()
    }

    /** The body is still between phases: nothing decided, nothing torn down, nothing released. */
    ghost predicate Running()
      reads this
    {
      && Valid() && o == NO_OUTCOME && chosen == Unset
      && !seen.released && !seen.held && !seen.tornDown
    }

    ghost predicate Stopped()
      reads this
    {
      chosen != Unset && chosen != ChecksPassed
    }

    method Do(a: Action)
      requires seen == SeenOf(trace) && Orderly(trace) && Permits(seen, a)
      modifies this`trace, this`seen
      ensures trace == old(trace) + [a] && seen == Mark(old(seen), a)
      ensures seen == SeenOf(trace) && Orderly(trace)
    {
      trace := trace + [a];
      seen := Mark(seen, a);
      assert trace[..|trace| - 1] == old(trace);
    }

    method Defer(d: Deferred)
      requires |defers| < |REGISTERED| && defers == REGISTERED[..|defers|] && d == REGISTERED[|defers|]
      modifies this`defers
      ensures |defers| == |old(defers)| + 1 && defers == REGISTERED[..|defers|]
    {
      defers := defers + [d];
    }

    // ------------------------------------------------------------ deferred calls

    /** `tearDownBeforeRelease`: what is left is amended into the outcome; holding is decided separately. */
    method TearDownBeforeRelease() returns (hold: bool)
      requires seen == SeenOf(trace) && Orderly(trace) && Permits(seen, TearDown)
      modifies this`o, this`left, this`trace, this`seen
      ensures trace == old(trace) + [TearDown] && seen == Mark(old(seen), TearDown)
      ensures seen == SeenOf(trace) && Orderly(trace)
      ensures hold <==> KeepsWorker(env.teardown)
      ensures o == if LeavesResidue(env.teardown) then Amend(old(o), ResidueLeft) else old(o)
      ensures left == if env.teardown.LeftStanding? then env.teardown.residue else []
    {
      Do(TearDown);
      match env.teardown
      case CouldNotRun =>
        o, left, hold := Amend(o, ResidueLeft), [], true;
      case LeftStanding(residue) =>
        left, hold := residue, false;
        if |residue| != 0 {
          o := Amend(o, ResidueLeft);
          hold := ResidueHoldsWorker(residue);
        }
    }

    /** Teardown, and the hold it may call for; both places that tear down do exactly this. */
    method TearDownAndHold()
      requires Recorded() && seen.watched && !seen.tornDown && !seen.released
      modifies this`o, this`left, this`trace, this`seen, this`teardownAttempted, this`workerHeldForResidue
      ensures Recorded()
      ensures seen == old(seen).(tornDown := true, held := KeepsWorker(env.teardown))
      ensures o == if LeavesResidue(env.teardown) then Amend(old(o), ResidueLeft) else old(o)
      ensures left == if env.teardown.LeftStanding? then env.teardown.residue else []
    {
      teardownAttempted := true;
      workerHeldForResidue := TearDownBeforeRelease();
      if workerHeldForResidue {
        Do(Hold);
      }
    }

    method TearDownOnce()
      requires Valid() && seen.watched && !seen.tornDown
      modifies this`o, this`left, this`trace, this`seen, this`teardownAttempted, this`workerHeldForResidue
      ensures Valid()
      ensures seen == old(seen).(tornDown := true, held := KeepsWorker(env.teardown))
      ensures o == if LeavesResidue(env.teardown) then Amend(old(o), ResidueLeft) else old(o)
    {
      TearDownAndHold();
    }

    method CloseSentinel()
      requires Valid() && seen.watched
      modifies this`windowClosed, this`trace, this`seen
      ensures Valid() && seen == old(seen).(closed := true)
    {
      if !windowClosed {
        Do(CloseWindow);
        windowClosed := true;
      }
    }

    /** The release every early return takes; the named outcome is amended after it was chosen. */
    method EmergencyReleaseCall()
      requires Valid() && |defers| == 1
      modifies this`o, this`trace, this`seen, this`defers
      ensures Valid() && defers == [] && seen.acquired == old(seen).acquired && seen.watched == old(seen).watched
      ensures o.disposition == Unset ==> old(o).disposition == Unset
    {
      defers := [];
      if !releaseAttempted && !workerHeldForResidue {
        Do(Release);
        if env.releaseFails {
          o := Amend(o, WorkerNotRestored);
        }
      }
    }

    method PublishWindowCall()
      requires Valid() && |defers| == 2
      modifies this`windowClosed, this`trace, this`seen, this`defers
      ensures Valid() && |defers| == 1 && seen.acquired == old(seen).acquired && seen.watched == old(seen).watched
    {
      CloseSentinel();
      defers := defers[..1];
    }

    method TearDownCall()
      requires Valid() && |defers| == 3
      modifies this`o, this`left, this`trace, this`seen, this`defers, this`teardownAttempted, this`workerHeldForResidue
      ensures Valid() && |defers| == 2 && seen.acquired == old(seen).acquired && seen.watched == old(seen).watched
      ensures o.disposition == Unset ==> old(o).disposition == Unset
    {
      if !teardownAttempted {
        TearDownOnce();
      }
      defers := defers[..2];
    }

    /** The deferred calls, last registered first. */
    method Unwind()
      requires Valid() && o.disposition != Unset
      modifies this`o, this`left, this`trace, this`seen, this`defers, this`teardownAttempted,
               this`workerHeldForResidue, this`windowClosed
      ensures Valid() && defers == [] && o.disposition != Unset
      ensures seen.acquired == old(seen).acquired && seen.watched == old(seen).watched
    {
      while |defers| > 0
        invariant Valid() && o.disposition != Unset
        invariant seen.acquired == old(seen).acquired && seen.watched == old(seen).watched
        decreases |defers|
      {
        TopOfStack(defers);
        match defers[|defers| - 1]
        case EmergencyRelease => EmergencyReleaseCall();
        case PublishWindow => PublishWindowCall();
        case DeferredTearDown => TearDownCall();
        case _ => StreamCall();
      }
    }

    /** Stopping streams and capturing evidence touch neither the worker nor the outcome. */
    method StreamCall()
      requires Valid() && |defers| > 3
      modifies this`defers
      ensures Valid() && |defers| == |old(defers)| - 1
    {
      defers := defers[..|defers| - 1];
    }

    // ------------------------------------------------------------------ the body

    /** One phase: `go` when it succeeds, the classified failure as the outcome when it does not. */
    method Try(p: Phase, d: Disposition) returns (go: bool)
      requires Running() && d !in {Unset, ChecksPassed, WorkerNotRestored, ResidueLeft}
      modifies this`o, this`chosen
      ensures Valid() && go == Clears(env, p)
      ensures go ==> Running()
      ensures !go ==> Stopped() && At(env, p, d) == Some(chosen)
    {
      match env.fails(p)
      case None => go := true;
      case Some(f) =>
        go, o := false, PhaseFailure(d, f);
        chosen := o.disposition;
    }

    method Prepare() returns (go: bool)
      requires Running()
      modifies this`o, this`chosen
      ensures Valid() && go == Prepares(env)
      ensures if go then Running() else Stopped()
      ensures PrepareVerdict(env) == (if go then None else Some(chosen))
    {
      go := Try(Connect, ClientFailed);
      if !go { return; }
      go := Try(BuildTrace, ProtocolBuildFailed);
      if !go { return; }
      go := Try(ValidateTrace, ProtocolBuildFailed);
      if !go { return; }
      go := Try(BuildSchedule, ProtocolBuildFailed);
      if !go { return; }
      go := Try(ResolveVariant, SetupFailed);
      if !go { return; }
      go := Try(BuildFixtures, SetupFailed);
    }

    /** Acquisition registers the emergency release before anything else can fail. */
    method TakeWorker() returns (go: bool)
      requires Running() && seen == NOTHING && defers == []
      modifies this`o, this`chosen, this`trace, this`seen, this`defers
      ensures Valid() && go == Clears(env, Acquire)
      ensures if go then Running() && |defers| == 1 && !seen.watched && !seen.closed else Stopped() && !seen.acquired
      ensures At(env, Acquire, AcquisitionRefused) == (if go then None else Some(chosen))
    {
      go := Try(Acquire, AcquisitionRefused);
      if go {
        Do(AcquireWorker);
        Defer(EmergencyRelease);
      }
    }

    method Watch() returns (go: bool)
      requires Running() && |defers| == 1 && !seen.watched && !seen.closed
      modifies this`o, this`chosen, this`trace, this`seen, this`defers
      ensures Valid() && go == Clears(env, StartSentinel)
      ensures if go then Running() && |defers| == 3 && seen.watched && !seen.closed
              else Stopped() && seen.acquired && !seen.watched
      ensures At(env, StartSentinel, SetupFailed) == (if go then None else Some(chosen))
    {
      go := Try(StartSentinel, SetupFailed);
      if go {
        Do(OpenWindow);
        Defer(PublishWindow);
        Defer(DeferredTearDown);
      }
    }

    method CreateWith(p: Phase) returns (go: bool)
      requires Running() && seen.watched && !seen.closed
      modifies this`o, this`chosen, this`trace, this`seen
      ensures Valid() && go == Clears(env, p) && seen == old(seen).(created := true)
      ensures if go then Running() else Stopped()
      ensures At(env, p, SetupFailed) == (if go then None else Some(chosen))
    {
      Do(Create);
      go := Try(p, SetupFailed);
    }

    method QualifyAndCreate() returns (go: bool)
      requires Running() && seen.watched && !seen.closed
      modifies this`o, this`chosen, this`trace, this`seen
      ensures Valid() && seen.watched && !seen.closed
      ensures go <==> && Clears(env, SizeWorker) && Clears(env, RenderContract) && Clears(env, Qualify)
                      && Clears(env, EnsureNamespace) && Clears(env, ApplyFixtures)
      ensures if go then Running() else Stopped()
      ensures CreateVerdict(env) == (if go then None else Some(chosen))
    {
      go := Try(SizeWorker, EnvironmentUnqualified);
      if !go { return; }
      go := Try(RenderContract, EnvironmentUnqualified);
      if !go { return; }
      go := Try(Qualify, EnvironmentUnqualified);
      if !go { return; }
      go := CreateWith(EnsureNamespace);
      if !go { return; }
      go := CreateWith(ApplyFixtures);
    }

    method SetUp() returns (go: bool)
      requires Running() && |defers| == 3 && seen.watched && !seen.closed
      modifies this`o, this`chosen, this`trace, this`seen, this`defers
      ensures Valid() && go == SetsUp(env)
      ensures if go then Running() && |defers| >= 3 && seen.watched && !seen.closed else Stopped() && seen.watched
      ensures SetUpVerdict(env) == (if go then None else Some(chosen))
    {
      go := QualifyAndCreate();
      if !go { return; }
      Defer(CancelStreams);
      Defer(CaptureEvidence);
      go := Try(StartStreams, SetupFailed);
      if !go { return; }
      go := Try(Establish, SetupFailed);
      if go && env.observesDevice {
        Defer(CancelDevice);
        Defer(JoinDevice);
      }
    }

    /** One step of the schedule; `go` is false when it ends the run, and a missed barrier desyncs. */
    method SubmitStep(step: ScheduleStep) returns (go: bool)
      requires Running() && seen.watched && !seen.closed && !desynced
      modifies this`o, this`chosen, this`trace, this`seen, this`desynced
      ensures Valid() && seen.watched && !seen.closed && (go && !desynced <==> Submits([step]))
      ensures if go then Running() else Stopped()
      ensures StepVerdict(step) == (if go then None else Some(chosen))
    {
      if step.barrier.Some? {
        if step.barrier.value.cancelled {
          o := PhaseFailure(Cancelled, step.barrier.value);
          chosen := o.disposition;
          return false;
        }
        desynced := true;
        return true;
      }
      Do(Create);
      if step.submit.Some? {
        o := PhaseFailure(SetupFailed, step.submit.value);
        chosen := o.disposition;
        return false;
      }
      return true;
    }

    /** The barrier-staged schedule: a missed barrier ends the submissions and spoils the ledger. */
    method SubmitAll() returns (go: bool)
      requires Running() && seen.watched && !seen.closed && !desynced
      modifies this`o, this`chosen, this`trace, this`seen, this`desynced
      ensures Valid() && (go && !desynced <==> Submits(env.schedule))
      ensures if go then Running() && seen.watched && !seen.closed else Stopped() && seen.watched
      ensures ScheduleVerdict(env.schedule) == (if go then None else Some(chosen))
    {
      go := true;
      for i := 0 to |env.schedule|
        invariant Running() && seen.watched && !seen.closed && !desynced && go
        invariant Submits(env.schedule[..i])
      {
        go := SubmitStep(env.schedule[i]);
        SubmitsOneMore(env.schedule, i);
        if !go || desynced {
          FirstStepDecides(env.schedule, i);
          return;
        }
      }
      assert env.schedule[..|env.schedule|] == env.schedule;
      FirstStepDecides(env.schedule, |env.schedule|);
    }

    /** The horizon, the close of the window, and the gates a result has to pass. */
    method ReadOff() returns (go: bool)
      requires Running() && |defers| >= 3 && seen.watched && !seen.closed
      modifies this`o, this`chosen, this`trace, this`seen, this`desynced, this`windowClosed
      ensures Valid() && (go <==> !old(desynced) && ReadsOff(env))
      ensures if go then Running() && seen.watched && seen.closed else Stopped() && seen.watched
      ensures ReadOffVerdict(env, old(desynced) || env.streamLost || env.windowViolated)
              == (if go then None else Some(chosen))
    {
      CloseSentinel();
      desynced := desynced || env.windowViolated;
      go := Try(ReachHorizon, Cancelled);
      if !go { return; }
      if desynced || env.streamLost {
        o := PhaseFailure(CollectorDesync, Failure(false));
        chosen := o.disposition;
        return false;
      }
      go := Try(Reconstruct, ReconstructRefused);
      if !go { return; }
      go := Try(Cardinality, CardinalityRefused);
    }

    /** The inline release: a failure replaces the outcome rather than amending it. */
    method ReleaseInline()
      requires Valid() && chosen == Unset && |defers| >= 3 && !result
      requires seen.watched && seen.closed && seen.tornDown && !seen.released && !seen.held
      modifies this`o, this`trace, this`seen, this`releaseAttempted
      ensures Valid() && seen == old(seen).(released := true)
      ensures o.disposition == if env.releaseFails then WorkerNotRestored else old(o).disposition
    {
      releaseAttempted := true;
      Do(Release);
      if env.releaseFails {
        o := Outcome(WorkerNotRestored, [WorkerNotRestored]);
      }
    }

    /** Teardown, then the release it allows, then, only if nothing amended the outcome, the result. */
    method Conclude()
      requires Running() && |defers| >= 3 && seen.watched && seen.closed
      requires !LeavesResidue(env.teardown) && !env.releaseFails ==> AllClear(env)
      modifies this`o, this`chosen, this`left, this`result, this`trace, this`seen, this`teardownAttempted,
               this`workerHeldForResidue, this`releaseAttempted
      ensures Valid() && o.disposition != Unset && (result <==> AllClear(env)) && seen.watched
      ensures chosen == Unset || chosen == ChecksPassed
    {
      TearDownOnce();
      if !workerHeldForResidue {
        ReleaseInline();
      }
      if o.disposition == Unset {
        result, o, chosen := true, Outcome(ChecksPassed, []), ChecksPassed;
      }
    }

    lemma TraceMembership()
      requires seen == SeenOf(trace)
      ensures seen.acquired <==> AcquireWorker in trace
      ensures seen.watched <==> OpenWindow in trace
      ensures seen.closed <==> CloseWindow in trace
      ensures seen.tornDown <==> TearDown in trace
      ensures seen.released <==> Release in trace
      ensures seen.held <==> Hold in trace
    {
      SeenIsMembership(trace, AcquireWorker);
      SeenIsMembership(trace, OpenWindow);
      SeenIsMembership(trace, CloseWindow);
      SeenIsMembership(trace, TearDown);
      SeenIsMembership(trace, Release);
      SeenIsMembership(trace, Hold);
    }

    method Open() returns (go: bool)
      requires Running() && seen == NOTHING && defers == []
      modifies this`o, this`chosen, this`trace, this`seen, this`defers
      ensures Valid() && (go <==> Prepares(env) && Clears(env, Acquire) && Clears(env, StartSentinel))
      ensures if go then Running() && |defers| == 3 && seen.watched && !seen.closed else Stopped()
      ensures OpenVerdict(env) == (if go then None else Some(chosen))
      ensures seen.acquired <==> Prepares(env) && Clears(env, Acquire)
      ensures seen.watched <==> Prepares(env) && Clears(env, Acquire) && Clears(env, StartSentinel)
    {
      go := Prepare();
      if !go { return; }
      go := TakeWorker();
      if !go { return; }
      go := Watch();
    }

    method Measure() returns (go: bool)
      requires Running() && |defers| == 3 && seen.watched && !seen.closed && !desynced
      modifies this`o, this`chosen, this`trace, this`seen, this`defers, this`desynced, this`windowClosed
      ensures Valid() && seen.watched && (go <==> SetsUp(env) && Submits(env.schedule) && ReadsOff(env))
      ensures if go then Running() && |defers| >= 3 && seen.watched && seen.closed else Stopped()
      ensures MeasureVerdict(env) == (if go then None else Some(chosen))
    {
      go := SetUp();
      if !go { return; }
      go := SubmitAll();
      if !go { return; }
      go := ReadOff();
    }

    method Body()
      requires Running() && trace == [] && defers == [] && !desynced
      modifies this
      ensures Valid() && o.disposition != Unset && (result <==> AllClear(env))
      ensures seen.acquired <==> Prepares(env) && Clears(env, Acquire)
      ensures seen.watched <==> Prepares(env) && Clears(env, Acquire) && Clears(env, StartSentinel)
      ensures Verdict(env).Some? ==> Verdict(env) == Some(chosen) && Stopped()
      ensures Verdict(env).None? ==> chosen == Unset || chosen == ChecksPassed
    {
      var go := Open();
      if !go { return; }
      go := Measure();
      if !go { return; }
      Conclude();
    }

    /** The body, then the deferred calls. */
    method Finish()
      requires Running() && trace == [] && defers == [] && !desynced
      modifies this
      ensures Valid() && defers == [] && o.disposition != Unset && (result <==> AllClear(env))
      ensures seen.acquired <==> Prepares(env) && Clears(env, Acquire)
      ensures seen.watched <==> Prepares(env) && Clears(env, Acquire) && Clears(env, StartSentinel)
      ensures Verdict(env).Some? ==> Verdict(env) == Some(chosen) && Stopped()
      ensures Verdict(env).None? ==> chosen == Unset || chosen == ChecksPassed
    {
      Body();
      Unwind();
    }

    /**
      Every run, whatever fails: the worker that was acquired is released once or held, never both; a watched
      run is torn down and its window closed, before any release; the worker is held exactly when teardown
      could not run or left something that may be ours; and there is a result exactly when everything,
      restoration included, went right.
     */
    method Run()
      requires Running() && trace == [] && defers == [] && !desynced
      modifies this
      ensures Orderly(trace) && o.disposition != Unset
      ensures AcquireWorker in trace <==> Prepares(env) && Clears(env, Acquire)
      ensures AcquireWorker in trace ==> (Release in trace <==> Hold !in trace)
      ensures OpenWindow in trace <==> Prepares(env) && Clears(env, Acquire) && Clears(env, StartSentinel)
      ensures OpenWindow in trace <==> TearDown in trace
      ensures OpenWindow in trace <==> CloseWindow in trace
      ensures Release in trace || Hold in trace ==> AcquireWorker in trace
      ensures Hold in trace <==> TearDown in trace && KeepsWorker(env.teardown)
      ensures result <==> AllClear(env)
      ensures result <==> o.disposition == ChecksPassed
      ensures left == if TearDown in trace && env.teardown.LeftStanding? then env.teardown.residue else []
      ensures o.disposition == if Release in trace && env.releaseFails then WorkerNotRestored
                               else if TearDown in trace && LeavesResidue(env.teardown) then ResidueLeft
                               else if Verdict(env).Some? then Verdict(env).value else ChecksPassed
      ensures Verdict(env).Some? ==> Originates(o, Verdict(env).value)
    {
      Finish();
      TraceMembership();
    }
  }
}
