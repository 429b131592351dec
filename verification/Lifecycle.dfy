/**
  The run of cmd/queuelabrun/main.go on a cluster: the acquisition, the ownership window, the teardown and the
  audited release are the operations themselves, each against its adversary, and what they answer is what the
  phases of RunPhases are told.  Everything else a run can meet is taken as given.
 */
module Lifecycle {
  import opened Common
  import opened Ownership
  import opened Protocol
  import opened History
  import opened Apply
  import opened Operations
  import opened Teardown
  import TeardownApply
  import Window
  import RunPhases

  // ------------------------------------------------------------ what a run is told

  /** What the operations answered at the points where the run asks them. */
  datatype Answers = Answers(
    refused: Option<RunPhases.Failure>,
    windowViolated: bool,
    teardown: RunPhases.TearDownResult,
    releaseFails: bool)

  /** The given environment, with those answers in place of its own. */
  function Told(given: RunPhases.Env, said: Answers): RunPhases.Env {
    given.(fails := p => if p == RunPhases.Acquire then said.refused else given.fails(p),
           windowViolated := said.windowViolated, teardown := said.teardown, releaseFails := said.releaseFails)
  }

  /** Whether the window would open, so that teardown is due. */
  predicate Watches(env: RunPhases.Env) {
    RunPhases.Clears(env, RunPhases.StartSentinel)
  }

  /** The worker is acquired, so that its teardown and release are due. */
  predicate Takes(env: RunPhases.Env) {
    RunPhases.Prepares(env) && RunPhases.Clears(env, RunPhases.Acquire)
  }

  /** It is kept for what teardown left. */
  predicate Keeps(env: RunPhases.Env) {
    Watches(env) && RunPhases.KeepsWorker(env.teardown)
  }

  lemma ToldSays(given: RunPhases.Env, said: Answers)
    ensures var env := Told(given, said);
            && (Takes(env) <==> RunPhases.Prepares(given) && said.refused.None?)
            && (RunPhases.Prepares(env) <==> RunPhases.Prepares(given))
            && (Watches(env) <==> Watches(given)) && (Keeps(env) <==> KeptFor(given, said))
  {
  }

  /**
    Whether a failed acquisition ended because it was cancelled: a cancelled wait did, a refusal and an exhausted
    retry did not, and of a failed request the transport says.
   */
  function CancelledAcquisition(a: Acquisition, transportCancelled: bool): bool {
    match a
    case Acquired(_) => false
    case Refused(_) => false
    case AcquireConflicts => false
    case NotAcquired(resolution) => resolution.UnresolvedCancelled? || transportCancelled
    case AcquireUnread => transportCancelled
    case Undone => transportCancelled
    case Stranded => transportCancelled
  }

  /** A cancelled wait is a cancellation whatever the transport says; what it says counts for failed requests alone. */
  lemma CancelledExactly(a: Acquisition, transportCancelled: bool)
    ensures CancelledAcquisition(a, transportCancelled) <==>
              || a == NotAcquired(UnresolvedCancelled)
              || (transportCancelled && !a.Acquired? && !a.Refused? && !a.AcquireConflicts?)
  {
  }

  // -------------------------------------------------------------- the whole hold

  /** One hold, from the version that installed the transaction to the version that ended it. */
  ghost predicate WholeHold(h: seq<Version>, a: int, e: int, txID: string) {
    && 0 <= a < e < |h| && Acquires(h[a], txID)
    && (forall m :: a <= m < e ==> HoldsTx(h[m].node, txID))
    && !HoldsTx(h[e].node, txID) && Ends(h[e], txID)
  }

  /**
    The transaction of `j` was installed after version `from` with its complete tuple, held every version from
    then until after `began`, and never will hold one again.
   */
  ghost predicate HeldThroughAndOver(w: World, from: nat, began: nat, j: Journal)
    requires |w.past| > 0
  {
    && Over(w, j.txID)
    && exists a, e :: from < a && began < e && WholeHold(w.past, a, e, j.txID) && HeldBy(w.past[a].node, j)
  }

  /** A hold that reached version `i` and is over: where it began and where it ended. */
  lemma WholeHoldAround(w: World, from: nat, i: nat, txID: string) returns (a: nat, e: nat)
    requires |w.past| > 0 && Inv(w) && from < |w.past| && !Installed(w.past[..from + 1], txID)
    requires i < |w.past| && HoldsTx(w.past[i].node, txID) && Over(w, txID)
    ensures from < a <= i < e && WholeHold(w.past, a, e, txID)
  {
    e := FirstLoss(w.past, i, Latest(w), txID);
    a := AcquiredAt(w.past, e - 1, txID);
    var b := AcquiredAt(w.past, i, txID);
    InstalledAtOnePlace(w.past, a, b, txID);
    InstalledEarly(w.past, from, a, txID);
  }

  lemma InstalledEarly(h: seq<Version>, from: nat, a: nat, txID: string)
    requires from < |h| && a < |h|
    ensures a <= from && Acquires(h[a], txID) ==> Installed(h[..from + 1], txID)
  {
    if a <= from {
      assert h[..from + 1][a] == h[a];
    }
  }

  /** The tuple seen during the hold is the one it was installed with. */
  lemma InstalledUnder(h: seq<Version>, a: nat, k: nat, j: Journal)
    requires Lawful(h) && a < |h| && k < |h| && Acquires(h[a], j.txID) && HeldBy(h[k].node, j)
    ensures HeldBy(h[a].node, j)
  {
    var b := AcquiredAt(h, k, j.txID);
    InstalledAtOnePlace(h, a, b, j.txID);
    EveryVersionIsSound(h, a);
  }

  // ------------------------------------------------------------------ operations

  function KindText(k: Kind): string {
    match k case Namespace => "Namespace" case ClusterQueue => "ClusterQueue" case ResourceFlavor => "ResourceFlavor"
  }

  function AbsenceText(a: Absence): string {
    match a
    case AbsenceUnknown => "unknown"
    case AbsencePresent => "present"
    case AbsenceAbsent => "absent"
    case AbsenceForeign => "foreign"
  }

  /** What the note on the worker says of one residue entry. */
  function NoteOfEntry(e: ResidueEntry): Left {
    Left(KindText(e.sighting.target.kind), e.sighting.target.name, AbsenceText(e.absence))
  }

  function NotesOf(residue: seq<ResidueEntry>): seq<Left> {
    seq(|residue|, i requires 0 <= i < |residue| => NoteOfEntry(residue[i]))
  }

  /** The note names every entry by its kind and name and by the verdict that was reached on it. */
  lemma NotesName(residue: seq<ResidueEntry>, i: nat)
    requires i < |residue|
    ensures |NotesOf(residue)| == |residue| && NotesOf(residue)[i].name == residue[i].sighting.target.name
    ensures NotesOf(residue)[i].kind == "Namespace" <==> residue[i].sighting.target.kind == Namespace
    ensures NotesOf(residue)[i].kind == "ClusterQueue" <==> residue[i].sighting.target.kind == ClusterQueue
    ensures NotesOf(residue)[i].kind == "ResourceFlavor" <==> residue[i].sighting.target.kind == ResourceFlavor
    ensures NotesOf(residue)[i].absence == "present" <==> residue[i].absence == AbsencePresent
    ensures NotesOf(residue)[i].absence == "foreign" <==> residue[i].absence == AbsenceForeign
    ensures NotesOf(residue)[i].absence == "unknown" <==> residue[i].absence == AbsenceUnknown
  {
    assert "Namespace"[0] == 'N' && "ClusterQueue"[0] == 'C' && "ResourceFlavor"[0] == 'R';
    assert "present"[0] == 'p' && "foreign"[0] == 'f' && "unknown"[0] == 'u' && "absent"[0] == 'a';
  }

  /** Something is left that has to be named on the worker. */
  predicate Noted(r: RunPhases.TearDownResult) {
    r.LeftStanding? && HoldsWorker(r.residue)
  }

  /** An operator mode was gone through with this operation, whatever came of it. */
  ghost predicate OperatorAnswered(op: Op, log: seq<Option<nat>>, log': seq<Option<nat>>, sent: seq<Reply>,
                                   replies: seq<Reply>, h: seq<Version>)
  {
    exists r :: OperatorAnswers(r, op, log, log', sent, replies, h)
  }

  /** Whatever stands at the run's targets is this transaction's own and not yet terminating. */
  predicate OursAlone(s: Seed, objects: map<Target, TeardownApply.Obj>) {
    TargetsOf(s).Some? &&
    forall t <- TargetsOf(s).value :: t in objects ==> objects[t].stamp == s.txID && !objects[t].terminating
  }

  /** The teardown of a watched run, and the note that is left on a worker it has to keep. */
  method TearDown(c: Cluster, st: TeardownApply.ObjectStore, s: Seed, j: Journal, budget: nat, at: string,
                  path: string)
    returns (r: RunPhases.TearDownResult)
    requires c.Valid() && st.Valid()
    modifies c`world, c`script, c`log, c`replies, st
    ensures c.Valid() && Meanwhile(old(c.world), c.world, c.mine)
    ensures st.Valid() && TeardownApply.OnlyOurs(st.struck, st.born, s.txID)
    ensures TargetsOf(s).Some? && !RunPhases.LeavesResidue(r) ==> forall t <- TargetsOf(s).value :: t in st.gone
    ensures r.CouldNotRun? <==> TargetsOf(s).None?
    ensures OursAlone(s, old(st.objects)) && old(st.script) == [] ==> r == RunPhases.LeftStanding([])
    ensures !Noted(r) ==>
              && c.world == old(c.world) && c.script == old(c.script) && c.log == old(c.log)
              && c.replies == old(c.replies)
    ensures Noted(r) ==>
              OperatorAnswered(Stamp(j, NotesOf(r.residue), at, path), old(c.log), c.log, old(c.replies), c.replies,
                               c.world.past)
    ensures Noted(r) && old(c.script) == [] && HeldBy(Now(old(c.world)), j) ==>
              Now(c.world).residue == ResidueText(Residue(1, j.txID, j.runID, at, path, NotesOf(r.residue)))
  {
    var residue := TeardownApply.DeleteTargets(st, s, s.txID, budget);
    if residue.None? {
      return RunPhases.CouldNotRun;
    }
    r := RunPhases.LeftStanding(residue.value);
    OursLeaveNothing(s, old(st.objects), residue.value);
    var hold := ResidueHoldsWorker(residue.value);
    if hold {
      var stamped := StampResidue(c, j, NotesOf(residue.value), at, path);
    }
  }

  lemma OursLeaveNothing(s: Seed, objects: map<Target, TeardownApply.Obj>, left: seq<ResidueEntry>)
    requires TargetsOf(s).Some? && forall e <- left :: e.sighting.target in TargetsOf(s).value
    ensures OursAlone(s, objects) ==> forall t <- TargetsOf(s).value :: !TeardownApply.Dying(t, objects, s.txID)
    ensures OursAlone(s, objects) ==>
              (forall e <- left :: TeardownApply.Anothers(e.sighting.target, objects, s.txID)) ==> left == []
  {
    assert left != [] ==> left[0] in left;
  }

  /** The one release of a worker that teardown does not keep. */
  method GiveBack(c: Cluster, j: Journal, ghost from: nat) returns (ok: bool, ghost began: nat)
    requires c.Valid() && j.txID == c.mine && from < |c.world.past|
    requires !Installed(c.world.past[..from + 1], c.mine) && SeenHeld(c.world.past, from, j)
    modifies c`world, c`script, c`log, c`waits, c`replies, c`releases
    ensures c.Valid() && Meanwhile(old(c.world), c.world, c.mine)
    ensures c.releases == old(c.releases) + [began] && Latest(old(c.world)) <= began
    ensures ok ==> HeldThroughAndOver(c.world, from, began, j)
    ensures |c.log| > 0 && (ok <==> Window.RestoredBefore(old(c.replies), c.replies, c.log, c.world.past, j))
    ensures old(c.script) == [] ==> (ok <==> Releasable(Now(old(c.world)), j))
  {
    ghost var w := c.world;
    var audit, r;
    audit, r, began := Window.AuditedRelease(c, j);
    ok := r.Ok?;
    if ok {
      ghost var i :| began <= i && HeldUntil(c.world.past, i, j.txID);
      ExtendsTrans(w, c.world, c.world);
      HoldOfRelease(w, c.world, from, began, i, j);
    }
  }

  lemma HoldOfRelease(w: World, w': World, from: nat, began: nat, i: nat, j: Journal)
    requires |w.past| > 0 && |w'.past| > 0 && Inv(w') && |w.past| <= |w'.past|
    requires forall m :: 0 <= m < |w.past| ==> w'.past[m] == w.past[m]
    requires from < |w.past| && !Installed(w.past[..from + 1], j.txID) && SeenHeld(w.past, from, j)
    requires began <= i && HeldUntil(w'.past, i, j.txID) && Over(w', j.txID)
    ensures HeldThroughAndOver(w', from, began, j)
  {
    assert w'.past[..from + 1] == w.past[..from + 1];
    var a, e := WholeHoldAround(w', from, i, j.txID);
    var k :| from <= k < |w.past| && HeldBy(w.past[k].node, j);
    InstalledUnder(w'.past, a, k, j);
  }

  /** The window saw this transaction's tuple on every version, and its own caller ended it. */
  ghost predicate CleanWindow(arrivals: seq<Window.Arrival>, e: nat, j: Journal)
    requires Window.Drained(arrivals, e)
  {
    && Window.AllVersionsCarry(arrivals, j)
    && !arrivals[e].end.lastStatus && (arrivals[e].end.cancelled || arrivals[e].end.stopped)
  }

  /** Teardown is due and what it left keeps the worker. */
  predicate KeptFor(given: RunPhases.Env, said: Answers) {
    Watches(given) && RunPhases.KeepsWorker(said.teardown)
  }

  /** What a run that acquired its worker is told of its window and teardown is true of the cluster. */
  ghost predicate Backed(given: RunPhases.Env, said: Answers, s: Seed, j: Journal, arrivals: seq<Window.Arrival>,
                         e: nat, st: TeardownApply.ObjectStore)
    reads st
    requires Window.Drained(arrivals, e)
  {
    && j.txID == s.txID
    && (Watches(given) ==> TeardownApply.OnlyOurs(st.struck, st.born, s.txID))
    && (Watches(given) ==> (!said.windowViolated <==> CleanWindow(arrivals, e, j)))
    && (Watches(given) && !RunPhases.LeavesResidue(said.teardown) && TargetsOf(s).Some? ==>
          forall t <- TargetsOf(s).value :: t in st.gone)
  }

  /** There was one release, unless the worker was kept, and what is said of it is true of the Node. */
  ghost predicate GivenBack(given: RunPhases.Env, said: Answers, j: Journal, w: World, from: nat, before: seq<nat>,
                            after: seq<nat>)
    requires |w.past| > 0
  {
    if KeptFor(given, said) then after == before
    else
      && |after| == |before| + 1 && after[..|before|] == before
      && (!said.releaseFails ==> HeldThroughAndOver(w, from, after[|before|], j))
  }

  /** The window and the teardown of a run that acquired its worker. */
  method WatchAndTearDown(c: Cluster, st: TeardownApply.ObjectStore, s: Seed, j: Journal, budget: nat, at: string,
                          path: string, arrivals: seq<Window.Arrival>, ghost e: nat)
    returns (violated: bool, teardown: RunPhases.TearDownResult)
    requires c.Valid() && st.Valid() && Window.Drained(arrivals, e)
    modifies c`world, c`script, c`log, c`replies, st
    ensures c.Valid() && Meanwhile(old(c.world), c.world, c.mine)
    ensures st.Valid() && TeardownApply.OnlyOurs(st.struck, st.born, s.txID)
    ensures !violated <==> CleanWindow(arrivals, e, j)
    ensures TargetsOf(s).Some? && !RunPhases.LeavesResidue(teardown) ==>
              forall t <- TargetsOf(s).value :: t in st.gone
    ensures OursAlone(s, old(st.objects)) && old(st.script) == [] ==> teardown == RunPhases.LeftStanding([])
    ensures !RunPhases.KeepsWorker(teardown) ==>
              c.world == old(c.world) && c.script == old(c.script) && c.replies == old(c.replies)
  {
    var verdict := Window.JudgeWindow(j, arrivals, e);
    violated := verdict.Some?;
    teardown := TearDown(c, st, s, j, budget, at, path);
  }

  /** The run between its acquisition and its release. */
  method UpToRelease(c: Cluster, st: TeardownApply.ObjectStore, s: Seed, j: Journal, budget: nat, at: string,
                     path: string, given: RunPhases.Env, arrivals: seq<Window.Arrival>, ghost e: nat)
    returns (said: Answers)
    requires c.Valid() && st.Valid() && j.txID == s.txID && Window.Drained(arrivals, e)
    modifies c`world, c`script, c`log, c`replies, st
    ensures c.Valid() && Meanwhile(old(c.world), c.world, c.mine) && st.Valid() && said.refused.None?
    ensures Backed(given, said, s, j, arrivals, e, st)
    ensures Watches(given) && OursAlone(s, old(st.objects)) && old(st.script) == [] ==>
              said.teardown == RunPhases.LeftStanding([])
    ensures !KeptFor(given, said) ==> c.replies == old(c.replies) && (old(c.script) == [] ==> c.Quiet(old(c.world)))
  {
    var during := c.Elapse();
    ghost var w1 := c.world;
    said := Answers(None, given.windowViolated, given.teardown, false);
    if Watches(given) {
      var violated, teardown := WatchAndTearDown(c, st, s, j, budget, at, path, arrivals, e);
      said := said.(windowViolated := violated, teardown := teardown);
      MeanwhileTrans(old(c.world), w1, c.world, c.mine);
    }
  }

  /** Nobody else is at work on the Node or on the run's objects. */
  predicate Calm(script: seq<Turn>, storeScript: seq<TeardownApply.Moment>, objects: map<Target, TeardownApply.Obj>,
                 s: Seed)
  {
    script == [] && storeScript == [] && OursAlone(s, objects)
  }

  /** Everything that follows an acquisition: the measurement, the teardown if it is due, the release if it may be. */
  method AfterAcquiring(c: Cluster, st: TeardownApply.ObjectStore, s: Seed, j: Journal, budget: nat, at: string,
                        path: string, given: RunPhases.Env, arrivals: seq<Window.Arrival>, ghost e: nat,
                        ghost from: nat)
    returns (said: Answers)
    requires c.Valid() && j.txID == c.mine == s.txID && from < |c.world.past| && st.Valid()
    requires !Installed(c.world.past[..from + 1], c.mine) && SeenHeld(c.world.past, from, j)
    requires Window.Drained(arrivals, e)
    modifies c`world, c`script, c`log, c`waits, c`replies, c`releases, st
    ensures c.Valid() && st.Valid() && said.refused.None?
    ensures Backed(given, said, s, j, arrivals, e, st)
    ensures GivenBack(given, said, j, c.world, from, old(c.releases), c.releases)
    ensures !KeptFor(given, said) ==>
              |c.log| > 0
              && (!said.releaseFails <==> Window.RestoredBefore(old(c.replies), c.replies, c.log, c.world.past, j))
    ensures Calm(old(c.script), old(st.script), old(st.objects), s) && HeldBy(Now(old(c.world)), j) ==>
              && !said.releaseFails && (Watches(given) ==> said.teardown == RunPhases.LeftStanding([]))
  {
    ghost var w0 := c.world;
    said := UpToRelease(c, st, s, j, budget, at, path, given, arrivals, e);
    ExtendsTrans(w0, c.world, c.world);
    StillSeen(w0.past, c.world.past, from, j);
    if !KeptFor(given, said) {
      var ok, began := GiveBack(c, j, from);
      said := said.(releaseFails := !ok);
    }
  }

  lemma StillSeen(h: seq<Version>, h': seq<Version>, from: nat, j: Journal)
    requires |h| <= |h'| && forall i :: 0 <= i < |h| ==> h'[i] == h[i]
    requires from < |h|
    ensures h'[..from + 1] == h[..from + 1] && (SeenHeld(h, from, j) ==> SeenHeld(h', from, j))
  {
    if SeenHeld(h, from, j) {
      var k :| from <= k < |h| && HeldBy(h[k].node, j);
      assert HeldBy(h'[k].node, j);
    }
  }

  /** Left alone, a free worker is acquired under its own journal and any other is refused, not cancelled. */
  ghost predicate AcquiredWhenFree(refused: Option<RunPhases.Failure>, j: Journal, n: Node, s: Seed, at: string) {
    if Free(n) then refused.None? && j == JournalFor(n, IdentityOf(s), at)
    else refused == Some(RunPhases.Failure(false))
  }

  /** The transport says the request for the worker was cancelled. */
  predicate Interrupted(given: RunPhases.Env) {
    given.fails(RunPhases.Acquire).Some? && given.fails(RunPhases.Acquire).value.cancelled
  }

  /** The acquisition failed as the server's log has it, and counts as cancelled if that is how it ended. */
  ghost predicate RefusedBy(given: RunPhases.Env, refused: Option<RunPhases.Failure>, sent: seq<Reply>,
                            replies: seq<Reply>, log: seq<Option<nat>>, w: World, id: Identity)
    requires |w.past| > 0
  {
    exists took: Acquisition :: !took.Acquired? && AcquireAnswers(took, sent, replies, log, w, id)
                && refused == Some(RunPhases.Failure(CancelledAcquisition(took, Interrupted(given))))
  }

  /** The operations of a run, as far as it gets to them. */
  method Operate(c: Cluster, st: TeardownApply.ObjectStore, s: Seed, budget: nat, clock: nat -> string, at: string,
                 path: string, given: RunPhases.Env, arrivals: seq<Window.Arrival>, ghost e: nat)
    returns (said: Answers, ghost j: Journal, ghost sent: seq<Reply>)
    requires c.Valid() && c.mine == s.txID && !Installed(c.world.past, c.mine) && NoneInFlight(c.world, c.mine)
    requires st.Valid() && Window.Drained(arrivals, e)
    requires RunPhases.Prepares(given) && WellFormedIdentity(IdentityOf(s))
    modifies c`world, c`script, c`log, c`waits, c`replies, c`releases, st
    ensures c.Valid() && st.Valid()
    ensures said.refused.None? ==>
              && Backed(given, said, s, j, arrivals, e, st)
              && GivenBack(given, said, j, c.world, old(Latest(c.world)), old(c.releases), c.releases)
    ensures said.refused.Some? ==>
              && c.releases == old(c.releases)
              && RefusedBy(given, said.refused, old(c.replies), c.replies, c.log, c.world, IdentityOf(s))
    ensures said.refused.None? && !KeptFor(given, said) ==>
              && Grows(old(c.replies), sent) && |c.log| > 0
              && (!said.releaseFails <==> Window.RestoredBefore(sent, c.replies, c.log, c.world.past, j))
    ensures old(c.script) == [] ==> AcquiredWhenFree(said.refused, j, old(Now(c.world)), s, clock(0))
    ensures Calm(old(c.script), old(st.script), old(st.objects), s) && Free(old(Now(c.world))) ==>
              !said.releaseFails && (Watches(given) ==> said.teardown == RunPhases.LeftStanding([]))
  {
    ghost var w0 := c.world;
    j := ZERO_JOURNAL;
    var acquisition := AcquireWorker(c, IdentityOf(s), clock);
    sent := c.replies;
    if !acquisition.Acquired? {
      var failure := RunPhases.Failure(CancelledAcquisition(acquisition, Interrupted(given)));
      return Answers(Some(failure), given.windowViolated, given.teardown, given.releaseFails), j, sent;
    }
    j := acquisition.journal;
    ExtendsTrans(w0, c.world, c.world);
    assert c.world.past[..Latest(w0) + 1] == w0.past;
    said := AfterAcquiring(c, st, s, acquisition.journal, budget, at, path, given, arrivals, e, Latest(w0));
  }

  // ---------------------------------------------------------------------- the run

  /** What a run reports: a failed release before anything, then what was left behind, then its own verdict. */
  function Reported(env: RunPhases.Env): RunPhases.Disposition {
    if Takes(env) && !Keeps(env) && env.releaseFails then RunPhases.WorkerNotRestored
    else if Takes(env) && Watches(env) && RunPhases.LeavesResidue(env.teardown) then RunPhases.ResidueLeft
    else if RunPhases.Verdict(env).Some? then RunPhases.Verdict(env).value
    else RunPhases.ChecksPassed
  }

  /** Everything a run is given, beside what its worker, window and teardown answer, went right. */
  predicate ClearOtherwise(given: RunPhases.Env) {
    && RunPhases.Prepares(given) && Watches(given) && RunPhases.SetsUp(given) && RunPhases.Submits(given.schedule)
    && RunPhases.Clears(given, RunPhases.ReachHorizon) && !given.streamLost
    && RunPhases.Clears(given, RunPhases.Reconstruct) && RunPhases.Clears(given, RunPhases.Cardinality)
  }

  lemma ToldClear(given: RunPhases.Env, said: Answers)
    ensures RunPhases.AllClear(Told(given, said)) <==>
              && ClearOtherwise(given) && said.refused.None? && !said.windowViolated && !said.releaseFails
              && !RunPhases.LeavesResidue(said.teardown)
  {
  }

  /** No phase of a run is recorded as a worker that was not given back. */
  lemma OnlyTheReleaseSaysSo(env: RunPhases.Env)
    ensures Reported(env) == RunPhases.WorkerNotRestored <==> Takes(env) && !Keeps(env) && env.releaseFails
  {
    RunPhases.VerdictsBeforeTeardown(env);
  }

  /** A refused acquisition is what a prepared run reports, or its cancellation. */
  lemma ToldRefused(given: RunPhases.Env, said: Answers)
    requires RunPhases.Prepares(given)
    ensures said.refused.Some? ==>
              Reported(Told(given, said))
              == if said.refused.value.cancelled then RunPhases.Cancelled else RunPhases.AcquisitionRefused
  {
  }

  /** The phases and the deferred calls, told those answers. */
  method Decide(env: RunPhases.Env) returns (o: RunPhases.Outcome, result: bool, trace: seq<RunPhases.Action>)
    ensures result <==> RunPhases.AllClear(env)
    ensures RunPhases.AcquireWorker in trace <==> Takes(env)
    ensures RunPhases.TearDown in trace <==> Takes(env) && Watches(env)
    ensures RunPhases.Release in trace <==> Takes(env) && !Keeps(env)
    ensures o.disposition == Reported(env) && (result <==> o.disposition == RunPhases.ChecksPassed)
  {
    var run := new RunPhases.Runner(env);
    run.Run();
    o, result, trace := run.o, run.result, run.trace;
  }

  lemma ClearMeansReleased(env: RunPhases.Env)
    ensures RunPhases.AllClear(env) ==>
              && Takes(env) && Watches(env) && !Keeps(env) && !env.releaseFails && !env.windowViolated
              && !RunPhases.LeavesResidue(env.teardown)
  {
  }

  lemma SeedIsWellFormed(s: Seed)
    ensures TargetsOf(s).Some? ==> WellFormedIdentity(IdentityOf(s))
  {
  }

  /** What a result stands for, on the cluster the run was made on. */
  ghost predicate Stands(s: Seed, j: Journal, w: World, from: nat, releases: seq<nat>, arrivals: seq<Window.Arrival>,
                         e: nat, gone: set<Target>)
    requires |w.past| > 0 && Window.Drained(arrivals, e)
  {
    && j.txID == s.txID && releases != [] && HeldThroughAndOver(w, from, releases[|releases| - 1], j)
    && CleanWindow(arrivals, e, j)
    && TargetsOf(s).Some? && forall t <- TargetsOf(s).value :: t in gone
  }

  /**
    One run, from the acquisition of its worker to its outcome, whatever the other writers of the cluster do.
    A result means that this transaction was installed in this run, held every version from there until after
    its one release began, and is off the worker for good; that its window saw nothing but its own tuple; and
    that every object of the run was read absent by its teardown.  The run releases at most once, exactly when
    its trace says so, and a release that is not reported as failed has the same unbroken hold behind it.
   */
  method RunOnCluster(c: Cluster, st: TeardownApply.ObjectStore, s: Seed, budget: nat, clock: nat -> string,
                      at: string, path: string, given: RunPhases.Env, arrivals: seq<Window.Arrival>, ghost e: nat)
    returns (o: RunPhases.Outcome, result: bool, trace: seq<RunPhases.Action>, ghost j: Journal,
             ghost sent: seq<Reply>)
    requires c.Valid() && c.mine == s.txID && !Installed(c.world.past, c.mine) && NoneInFlight(c.world, c.mine)
    requires st.Valid() && Window.Drained(arrivals, e)
    requires RunPhases.Prepares(given) ==> TargetsOf(s).Some?
    modifies c`world, c`script, c`log, c`waits, c`replies, c`releases, st
    ensures c.Valid() && st.Valid()
    ensures result ==> Stands(s, j, c.world, old(Latest(c.world)), c.releases, arrivals, e, st.gone)
    ensures RunPhases.TearDown in trace ==> TeardownApply.OnlyOurs(st.struck, st.born, s.txID)
    ensures RunPhases.Release !in trace ==> c.releases == old(c.releases)
    ensures RunPhases.Release in trace ==>
              |c.releases| == |old(c.releases)| + 1 && c.releases[..|old(c.releases)|] == old(c.releases)
    ensures RunPhases.Release in trace && o.disposition != RunPhases.WorkerNotRestored ==>
              HeldThroughAndOver(c.world, old(Latest(c.world)), c.releases[|c.releases| - 1], j)
    ensures RunPhases.Release in trace ==>
              && Grows(old(c.replies), sent) && |c.log| > 0
              && (o.disposition == RunPhases.WorkerNotRestored <==>
                    !Window.RestoredBefore(sent, c.replies, c.log, c.world.past, j))
    ensures RunPhases.Prepares(given) && RunPhases.AcquireWorker !in trace ==>
              && o.disposition in {RunPhases.Cancelled, RunPhases.AcquisitionRefused}
              && RefusedBy(given, Some(RunPhases.Failure(o.disposition == RunPhases.Cancelled)), old(c.replies),
                           c.replies, c.log, c.world, IdentityOf(s))
    ensures result <==> o.disposition == RunPhases.ChecksPassed
    ensures Calm(old(c.script), old(st.script), old(st.objects), s) && Free(old(Now(c.world))) ==>
              (result <==>
                 && ClearOtherwise(given)
                 && CleanWindow(arrivals, e, JournalFor(old(Now(c.world)), IdentityOf(s), clock(0))))
    ensures old(c.script) == [] && !Free(old(Now(c.world))) && RunPhases.Prepares(given) ==>
              o.disposition == RunPhases.AcquisitionRefused
  {
    SeedIsWellFormed(s);
    var said := Answers(Some(RunPhases.Failure(false)), given.windowViolated, given.teardown, given.releaseFails);
    j, sent := ZERO_JOURNAL, c.replies;
    if RunPhases.Prepares(given) {
      said, j, sent := Operate(c, st, s, budget, clock, at, path, given, arrivals, e);
    }
    ToldSays(given, said);
    ToldClear(given, said);
    var env := Told(given, said);
    o, result, trace := Decide(env);
    if RunPhases.Prepares(given) {
      ToldRefused(given, said);
    }
    ClearMeansReleased(env);
    OnlyTheReleaseSaysSo(env);
  }
}
