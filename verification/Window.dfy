/**
  The continuous ownership window and the restoration audit of cmd/queuelabrun/ownership_window.go: a
  stateful watcher that must notice a strip-and-restore between the two ends of a run, and the before and
  after of the release.
 */
module Window {
  import opened Common
  import opened Ownership
  import opened Protocol
  import opened History
  import opened Apply
  import opened Operations

  const VIOLATION_CAP := 20

  // ----------------------------------------------------------------- sentinel

  datatype EventType = Added | Modified | Deleted | ErrorEvent

  /** The three raw facts about how a stream ended. */
  datatype StreamEnd = StreamEnd(lastStatus: bool, cancelled: bool, stopped: bool)

  /**
    What reaches the window, in the order it is folded in.  The consumer is at work before the opening read
    is made, so that read can land anywhere: among the events, or after the stream has already ended.
   */
  datatype Arrival =
    | OpeningRead(node: Node)
    | WatchEvent(event: EventType, object: Option<Node>)
    | StreamEnded(end: StreamEnd)

  datatype Ending = Running | LostOnStatus | LostOnItsOwn | ClosedByRun | CancelledWithRun

  datatype WindowReason = Refusal(reason: Reason) | WorkerDeleted | ViewLost

  datatype Violation = Violation(reason: WindowReason, workerLabel: Option<string>, taints: seq<Taint>, uid: string)

  const VIEW_LOST := Violation(ViewLost, None, [], "")

  /** The Node version an arrival makes the sentinel look at, if any. */
  function VersionOf(a: Arrival, nodeName: string): Option<Node> {
    match a
    case OpeningRead(n) => Some(n)
    case WatchEvent(et, obj) => if et == ErrorEvent || obj.None? || obj.value.name != nodeName then None else obj
    case StreamEnded(_) => None
  }

  predicate IsDeletion(a: Arrival) {
    a.WatchEvent? && a.event == Deleted
  }

  /** The caller did not cause this ending, or the stream witnessed a loss. */
  predicate Lost(end: StreamEnd) {
    end.lastStatus || (!end.cancelled && !end.stopped)
  }

  /** The version carries exactly what this transaction installed; the ending is the caller's own. */
  predicate Carries(a: Arrival, j: Journal) {
    && (VersionOf(a, j.node).Some? ==>
          !IsDeletion(a) && VerifyInstalled(Observe(VersionOf(a, j.node).value), j).None?)
    && (a.StreamEnded? ==> !Lost(a.end))
  }

  function ViolationOf(a: Arrival, j: Journal): Violation
    requires !Carries(a, j)
  {
    if a.StreamEnded? then VIEW_LOST
    else
      var obs := Observe(VersionOf(a, j.node).value);
      Violation(if IsDeletion(a) then WorkerDeleted else Refusal(VerifyInstalled(obs, j).value),
                obs.workerLabel, obs.taints, obs.nodeUID)
  }

  function Observed(arrivals: seq<Arrival>, j: Journal): nat {
    if arrivals == [] then 0 else
      Observed(arrivals[..|arrivals| - 1], j)
      + if VersionOf(arrivals[|arrivals| - 1], j.node).Some? then 1 else 0
  }

  /** One violation per broken arrival, in the order of arrival. */
  function Violations(arrivals: seq<Arrival>, j: Journal): seq<Violation> {
    if arrivals == [] then [] else
      var last := arrivals[|arrivals| - 1];
      Violations(arrivals[..|arrivals| - 1], j) + if Carries(last, j) then [] else [ViolationOf(last, j)]
  }

  function Capped(vs: seq<Violation>): seq<Violation> {
    if |vs| <= VIOLATION_CAP then vs else vs[..VIOLATION_CAP]
  }

  function EndingOf(end: StreamEnd): Ending {
    if end.lastStatus then LostOnStatus
    else if !end.cancelled && !end.stopped then LostOnItsOwn
    else if end.stopped then ClosedByRun else CancelledWithRun
  }

  /** What the window says of its ending after these arrivals. */
  function EndingAfter(arrivals: seq<Arrival>): Ending {
    if arrivals == [] then Running
    else
      var last := arrivals[|arrivals| - 1];
      if last.StreamEnded? then EndingOf(last.end) else EndingAfter(arrivals[..|arrivals| - 1])
  }

  class Sentinel {
    const journal: Journal
    var nodeVersionsObserved: nat
    var violationsObserved: nat
    var violations: seq<Violation>
    var ending: Ending

    constructor (j: Journal)
      ensures journal == j && nodeVersionsObserved == 0 && Records([]) && ending == Running
    {
      journal := j;
      nodeVersionsObserved, violationsObserved, violations, ending := 0, 0, [], Running;
    }

    /** The fields are those of a window over the violations `vs`: the count in full, the list capped. */
    ghost predicate Records(vs: seq<Violation>)
      reads this
    {
      violationsObserved == |vs| && violations == Capped(vs)
    }

    /** `recordLocked`: every violation is counted, the earliest twenty are kept. */
    method Record(v: Violation, ghost vs: seq<Violation>)
      requires Records(vs)
      modifies this`violationsObserved, this`violations
      ensures Records(vs + [v])
    {
      violationsObserved := violationsObserved + 1;
      if |violations| < VIOLATION_CAP {
        violations := violations + [v];
      }
    }

    /** `observe` and the arrival switch in front of it. */
    method Fold(a: Arrival, ghost vs: seq<Violation>)
      requires Records(vs) && !a.StreamEnded?
      modifies this`nodeVersionsObserved, this`violationsObserved, this`violations
      ensures Records(vs + if Carries(a, journal) then [] else [ViolationOf(a, journal)])
      ensures nodeVersionsObserved
              == old(nodeVersionsObserved) + if VersionOf(a, journal.node).Some? then 1 else 0
    {
      assert vs + [] == vs;
      var n: Node;
      match a {
        case OpeningRead(m) => n := m;
        case WatchEvent(et, obj) =>
          if et == ErrorEvent || obj.None? || obj.value.name != journal.node {
            return;
          }
          n := obj.value;
      }
      var obs := ReadOwnership(n);
      nodeVersionsObserved := nodeVersionsObserved + 1;
      if a.WatchEvent? && a.event == Deleted {
        Record(Violation(WorkerDeleted, obs.workerLabel, obs.taints, obs.nodeUID), vs);
        return;
      }
      var bad := VerifyInstalled(obs, journal);
      if bad.Some? {
        Record(Violation(Refusal(bad.value), obs.workerLabel, obs.taints, obs.nodeUID), vs);
      }
    }

    /** What `consume` does once its stream is drained. */
    method Finish(end: StreamEnd, ghost vs: seq<Violation>)
      requires Records(vs)
      modifies this`ending, this`violationsObserved, this`violations
      ensures Records(vs + if Lost(end) then [VIEW_LOST] else []) && ending == EndingOf(end)
    {
      assert vs + [] == vs;
      if end.lastStatus {
        ending := LostOnStatus;
        Record(VIEW_LOST, vs);
      } else if !end.cancelled && !end.stopped {
        ending := LostOnItsOwn;
        Record(VIEW_LOST, vs);
      } else if end.stopped {
        ending := ClosedByRun;
      } else {
        ending := CancelledWithRun;
      }
    }

    /**
      `consume` and the opening read beside it, in whatever order the lock lets them through.  The count is
      one for every deleted or diverged version and one for a lost view, and the first twenty are kept in
      the order they came, the lost view ahead of the opening read where it came first.
     */
    method Consume(arrivals: seq<Arrival>)
      requires nodeVersionsObserved == 0 && Records([]) && ending == Running
      modifies this
      ensures Records(Violations(arrivals, journal)) && nodeVersionsObserved == Observed(arrivals, journal)
      ensures |Violations(arrivals, journal)| <= 20 ==> violations == Violations(arrivals, journal)
      ensures |Violations(arrivals, journal)| > 20 ==> violations == Violations(arrivals, journal)[..20]
      ensures ending == EndingAfter(arrivals)
    {
      for i := 0 to |arrivals|
        invariant Records(Violations(arrivals[..i], journal))
        invariant nodeVersionsObserved == Observed(arrivals[..i], journal)
        invariant ending == EndingAfter(arrivals[..i])
      {
        assert arrivals[..i + 1][..i] == arrivals[..i];
        ghost var vs := Violations(arrivals[..i], journal);
        match arrivals[i]
        case StreamEnded(end) => Finish(end, vs);
        case OpeningRead(_) => Fold(arrivals[i], vs);
        case WatchEvent(_, _) => Fold(arrivals[i], vs);
      }
      assert arrivals[..|arrivals|] == arrivals;
    }

    /** `invalidation`: the earliest violation of the window, and None exactly when there was none. */
    method Invalidation(ghost vs: seq<Violation>) returns (r: Option<Option<Violation>>)
      requires Records(vs)
      ensures r == if vs == [] then None else Some(Some(vs[0]))
    {
      if violationsObserved == 0 {
        return None;
      }
      r := Some(if |violations| > 0 then Some(violations[0]) else None);
    }
  }

  lemma {:induction false} CleanExactlyWhenAllCarry(arrivals: seq<Arrival>, j: Journal)
    ensures Violations(arrivals, j) == [] <==> forall a <- arrivals :: Carries(a, j)
  {
    if arrivals != [] {
      var init, last := arrivals[..|arrivals| - 1], arrivals[|arrivals| - 1];
      CleanExactlyWhenAllCarry(init, j);
      assert arrivals == init + [last];
    }
  }

  ghost predicate FirstBroken(arrivals: seq<Arrival>, i: int, j: Journal) {
    && 0 <= i < |arrivals| && !Carries(arrivals[i], j)
    && forall k :: 0 <= k < i ==> Carries(arrivals[k], j)
  }

  /** The earliest violation is that of the first broken arrival. */
  lemma {:induction false} FirstViolation(arrivals: seq<Arrival>, i: nat, j: Journal)
    requires FirstBroken(arrivals, i, j)
    ensures Violations(arrivals, j) != [] && Violations(arrivals, j)[0] == ViolationOf(arrivals[i], j)
  {
    var init := arrivals[..|arrivals| - 1];
    if i < |init| {
      FirstViolation(init, i, j);
    } else {
      CleanExactlyWhenAllCarry(init, j);
    }
  }

  /** The view was drained: the stream ended once, and only the opening read can still follow. */
  ghost predicate Drained(arrivals: seq<Arrival>, e: nat) {
    && e < |arrivals| && arrivals[e].StreamEnded?
    && (forall i :: 0 <= i < e ==> !arrivals[i].StreamEnded?)
    && (forall i :: e < i < |arrivals| ==> arrivals[i].OpeningRead?)
  }

  predicate BrokenVersion(a: Arrival, j: Journal) {
    !a.StreamEnded? && !Carries(a, j)
  }

  /** The deleted or diverged versions that were seen. */
  function BrokenVersions(arrivals: seq<Arrival>, j: Journal): nat {
    if arrivals == [] then 0
    else BrokenVersions(arrivals[..|arrivals| - 1], j)
         + if BrokenVersion(arrivals[|arrivals| - 1], j) then 1 else 0
  }

  function LostEndings(arrivals: seq<Arrival>): nat {
    if arrivals == [] then 0
    else
      var last := arrivals[|arrivals| - 1];
      LostEndings(arrivals[..|arrivals| - 1]) + if last.StreamEnded? && Lost(last.end) then 1 else 0
  }

  lemma {:induction false} OneViolationEach(arrivals: seq<Arrival>, j: Journal)
    ensures |Violations(arrivals, j)| == BrokenVersions(arrivals, j) + LostEndings(arrivals)
  {
    if arrivals != [] {
      OneViolationEach(arrivals[..|arrivals| - 1], j);
    }
  }

  lemma {:induction false} OneEnding(arrivals: seq<Arrival>, e: nat)
    requires forall i :: 0 <= i < |arrivals| && i != e ==> !arrivals[i].StreamEnded?
    ensures LostEndings(arrivals)
            == if e < |arrivals| && arrivals[e].StreamEnded? && Lost(arrivals[e].end) then 1 else 0
  {
    if arrivals != [] {
      OneEnding(arrivals[..|arrivals| - 1], e);
    }
  }

  /** The count: the deleted or diverged versions, and one more for a lost view. */
  lemma CountOfDrained(arrivals: seq<Arrival>, e: nat, j: Journal)
    requires Drained(arrivals, e)
    ensures |Violations(arrivals, j)| == BrokenVersions(arrivals, j) + if Lost(arrivals[e].end) then 1 else 0
  {
    OneViolationEach(arrivals, j);
    OneEnding(arrivals, e);
  }

  /** Every version that was seen, before the stream ended or after, carried the installed tuple. */
  ghost predicate AllVersionsCarry(arrivals: seq<Arrival>, j: Journal) {
    forall a <- arrivals :: VersionOf(a, j.node).Some? ==>
      !IsDeletion(a) && VerifyInstalled(Observe(VersionOf(a, j.node).value), j).None?
  }

  /**
    A window over these arrivals invalidates nothing exactly when every version it saw carried the installed
    tuple and the caller ended the view with no terminal status.  So a strip that was delivered invalidates
    however soon it was restored.
   */
  lemma InvalidatesExactlyWhenBroken(arrivals: seq<Arrival>, e: nat, j: Journal)
    requires Drained(arrivals, e)
    ensures Violations(arrivals, j) == [] <==>
              && AllVersionsCarry(arrivals, j)
              && !arrivals[e].end.lastStatus && (arrivals[e].end.cancelled || arrivals[e].end.stopped)
  {
    CleanExactlyWhenAllCarry(arrivals, j);
    assert arrivals[e] in arrivals;
  }

  /** A whole window, opened, drained and judged. */
  method JudgeWindow(j: Journal, arrivals: seq<Arrival>, ghost e: nat) returns (r: Option<Option<Violation>>)
    requires Drained(arrivals, e)
    ensures r.None? <==>
              && AllVersionsCarry(arrivals, j)
              && !arrivals[e].end.lastStatus && (arrivals[e].end.cancelled || arrivals[e].end.stopped)
    ensures forall i :: FirstBroken(arrivals, i, j) ==> r == Some(Some(ViolationOf(arrivals[i], j)))
  {
    var s := new Sentinel(j);
    s.Consume(arrivals);
    r := s.Invalidation(Violations(arrivals, j));
    InvalidatesExactlyWhenBroken(arrivals, e, j);
    forall i | FirstBroken(arrivals, i, j)
      ensures r == Some(Some(ViolationOf(arrivals[i], j)))
    {
      FirstViolation(arrivals, i, j);
    }
  }

  // ------------------------------------------- what a clean window establishes

  /** Versions `b` to `e` of the Node, every one of them delivered. */
  ghost predicate Delivers(arrivals: seq<Arrival>, h: seq<Version>, b: nat, e: nat)
    requires b <= e < |h|
  {
    forall m :: b < m <= e ==> exists a :: a in arrivals && VersionOf(a, h[m].node.name) == Some(h[m].node)
  }

  lemma StepUnderTheSameMarkers(h: seq<Version>, k: nat, j: Journal)
    requires Lawful(h) && 0 < k < |h| && HeldBy(h[k - 1].node, j)
    requires VerifyInstalled(Observe(h[k].node), j).None?
    ensures HeldBy(h[k].node, j)
  {
    EveryVersionIsSound(h, k - 1);
    EveryVersionIsSound(h, k);
    assert LawfulStep(h, k);
    if h[k].cause.Did? {
      EditKeepsSound(h[k].cause.op, h[k - 1].node);
    }
  }

  /**
    The sentinel compares marker values only, and two transactions under one run id install the same ones.
    Still, from a version held by `j`, a window in which every version carries those values is exactly a
    window in which `j` itself never lost the Node.
   */
  lemma {:induction false} SameMarkersThroughoutIsHeldThroughout(h: seq<Version>, b: nat, e: nat, j: Journal)
    requires Lawful(h) && b <= e < |h| && HeldBy(h[b].node, j)
    ensures (forall m :: b <= m <= e ==> VerifyInstalled(Observe(h[m].node), j).None?)
       <==> (forall m :: b <= m <= e ==> HeldBy(h[m].node, j))
  {
    if forall m :: b <= m <= e ==> VerifyInstalled(Observe(h[m].node), j).None? {
      var m := b;
      while m < e
        invariant b <= m <= e
        invariant forall i :: b <= i <= m ==> HeldBy(h[i].node, j)
      {
        StepUnderTheSameMarkers(h, m + 1, j);
        m := m + 1;
      }
    }
  }

  lemma {:induction false} NameNeverChanges(h: seq<Version>, i: nat, k: nat)
    requires Lawful(h) && i <= k < |h|
    ensures h[k].node.name == h[i].node.name
  {
    if i < k {
      NameNeverChanges(h, i, k - 1);
      assert LawfulStep(h, k);
      if h[k].cause.Did? {
        assert Edit(h[k].cause.op, h[k - 1].node) == Ok(h[k].node);
      }
    }
  }

  /** A clean window over a full delivery proves exclusive use from its first version to its last. */
  lemma CleanWindowIsExclusiveUse(h: seq<Version>, b: nat, e: nat, j: Journal, arrivals: seq<Arrival>)
    requires Lawful(h) && b <= e < |h| && HeldBy(h[b].node, j)
    requires Delivers(arrivals, h, b, e) && Violations(arrivals, j) == []
    ensures forall m :: b <= m <= e ==> HeldBy(h[m].node, j)
  {
    CleanExactlyWhenAllCarry(arrivals, j);
    forall m | b <= m <= e
      ensures VerifyInstalled(Observe(h[m].node), j).None?
    {
      if b < m {
        NameNeverChanges(h, b, m);
        var a :| a in arrivals && VersionOf(a, h[m].node.name) == Some(h[m].node);
        assert Carries(a, j);
      }
    }
    SameMarkersThroughoutIsHeldThroughout(h, b, e, j);
  }

  // -------------------------------------------------------------------- audit

  datatype Markers = Markers(
    uid: string, workerLabel: Option<string>, ownValues: seq<string>, otherKeys: seq<string>, hasJournal: bool)

  function ValuesOf(ts: seq<Taint>): seq<string> {
    seq(|ts|, i requires 0 <= i < |ts| => ts[i].value)
  }

  function KeysOf(ts: seq<Taint>): seq<string> {
    seq(|ts|, i requires 0 <= i < |ts| => ts[i].key)
  }

  function MarkersOf(n: Node): Markers {
    Markers(n.uid, n.workerLabel, ValuesOf(OwnTaints(n.taints)), KeysOf(ForeignTaints(n.taints)), n.journal != Empty)
  }

  datatype Audit = Audit(before: Option<Markers>, after: Option<Markers>, removed: bool, drift: seq<string>)

  /** The keys of `before` that did not survive. */
  function DriftOf(before: seq<string>, after: seq<string>): seq<string> {
    if before == [] then [] else
      var last := before[|before| - 1];
      DriftOf(before[..|before| - 1], after) + if last in after then [] else [last]
  }

  predicate MarkersGone(after: Markers, j: Journal) {
    && after.uid == j.nodeUID
    && after.workerLabel != Some(j.installed.labelValue)
    && j.installed.taintValue !in after.ownValues
    && !after.hasJournal
  }

  /** `summarise`: reads the two sides against each other, and concludes nothing from a side not read. */
  method Summarise(before: Option<Markers>, after: Option<Markers>, j: Journal) returns (a: Audit)
    ensures a.before == before && a.after == after
    ensures a.removed <==> after.Some? && MarkersGone(after.value, j)
    ensures a.drift == if before.Some? && after.Some? && after.value.uid == j.nodeUID
                       then DriftOf(before.value.otherKeys, after.value.otherKeys) else []
  {
    a := Audit(before, after, false, []);
    if after.None? || after.value.uid != j.nodeUID {
      return;
    }
    var m := after.value;
    var taintGone := true;
    for i := 0 to |m.ownValues|
      invariant taintGone <==> j.installed.taintValue !in m.ownValues[..i]
    {
      if m.ownValues[i] == j.installed.taintValue {
        taintGone := false;
      }
    }
    assert m.ownValues[..|m.ownValues|] == m.ownValues;
    a := a.(removed := m.workerLabel != Some(j.installed.labelValue) && taintGone && !m.hasJournal);
    if before.None? {
      return;
    }
    var keys := before.value.otherKeys;
    var drift: seq<string> := [];
    for i := 0 to |keys|
      invariant drift == DriftOf(keys[..i], m.otherKeys)
    {
      assert keys[..i + 1][..i] == keys[..i];
      if keys[i] !in m.otherKeys {
        drift := drift + [keys[i]];
      }
    }
    assert keys[..|keys|] == keys;
    a := a.(drift := drift);
  }

  lemma {:induction false} NoDriftFromItself(keys: seq<string>, all: seq<string>)
    requires forall k :: k in keys ==> k in all
    ensures DriftOf(keys, all) == []
  {
    if keys != [] {
      NoDriftFromItself(keys[..|keys| - 1], all);
    }
  }

  /** Our own release, looked at from both sides, is a clean restoration that damaged nobody. */
  lemma OwnReleaseAuditsClean(n: Node, j: Journal)
    requires Sound(n) && HoldsTx(n, j.txID) && n.uid == j.nodeUID
    ensures var m := Edit(Release(j.txID), n);
            && m.Ok?
            && MarkersGone(MarkersOf(m.value), j)
            && DriftOf(MarkersOf(n).otherKeys, MarkersOf(m.value).otherKeys) == []
  {
    ForeignIsFixed(n.taints);
    var keys := KeysOf(ForeignTaints(n.taints));
    NoDriftFromItself(keys, keys);
  }

  /**
    On the journal's Node the audit calls the markers removed exactly when nobody holds it, which is narrower
    than `verifyClean`: it also says "not removed" when another transaction has acquired since.
   */
  lemma AuditExactlyWhenUnheld(n: Node, j: Journal)
    requires Sound(n) && n.uid == j.nodeUID
    ensures MarkersGone(MarkersOf(n), j) <==> !Held(n)
    ensures VerifyClean(Observe(n), j).None? && !MarkersGone(MarkersOf(n), j) <==>
            Held(n) && !HoldsTx(n, j.txID)
  {
  }

  /**
    It does happen: the release did all it had to, another transaction then acquired the same Node, and the
    audit that reads it says "not removed" where `verifyClean` passes, even under one run id.
   */
  lemma ReleasedThenTaken(w: World, a: Identity, b: Identity, at: string) returns (es: seq<Event>)
    requires Initial(w) && WellFormedIdentity(a) && WellFormedIdentity(b) && a.txID != b.txID
    ensures var n, j := Now(Execute(w, es)), JournalFor(w.past[0].node, a, at);
            && n.uid == j.nodeUID && HoldsTx(n, b.txID)
            && VerifyClean(Observe(n), j).None? && !MarkersGone(MarkersOf(n), j)
    ensures exists k :: 0 < k < |Execute(w, es).past| && Execute(w, es).past[k].cause == Did(Release(a.txID))
  {
    es := SecondHolder(w, a, b, at);
    TakenIsNotRemoved(w.past[0].node, a, b, at);
  }

  lemma SecondHolder(w: World, a: Identity, b: Identity, at: string) returns (es: seq<Event>)
    requires Initial(w) && WellFormedIdentity(a) && WellFormedIdentity(b) && a.txID != b.txID
    ensures var w' := Execute(w, es);
            && |w'.past| == 4 && w'.past[2].cause == Did(Release(a.txID))
            && Edit(Acquire(b, at), w.past[0].node) == Ok(Now(w'))
  {
    var w2, first := AcquiredThenReleased(w, a, at);
    var w3, second := AcquiredNext(w2, b, at);
    ExecuteAppend(w, first, second);
    es := first + second;
  }

  lemma AcquiredNext(w: World, id: Identity, at: string) returns (w': World, es: seq<Event>)
    requires |w.past| > 0 && Inv(w) && WellFormedIdentity(id) && Free(Now(w))
    requires !Installed(w.past, id.txID) && NoneInFlight(w, id.txID)
    ensures w' == Execute(w, es) && |w'.past| == |w.past| + 1 && Edit(Acquire(id, at), Now(w)) == Ok(Now(w'))
    ensures forall i :: 0 <= i < |w.past| ==> w'.past[i] == w.past[i]
  {
    AcquireExactlyWhenUnowned(Now(w), id, at);
    AcquisitionWrites(Now(w), id, at);
    w', es := LandsAtOnce(w, Acquire(id, at), id.txID);
    ExtendsTrans(w, w', w');
  }

  lemma TakenIsNotRemoved(n: Node, a: Identity, b: Identity, at: string)
    requires Free(n) && n.name != "" && n.uid != "" && WellFormedIdentity(b) && a.txID != b.txID
    ensures var taken, j := Edit(Acquire(b, at), n), JournalFor(n, a, at);
            && taken.Ok? && taken.value != n && taken.value.uid == j.nodeUID && HoldsTx(taken.value, b.txID)
            && VerifyClean(Observe(taken.value), j).None? && !MarkersGone(MarkersOf(taken.value), j)
  {
    AcquireExactlyWhenUnowned(n, b, at);
    AcquisitionWrites(n, b, at);
    AcquireFromFree(n, b, at);
    AuditExactlyWhenUnheld(Edit(Acquire(b, at), n).value, JournalFor(n, a, at));
  }

  /** The two loops of `readMarkers`. */
  method MarkersFrom(n: Node) returns (m: Markers)
    ensures m == MarkersOf(n)
  {
    var obs := ReadOwnership(n);
    var other: seq<string> := [];
    for i := 0 to |obs.allTaints|
      invariant other == KeysOf(ForeignTaints(n.taints[..i]))
    {
      assert n.taints[..i + 1][..i] == n.taints[..i];
      if obs.allTaints[i].key != WORKER_TAINT_KEY {
        other := other + [obs.allTaints[i].key];
      }
    }
    assert n.taints[..|n.taints|] == n.taints;
    var ours: seq<string> := [];
    for i := 0 to |obs.taints|
      invariant ours == ValuesOf(obs.taints[..i])
    {
      ours := ours + [obs.taints[i].value];
    }
    assert obs.taints[..|obs.taints|] == obs.taints;
    m := Markers(obs.nodeUID, obs.workerLabel, ours, other, obs.journalRaw != Empty);
  }

  lemma {:induction false} ForeignIsMembership(ts: seq<Taint>, t: Taint)
    ensures t in ForeignTaints(ts) <==> t in ts && t.key != WORKER_TAINT_KEY
  {
    if ts != [] {
      ForeignIsMembership(ts[..|ts| - 1], t);
      assert ts == ts[..|ts| - 1] + [ts[|ts| - 1]];
    }
  }

  lemma OtherKeysAre(n: Node, k: string)
    ensures k in MarkersOf(n).otherKeys <==> k != WORKER_TAINT_KEY && exists t <- n.taints :: t.key == k
  {
    var f := ForeignTaints(n.taints);
    if k in KeysOf(f) {
      var i :| 0 <= i < |f| && KeysOf(f)[i] == k;
      ForeignIsMembership(n.taints, f[i]);
      assert f[i] in n.taints;
    }
    if t :| t in n.taints && t.key == k && k != WORKER_TAINT_KEY {
      ForeignIsMembership(n.taints, t);
      var i :| 0 <= i < |f| && f[i] == t;
      assert KeysOf(f)[i] == k;
    }
  }

  lemma {:induction false} DriftIsMembership(before: seq<string>, after: seq<string>, k: string)
    ensures k in DriftOf(before, after) <==> k in before && k !in after
  {
    if before != [] {
      DriftIsMembership(before[..|before| - 1], after, k);
      assert before == before[..|before| - 1] + [before[|before| - 1]];
    }
  }

  /** Drift is exactly the other people's taint keys that were on the Node before and are not after. */
  lemma DriftExactlyWhenLost(before: Node, after: Node, k: string)
    ensures k in DriftOf(MarkersOf(before).otherKeys, MarkersOf(after).otherKeys) <==>
              && k != WORKER_TAINT_KEY && (exists t <- before.taints :: t.key == k)
              && !(exists t <- after.taints :: t.key == k)
  {
    DriftIsMembership(MarkersOf(before).otherKeys, MarkersOf(after).otherKeys, k);
    OtherKeysAre(before, k);
    OtherKeysAre(after, k);
  }

  method ReadMarkers(c: Cluster) returns (r: Option<Markers>)
    requires c.Valid()
    modifies c`world, c`script, c`log
    ensures c.Valid() && Meanwhile(old(c.world), c.world, c.mine)
    ensures c.log == old(c.log) + [if r.Some? then Some(Latest(c.world)) else None]
    ensures r.Some? ==> r.value == MarkersOf(Now(c.world))
    ensures old(c.script) == [] ==> c.Quiet(old(c.world)) && r.Some?
  {
    var got := c.Get();
    if got.None? {
      return None;
    }
    var m := MarkersFrom(got.value.node);
    r := Some(m);
  }

  /** The only thing that happened to the Node was this release. */
  ghost predicate Undisturbed(w: World, w': World, txID: string)
    requires |w.past| > 0
  {
    Extends(w, w') && |w'.past| == |w.past| + 1 && w'.past[|w.past|].cause == Did(Release(txID))
  }

  /** Release, and read what is there afterwards. */
  method ReleaseThenRead(c: Cluster, j: Journal)
    returns (r: Result<(), ReleaseFailure>, after: Option<Markers>, ghost w: World)
    requires c.Valid()
    modifies c`world, c`script, c`log, c`waits, c`replies, c`releases
    ensures c.Valid() && |w.past| > 0 && Inv(w)
    ensures Meanwhile(old(c.world), w, c.mine) && Meanwhile(w, c.world, c.mine)
    ensures after.Some? ==> after.value == MarkersOf(Now(c.world))
    ensures after.Some? <==> |c.log| > 0 && LastRead(c.log).Some?
    ensures r.Ok? ==> Over(w, j.txID) && exists i :: Latest(old(c.world)) <= i && HeldUntil(w.past, i, j.txID)
    ensures c.releases == old(c.releases) + [Latest(old(c.world))]
    ensures |c.log| > 0 && (r.Ok? <==> RestoredBefore(old(c.replies), c.replies, c.log, c.world.past, j))
    ensures old(c.script) == [] ==> (r.Ok? <==> Releasable(Now(old(c.world)), j))
  {
    r := ReleaseOwned(c, j);
    w := c.world;
    ghost var log := c.log;
    after := ReadMarkers(c);
    assert c.log[..|c.log| - 1] == log;
    ExtendsTrans(w, c.world, c.world);
    RestoredExtends(old(c.replies), c.replies, log, w.past, c.world.past, j);
  }

  /** Read, release, read again. */
  method ReadReleaseRead(c: Cluster, j: Journal)
    returns (before: Option<Markers>, r: Result<(), ReleaseFailure>, after: Option<Markers>,
             ghost w1: World, ghost w2: World)
    requires c.Valid()
    modifies c`world, c`script, c`log, c`waits, c`replies, c`releases
    ensures c.Valid() && |w1.past| > 0 && |w2.past| > 0 && Inv(w1) && Inv(w2)
    ensures Meanwhile(old(c.world), w1, c.mine) && Meanwhile(w1, w2, c.mine) && Meanwhile(w2, c.world, c.mine)
    ensures before.Some? ==> before.value == MarkersOf(Now(w1))
    ensures after.Some? ==> after.value == MarkersOf(Now(c.world))
    ensures after.Some? <==> |c.log| > 0 && LastRead(c.log).Some?
    ensures r.Ok? ==> Over(w2, j.txID) && exists i :: Latest(w1) <= i && HeldUntil(w2.past, i, j.txID)
    ensures c.releases == old(c.releases) + [Latest(w1)]
    ensures |c.log| > 0 && (r.Ok? <==> RestoredBefore(old(c.replies), c.replies, c.log, c.world.past, j))
    ensures old(c.script) == [] ==> before == Some(MarkersOf(Now(old(c.world))))
    ensures old(c.script) == [] ==> (r.Ok? <==> Releasable(Now(old(c.world)), j))
  {
    before := ReadMarkers(c);
    w1 := c.world;
    r, after, w2 := ReleaseThenRead(c, j);
  }

  /** The reads but the last one, which is the audit's own, show the release restored. */
  ghost predicate RestoredBefore(sent: seq<Reply>, replies: seq<Reply>, log: seq<Option<nat>>, h: seq<Version>,
                                 j: Journal)
    requires |log| > 0
  {
    Restored(sent, replies, log[..|log| - 1], h, j)
  }

  lemma RestoredExtends(sent: seq<Reply>, replies: seq<Reply>, log: seq<Option<nat>>, h: seq<Version>,
                        h': seq<Version>, j: Journal)
    requires |h| <= |h'| && forall i :: 0 <= i < |h| ==> h'[i] == h[i]
    requires LastRead(log).Some? ==> LastRead(log).value < |h|
    ensures Restored(sent, replies, log, h, j) <==> Restored(sent, replies, log, h', j)
  {
  }

  /**
    `auditedRelease`: the release's verdict is passed through untouched, and an undisturbed release that
    succeeded, read on both sides, is audited as markers removed and no drift.
   */
  method AuditedRelease(c: Cluster, j: Journal)
    returns (audit: Audit, r: Result<(), ReleaseFailure>, ghost began: nat)
    requires c.Valid()
    modifies c`world, c`script, c`log, c`waits, c`replies, c`releases
    ensures c.Valid() && Meanwhile(old(c.world), c.world, c.mine)
    ensures c.releases == old(c.releases) + [began] && Latest(old(c.world)) <= began
    ensures r.Ok? ==> exists i :: began <= i && HeldUntil(c.world.past, i, j.txID)
    ensures r.Ok? && j.txID == c.mine ==> Over(c.world, c.mine)
    ensures |c.log| > 0 && (r.Ok? <==> RestoredBefore(old(c.replies), c.replies, c.log, c.world.past, j))
    ensures old(c.script) == [] ==> audit.before == Some(MarkersOf(Now(old(c.world))))
    ensures old(c.script) == [] ==> (r.Ok? <==> Releasable(Now(old(c.world)), j))
    ensures audit.after.Some? ==> audit.after.value == MarkersOf(Now(c.world))
    ensures audit.after.Some? <==> LastRead(c.log).Some?
    ensures audit.removed <==> audit.after.Some? && MarkersGone(audit.after.value, j)
    ensures audit.drift == if audit.before.Some? && audit.after.Some? && audit.after.value.uid == j.nodeUID
                           then DriftOf(audit.before.value.otherKeys, audit.after.value.otherKeys) else []
    ensures r.Ok? && audit.before.Some? && audit.after.Some? && Undisturbed(old(c.world), c.world, j.txID)
              && old(Now(c.world)).uid == j.nodeUID ==>
              audit.removed && audit.drift == []
  {
    var before, verdict, after, w1, w2 := ReadReleaseRead(c, j);
    r, began := verdict, Latest(w1);
    audit := Summarise(before, after, j);
    MeanwhileTrans(old(c.world), w1, w2, c.mine);
    MeanwhileTrans(old(c.world), w2, c.world, c.mine);
    if r.Ok? {
      ghost var i :| Latest(w1) <= i && HeldUntil(w2.past, i, j.txID);
      HeldUntilExtends(w2, c.world, i, j.txID);
      if Undisturbed(old(c.world), c.world, j.txID) && old(Now(c.world)).uid == j.nodeUID {
        UndisturbedSides(old(c.world), w1, w2, c.world, i, j);
      }
    }
  }

  lemma HeldUntilExtends(w: World, w': World, i: nat, txID: string)
    requires Extends(w, w') && HeldUntil(w.past, i, txID)
    ensures HeldUntil(w'.past, i, txID)
  {
    ExtendsTrans(w, w', w');
  }

  /** With one release in between and nothing else, the two reads straddle it. */
  lemma UndisturbedSides(w0: World, w1: World, w2: World, w3: World, i: nat, j: Journal)
    requires Inv(w0) && Inv(w1) && Inv(w2) && Inv(w3)
    requires Extends(w0, w1) && Extends(w1, w2) && Extends(w2, w3)
    requires Undisturbed(w0, w3, j.txID) && Now(w0).uid == j.nodeUID
    requires Latest(w1) <= i && HeldUntil(w2.past, i, j.txID) && !HoldsTx(Now(w2), j.txID)
    ensures MarkersGone(MarkersOf(Now(w3)), j) && Now(w3).uid == j.nodeUID
    ensures DriftOf(MarkersOf(Now(w1)).otherKeys, MarkersOf(Now(w3)).otherKeys) == []
  {
    ExtendsTrans(w0, w1, w2);
    ExtendsTrans(w0, w2, w3);
    ExtendsTrans(w2, w3, w3);
    ExtendsTrans(w1, w2, w3);
    assert LawfulStep(w3.past, |w0.past|);
    EveryVersionIsSound(w3.past, Latest(w0));
    ReleaseFromHeld(Now(w0), j.txID);
    assert i == Latest(w0);
    OwnReleaseAuditsClean(Now(w0), j);
  }
}
