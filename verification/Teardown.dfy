/**
  Teardown of one run: the seed that survives a crash in the Node's journal, the ordered deletion set it
  regenerates, and the executor that deletes it from a cluster other people also write to
  (cmd/queuelabrun/teardown.go, cmd/queuelabrun/teardown_apply.go).
 */
module Teardown {
  import opened Common
  import opened Ownership

  const TEARDOWN_SEED_SCHEMA := 1

  datatype Phase = PhaseNamespace | PhaseClusterQueue | PhaseResourceFlavor

  datatype Kind = Namespace | ClusterQueue | ResourceFlavor

  datatype Target = Target(phase: Phase, kind: Kind, name: string)

  datatype Seed = Seed(
    schema: int, txID: string, runID: string, arm: string, study: string, variant: string, namespace: string)

  // ------------------------------------------------------------ the fixture names

  predicate LabelChar(c: char) {
    'a' <= c <= 'z' || '0' <= c <= '9'
  }

  /** A DNS-1123 label, section 2.1 of RFC 1123 as Kubernetes spells it. */
  predicate DNSLabel(s: string) {
    && 0 < |s| <= 63
    && LabelChar(s[0]) && LabelChar(s[|s| - 1])
    && forall i :: 0 <= i < |s| ==> LabelChar(s[i]) || s[i] == '-'
  }

  /** `BuildFixtures`, reduced to the names teardown deletes: the ClusterQueues, then the flavor. */
  function FixtureNames(study: string, variant: string, txID: string, runID: string, namespace: string)
    : Option<(seq<string>, string)>
  {
    if !DNSLabel(txID) || !DNSLabel(runID) || !DNSLabel(namespace) then None
    else if study == "reclaim" && (variant == "Never" || variant == "Any") then
      Some((["ql-reclaim-tenant-a-" + runID, "ql-reclaim-tenant-b-" + runID], "queuelab-gpu-" + runID))
    else if study == "fifo" && (variant == "StrictFIFO" || variant == "BestEffortFIFO") then
      Some((["ql-fifo-" + runID], "queuelab-gpu-" + runID))
    else None
  }

  function QueueTargets(names: seq<string>): seq<Target> {
    seq(|names|, i requires 0 <= i < |names| => Target(PhaseClusterQueue, ClusterQueue, names[i]))
  }

  function TargetsOf(s: Seed): Option<seq<Target>> {
    if s.schema != TEARDOWN_SEED_SCHEMA then None
    else if s.txID == "" || s.runID == "" || s.arm == "" || s.study == "" || s.variant == "" || s.namespace == ""
    then None
    else match FixtureNames(s.study, s.variant, s.txID, s.runID, s.namespace)
      case None => None
      case Some(names) =>
        Some([Target(PhaseNamespace, Namespace, s.namespace)]
             + QueueTargets(names.0)
             + [Target(PhaseResourceFlavor, ResourceFlavor, names.1)])
  }

  function PhaseRank(p: Phase): nat {
    match p case PhaseNamespace => 0 case PhaseClusterQueue => 1 case PhaseResourceFlavor => 2
  }

  /** Namespace first, every ClusterQueue next, the flavor last, and no name twice. */
  predicate InDeletionOrder(ts: seq<Target>) {
    && |ts| >= 3
    && ts[0].kind == Namespace && ts[|ts| - 1].kind == ResourceFlavor
    && (forall i :: 0 < i < |ts| - 1 ==> ts[i].kind == ClusterQueue)
    && (forall i, k :: 0 <= i < k < |ts| ==> PhaseRank(ts[i].phase) <= PhaseRank(ts[k].phase))
    && (forall i, k :: 0 <= i < k < |ts| ==> ts[i] != ts[k])
  }

  /** `enumerate`: the deletion set is rebuilt from the seed alone. */
  method Enumerate(s: Seed) returns (r: Option<seq<Target>>)
    ensures r == TargetsOf(s)
    ensures r.Some? ==> InDeletionOrder(r.value) && r.value[0].name == s.namespace
  {
    if s.schema != TEARDOWN_SEED_SCHEMA {
      return None;
    }
    if s.txID == "" || s.runID == "" || s.arm == "" || s.study == "" || s.variant == "" || s.namespace == "" {
      return None;
    }
    var names := FixtureNames(s.study, s.variant, s.txID, s.runID, s.namespace);
    if names.None? {
      return None;
    }
    var targets := [Target(PhaseNamespace, Namespace, s.namespace)];
    for i := 0 to |names.value.0|
      invariant targets == [Target(PhaseNamespace, Namespace, s.namespace)] + QueueTargets(names.value.0[..i])
    {
      targets := targets + [Target(PhaseClusterQueue, ClusterQueue, names.value.0[i])];
    }
    assert names.value.0[..|names.value.0|] == names.value.0;
    r := Some(targets + [Target(PhaseResourceFlavor, ResourceFlavor, names.value.1)]);
    TargetsInOrder(s);
  }

  lemma TargetsInOrder(s: Seed)
    requires TargetsOf(s).Some?
    ensures InDeletionOrder(TargetsOf(s).value)
  {
    if s.study == "reclaim" {
      var a, b := "ql-reclaim-tenant-a-" + s.runID, "ql-reclaim-tenant-b-" + s.runID;
      assert a[18] == 'a' && b[18] == 'b';
    }
  }

  /** Which seeds enumerate, of their fields. */
  predicate Enumerable(s: Seed) {
    && s.schema == 1 && s.arm != "" && DNSLabel(s.txID) && DNSLabel(s.runID) && DNSLabel(s.namespace)
    && (|| (s.study == "reclaim" && s.variant in {"Never", "Any"})
        || (s.study == "fifo" && s.variant in {"StrictFIFO", "BestEffortFIFO"}))
  }

  /** What is deleted: the namespace, the queue of each tenant or the one queue, and the flavor, by their names. */
  lemma TargetsAre(s: Seed)
    ensures TargetsOf(s).Some? <==> Enumerable(s)
    ensures Enumerable(s) && s.study == "reclaim" ==>
              TargetsOf(s).value == [
                Target(PhaseNamespace, Namespace, s.namespace),
                Target(PhaseClusterQueue, ClusterQueue, "ql-reclaim-tenant-a-" + s.runID),
                Target(PhaseClusterQueue, ClusterQueue, "ql-reclaim-tenant-b-" + s.runID),
                Target(PhaseResourceFlavor, ResourceFlavor, "queuelab-gpu-" + s.runID)]
    ensures Enumerable(s) && s.study == "fifo" ==>
              TargetsOf(s).value == [
                Target(PhaseNamespace, Namespace, s.namespace),
                Target(PhaseClusterQueue, ClusterQueue, "ql-fifo-" + s.runID),
                Target(PhaseResourceFlavor, ResourceFlavor, "queuelab-gpu-" + s.runID)]
  {
  }

  /** A label is 1 to 63 lower-case letters, digits and inner dashes. */
  lemma LabelBounds(n: nat, c: char)
    ensures DNSLabel(seq(n, _ => c)) <==> 1 <= n <= 63 && ('a' <= c <= 'z' || '0' <= c <= '9')
    ensures DNSLabel("a-b") && !DNSLabel("-a") && !DNSLabel("a-") && !DNSLabel("a.b") && !DNSLabel("A")
  {
    var s := seq(n, _ => c);
    assert n > 0 ==> s[0] == c;
    assert "A"[0] == 'A' && "-a"[0] == '-' && "a-"[1] == '-' && "a.b"[1] == '.';
  }

  // ----------------------------------------------------------- crash recovery

  function IdentityOf(s: Seed): Identity {
    Identity(OWNER_RUN, s.txID, s.runID, s.arm, s.namespace, s.study, s.variant, "")
  }

  function SeedFromJournal(j: Journal): Seed {
    Seed(TEARDOWN_SEED_SCHEMA, j.txID, j.runID, j.arm, j.study, j.variant, j.namespace)
  }

  /**
    The round trip a crash relies on: a seed that enumerates, acquired under on a free Node, leaves a journal
    that decodes and gives back that very seed, so the same deletion set.
   */
  lemma JournalCarriesTheSeed(s: Seed, n: Node, takenAt: string)
    requires TargetsOf(s).Some? && Free(n) && n.name != "" && n.uid != ""
    ensures var m := Edit(Acquire(IdentityOf(s), takenAt), n);
            && m.Ok?
            && DecodeJournal(m.value.journal).Some?
            && SeedFromJournal(DecodeJournal(m.value.journal).value) == s
            && TargetsOf(SeedFromJournal(DecodeJournal(m.value.journal).value)) == TargetsOf(s)
  {
    AcquisitionReadsBack(n, IdentityOf(s), takenAt);
  }

  // ------------------------------------------------------------ classification

  datatype Absence = AbsenceUnknown | AbsencePresent | AbsenceAbsent | AbsenceForeign

  /** One read of a target; `foreign` is only ever set by the recovery pass. */
  datatype Sighting = Sighting(
    target: Target, found: bool, uid: string, terminating: bool, failed: bool, wantUID: string, foreign: bool)

  function ClassifyAbsence(o: Sighting): Absence {
    if o.failed then AbsenceUnknown
    else if !o.found then AbsenceAbsent
    else if o.foreign then AbsenceForeign
    else if o.wantUID == "" then AbsenceUnknown
    else if o.uid != o.wantUID then AbsenceForeign
    else AbsencePresent
  }

  datatype ResidueEntry = ResidueEntry(sighting: Sighting, absence: Absence)

  /** `residual`: everything not proven absent, with the verdict reached on it. */
  method Residual(obs: seq<Sighting>) returns (out: seq<ResidueEntry>)
    ensures forall e :: e in out <==>
              e.sighting in obs && e.absence == ClassifyAbsence(e.sighting) && e.absence != AbsenceAbsent
    ensures out == [] <==> forall o :: o in obs ==> !o.failed && !o.found
  {
    out := [];
    for i := 0 to |obs|
      invariant forall e :: e in out <==>
                  e.sighting in obs[..i] && e.absence == ClassifyAbsence(e.sighting) && e.absence != AbsenceAbsent
      invariant out == [] <==> forall o :: o in obs[..i] ==> !o.failed && !o.found
    {
      var a := ClassifyAbsence(obs[i]);
      assert obs[..i + 1] == obs[..i] + [obs[i]];
      if a != AbsenceAbsent {
        out := out + [ResidueEntry(obs[i], a)];
      }
    }
    assert obs[..|obs|] == obs;
  }

  /** `residueHoldsWorker`: the worker is kept unless everything left is proven to be somebody else's. */
  method ResidueHoldsWorker(left: seq<ResidueEntry>) returns (hold: bool)
    ensures hold <==> HoldsWorker(left)
  {
    for i := 0 to |left|
      invariant forall k :: 0 <= k < i ==> left[k].absence == AbsenceForeign
    {
      if left[i].absence != AbsenceForeign {
        return true;
      }
    }
    hold := false;
  }

  predicate HoldsWorker(left: seq<ResidueEntry>) {
    exists k :: 0 <= k < |left| && left[k].absence != AbsenceForeign
  }
}
