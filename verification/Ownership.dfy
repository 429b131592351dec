/**
  The decision layer of cmd/queuelabrun/ownership.go: what a Node says about who owns the GPU worker,
  and what a transaction may do to it.  Everything here is a function of one observed Node.

  Annotations are kept at document level: `Raw` is the text of an annotation seen through an injective
  codec, so encoding is a constructor and decoding is a match followed by the validation the source does.
 */
module Ownership {
  import opened Common

  const WORKER_TAINT_KEY := "queuelab.gpu-platform/dedicated"
  const NO_SCHEDULE := "NoSchedule"
  const JOURNAL_SCHEMA := 3
  const QUARANTINE_SCHEMA := 1
  const RESIDUE_SCHEMA := 1
  const OWNER_RUN := "run"
  const OWNER_CANARY := "canary"

  datatype Taint = Taint(key: string, value: string, effect: string)

  datatype Identity = Identity(
    kind: string, txID: string, runID: string, arm: string, namespace: string,
    study: string, variant: string, canaryID: string)

  /** What one transaction wrote, so that release can prove nothing moved. */
  datatype Tuple = Tuple(labelValue: string, taintValue: string, taintEffect: string)

  datatype Journal = Journal(
    schema: int, txID: string, runID: string, arm: string, node: string, nodeUID: string,
    kind: string, canaryID: string, study: string, variant: string, namespace: string,
    takenAt: string, installed: Tuple)

  /** Go's zero journal, which an Observation carries when no journal decoded. */
  const ZERO_JOURNAL := Journal(0, "", "", "", "", "", "", "", "", "", "", "", Tuple("", "", ""))

  datatype Left = Left(kind: string, name: string, absence: string)

  datatype Residue = Residue(
    schema: int, txID: string, runID: string, leftAt: string, recordPath: string, left: seq<Left>)

  datatype Quarantine = Quarantine(
    schema: int, quarantineID: string, forcedAt: string, node: string, nodeUID: string,
    priorJournal: Raw, observedLabel: string, observedTaints: seq<Taint>)

  /** The text of one annotation; `Empty` is both an absent key and an empty value, as in the source. */
  datatype Raw =
    | Empty
    | JournalText(journal: Journal)
    | QuarantineText(quarantine: Quarantine)
    | ResidueText(residue: Residue)
    | Unreadable(text: string)

  /** The worker Node; `rest` stands for everything the ownership protocol neither reads nor writes. */
  datatype Node = Node(
    name: string, uid: string, workerLabel: Option<string>, taints: seq<Taint>,
    journal: Raw, quarantine: Raw, residue: Raw, rest: int)

  datatype ResidueNote = NoNote | NoteUnreadable | NoteQuotes(residue: Residue)

  /** The named refusals; `ForeignOwner` carries what the refusal quotes to the operator. */
  datatype Reason =
    | ForeignOwner(holder: string, note: ResidueNote)
    | OwnTxID
    | MarkerWithoutJournal
    | JournalWithoutMarker
    | DuplicateTaintKey
    | BadJournal
    | BadQuarantine
    | QuarantinedNode
    | WrongNode
    | InstalledDiverged
    | NotOurs
    | OwnershipLost
    | NotTheJournalWritten
    | NothingLeftToName

  // ---------------------------------------------------------------- documents

  predicate AcceptableJournal(j: Journal) {
    && j.schema == JOURNAL_SCHEMA
    && j.txID != "" && j.runID != "" && j.arm != "" && j.node != "" && j.nodeUID != ""
    && j.kind != "" && j.namespace != ""
    && j.installed.labelValue != "" && j.installed.taintValue != "" && j.installed.taintEffect != ""
    && (j.kind == OWNER_RUN ==> j.study != "" && j.variant != "")
    && (j.kind == OWNER_CANARY ==> j.canaryID != "" && j.study == "" && j.variant == "")
    && (j.kind == OWNER_RUN || j.kind == OWNER_CANARY)
  }

  function DecodeJournal(raw: Raw): Option<Journal> {
    if raw.JournalText? && AcceptableJournal(raw.journal) then Some(raw.journal) else None
  }

  function DecodeQuarantine(raw: Raw): Option<Quarantine> {
    if raw.QuarantineText? && raw.quarantine.schema == QUARANTINE_SCHEMA && raw.quarantine.quarantineID != ""
    then Some(raw.quarantine) else None
  }

  function DecodeResidue(raw: Raw): Option<Residue> {
    if raw.ResidueText? && raw.residue.schema == RESIDUE_SCHEMA && raw.residue.left != []
    then Some(raw.residue) else None
  }

  // ------------------------------------------------------------------- taints

  /** The taints on the ownership key, in order. */
  function OwnTaints(ts: seq<Taint>): seq<Taint> {
    if ts == [] then [] else
      var init := OwnTaints(ts[..|ts| - 1]);
      if ts[|ts| - 1].key == WORKER_TAINT_KEY then init + [ts[|ts| - 1]] else init
  }

  /** Everybody else's taints, in order. */
  function ForeignTaints(ts: seq<Taint>): seq<Taint> {
    if ts == [] then [] else
      var init := ForeignTaints(ts[..|ts| - 1]);
      if ts[|ts| - 1].key != WORKER_TAINT_KEY then init + [ts[|ts| - 1]] else init
  }

  function OwnershipTaint(value: string): Taint {
    Taint(WORKER_TAINT_KEY, value, NO_SCHEDULE)
  }

  /** The list to patch in on acquisition: a merge patch replaces the array, so the rest is carried over. */
  method WithOwnershipTaint(observed: seq<Taint>, runID: string) returns (out: seq<Taint>)
    ensures ForeignTaints(out) == ForeignTaints(observed)
    ensures OwnTaints(out) == [OwnershipTaint(runID)]
    ensures out == ForeignTaints(observed) + [OwnershipTaint(runID)]
  {
    out := WithoutOwnershipTaint(observed);
    AppendOwnershipTaint(observed, runID);
    out := out + [OwnershipTaint(runID)];
  }

  /** The list to patch in on release: only this experiment's key goes. */
  method WithoutOwnershipTaint(observed: seq<Taint>) returns (out: seq<Taint>)
    ensures out == ForeignTaints(observed)
    ensures forall t :: t in out <==> t in observed && t.key != WORKER_TAINT_KEY
  {
    out := [];
    for i := 0 to |observed|
      invariant out == ForeignTaints(observed[..i])
      invariant forall t :: t in out <==> t in observed[..i] && t.key != WORKER_TAINT_KEY
    {
      assert observed[..i + 1][..i] == observed[..i];
      if observed[i].key != WORKER_TAINT_KEY {
        out := out + [observed[i]];
      }
    }
    assert observed[..|observed|] == observed;
  }

  lemma {:induction false} ForeignIsFixed(ts: seq<Taint>)
    ensures ForeignTaints(ForeignTaints(ts)) == ForeignTaints(ts)
    ensures OwnTaints(ForeignTaints(ts)) == []
    ensures OwnTaints(ts) == [] ==> ForeignTaints(ts) == ts
  {
    if ts != [] {
      var init, last := ts[..|ts| - 1], ts[|ts| - 1];
      ForeignIsFixed(init);
      if last.key != WORKER_TAINT_KEY {
        assert (ForeignTaints(init) + [last])[..|ForeignTaints(init)|] == ForeignTaints(init);
        assert init + [last] == ts;
      }
    }
  }

  lemma AppendOwnershipTaint(ts: seq<Taint>, value: string)
    ensures ForeignTaints(ForeignTaints(ts) + [OwnershipTaint(value)]) == ForeignTaints(ts)
    ensures OwnTaints(ForeignTaints(ts) + [OwnershipTaint(value)]) == [OwnershipTaint(value)]
  {
    ForeignIsFixed(ts);
    var f := ForeignTaints(ts);
    assert (f + [OwnershipTaint(value)])[..|f|] == f;
  }

  // -------------------------------------------------------------- observation

  datatype Observation = Observation(
    nodeName: string, nodeUID: string, workerLabel: Option<string>,
    taints: seq<Taint>, allTaints: seq<Taint>,
    journalRaw: Raw, journal: Journal, journalErr: bool,
    quarantineRaw: Raw,
    residueRaw: Raw, residue: Option<Residue>)

  function Observe(n: Node): Observation {
    Observation(
      n.name, n.uid, n.workerLabel, OwnTaints(n.taints), n.taints,
      n.journal,
      if DecodeJournal(n.journal).Some? then DecodeJournal(n.journal).value else ZERO_JOURNAL,
      n.journal != Empty && DecodeJournal(n.journal).None?,
      n.quarantine, n.residue, DecodeResidue(n.residue))
  }

  /** `observe`: the loop that reduces a Node to what the decisions read. */
  method ReadOwnership(n: Node) returns (obs: Observation)
    ensures obs == Observe(n)
  {
    var own: seq<Taint> := [];
    for i := 0 to |n.taints|
      invariant own == OwnTaints(n.taints[..i])
    {
      assert n.taints[..i + 1][..i] == n.taints[..i];
      if n.taints[i].key == WORKER_TAINT_KEY {
        own := own + [n.taints[i]];
      }
    }
    assert n.taints[..|n.taints|] == n.taints;
    var decoded := DecodeJournal(n.journal);
    obs := Observation(
      n.name, n.uid, n.workerLabel, own, n.taints, n.journal,
      if decoded.Some? then decoded.value else ZERO_JOURNAL,
      n.journal != Empty && decoded.None?,
      n.quarantine, n.residue, DecodeResidue(n.residue));
  }

  function NoteOf(obs: Observation): ResidueNote {
    if obs.residueRaw == Empty then NoNote
    else if obs.residue.None? then NoteUnreadable
    else NoteQuotes(obs.residue.value)
  }

  // ---------------------------------------------------------------- decisions

  function DecideAcquire(obs: Observation, id: Identity, takenAt: string): Result<Journal, Reason> {
    var hasMarker := obs.workerLabel.Some? || |obs.taints| == 1;
    if obs.quarantineRaw != Empty then Err(QuarantinedNode)
    else if |obs.taints| > 1 then Err(DuplicateTaintKey)
    else if obs.journalRaw != Empty && obs.journalErr then Err(BadJournal)
    else if obs.journalRaw != Empty && !hasMarker then Err(JournalWithoutMarker)
    else if obs.journalRaw != Empty && obs.journal.txID == id.txID then Err(OwnTxID)
    else if obs.journalRaw != Empty then Err(ForeignOwner(obs.journal.txID, NoteOf(obs)))
    else if hasMarker then Err(MarkerWithoutJournal)
    else Ok(Journal(
              JOURNAL_SCHEMA, id.txID, id.runID, id.arm, obs.nodeName, obs.nodeUID,
              id.kind, id.canaryID, id.study, id.variant, id.namespace, takenAt,
              Tuple(id.runID, id.runID, NO_SCHEDULE)))
  }

  /** `verifyInstalled`: None when the two installed values and the node identity are intact. */
  function VerifyInstalled(obs: Observation, j: Journal): Option<Reason> {
    if obs.workerLabel != Some(j.installed.labelValue) then Some(InstalledDiverged)
    else if |obs.taints| != 1 then Some(InstalledDiverged)
    else if obs.taints[0].value != j.installed.taintValue || obs.taints[0].effect != j.installed.taintEffect
    then Some(InstalledDiverged)
    else if obs.nodeUID != j.nodeUID then Some(WrongNode)
    else None
  }

  /** `verifyObserved`: did our write land, completely. */
  function VerifyObserved(obs: Observation, j: Journal): Option<Reason> {
    if obs.journalErr then Some(BadJournal)
    else if obs.journal != j then Some(NotTheJournalWritten)
    else VerifyInstalled(obs, j)
  }

  predicate CarriesOurTaint(taints: seq<Taint>, j: Journal) {
    exists i :: 0 <= i < |taints|
             && taints[i].value == j.installed.taintValue && taints[i].effect == j.installed.taintEffect
  }

  /** `verifyClean`: this transaction's markers are gone, which is not that the node is free. */
  function VerifyClean(obs: Observation, j: Journal): Option<Reason> {
    if obs.nodeUID != j.nodeUID then Some(WrongNode)
    else if obs.journalRaw != Empty then
      if obs.journalErr then Some(BadJournal)
      else if obs.journal.txID == j.txID then Some(InstalledDiverged)
      else None
    else if obs.workerLabel == Some(j.installed.labelValue) then Some(InstalledDiverged)
    else if CarriesOurTaint(obs.taints, j) then Some(InstalledDiverged)
    else None
  }

  datatype ReleaseAction = Restore | AlreadyDone

  function DecideRelease(obs: Observation, txID: string): Result<ReleaseAction, Reason> {
    if obs.quarantineRaw != Empty then Err(QuarantinedNode)
    else if obs.journalRaw == Empty then
      if obs.workerLabel.Some? || |obs.taints| > 0 then Err(MarkerWithoutJournal) else Ok(AlreadyDone)
    else if obs.journalErr then Err(BadJournal)
    else if obs.journal.txID != txID then Err(NotOurs)
    else if VerifyInstalled(obs, obs.journal).Some? then Err(VerifyInstalled(obs, obs.journal).value)
    else Ok(Restore)
  }

  function DecideForce(obs: Observation, nodeUID: string, quarantineID: string, forcedAt: string)
    : Result<Quarantine, Reason>
  {
    if obs.quarantineRaw != Empty then Err(QuarantinedNode)
    else if obs.nodeUID != nodeUID then Err(WrongNode)
    else Ok(Quarantine(QUARANTINE_SCHEMA, quarantineID, forcedAt, obs.nodeName, obs.nodeUID,
                       obs.journalRaw, if obs.workerLabel.Some? then obs.workerLabel.value else "", obs.taints))
  }

  /** `decideClear`: None when the record is the one named, on the object it was written about. */
  function DecideClear(obs: Observation, quarantineID: string): Option<Reason> {
    if obs.quarantineRaw == Empty then Some(NotOurs)
    else match DecodeQuarantine(obs.quarantineRaw)
      case None => Some(BadQuarantine)
      case Some(q) =>
        if q.quarantineID != quarantineID then Some(NotOurs)
        else if q.node != obs.nodeName || q.nodeUID != obs.nodeUID then Some(WrongNode)
        else None
  }

  // ---------------------------------------------------------- the five edits

  /** One state change of the protocol, with the arguments its caller supplies. */
  datatype Op =
    | Acquire(id: Identity, takenAt: string)
    | Release(txID: string)
    | Force(nodeUID: string, quarantineID: string, forcedAt: string)
    | Clear(clearedID: string)
    | Stamp(journal: Journal, left: seq<Left>, leftAt: string, recordPath: string)

  function StampRecord(op: Op): Residue
    requires op.Stamp?
  {
    Residue(RESIDUE_SCHEMA, op.journal.txID, op.journal.runID, op.leftAt, op.recordPath, op.left)
  }

  /** The decision and the in-place edit of the Node object that follows it, before the patch is sent. */
  function Edit(op: Op, n: Node): Result<Node, Reason> {
    var obs := Observe(n);
    match op
    case Acquire(id, takenAt) =>
      (match DecideAcquire(obs, id, takenAt)
       case Err(e) => Err(e)
       case Ok(j) => Ok(n.(workerLabel := Some(j.installed.labelValue), journal := JournalText(j),
                           taints := ForeignTaints(n.taints) + [OwnershipTaint(j.installed.taintValue)])))
    case Release(txID) =>
      (match DecideRelease(obs, txID)
       case Err(e) => Err(e)
       case Ok(AlreadyDone) => Err(OwnershipLost)
       case Ok(Restore) => Ok(n.(workerLabel := None, journal := Empty, residue := Empty,
                                 taints := ForeignTaints(n.taints))))
    case Force(uid, qid, at) =>
      (match DecideForce(obs, uid, qid, at)
       case Err(e) => Err(e)
       case Ok(q) => Ok(n.(workerLabel := None, journal := Empty, quarantine := QuarantineText(q),
                           taints := ForeignTaints(n.taints))))
    case Clear(qid) =>
      (match DecideClear(obs, qid)
       case Some(e) => Err(e)
       case None => Ok(n.(quarantine := Empty, residue := Empty)))
    case Stamp(j, left, at, path) =>
      if left == [] then Err(NothingLeftToName)
      else match VerifyObserved(obs, j)
        case Some(e) => Err(e)
        case None => Ok(n.(residue := ResidueText(StampRecord(op))))
  }

  // -------------------------------------------------------- states of a Node

  /** What `decodeJournal` will accept back, so what an identity has to supply. */
  predicate WellFormedIdentity(id: Identity) {
    && id.txID != "" && id.runID != "" && id.arm != "" && id.namespace != ""
    && (id.kind == OWNER_RUN || id.kind == OWNER_CANARY)
    && (id.kind == OWNER_RUN ==> id.study != "" && id.variant != "")
    && (id.kind == OWNER_CANARY ==> id.canaryID != "" && id.study == "" && id.variant == "")
  }

  /** The arguments the callers of the five operations supply. */
  predicate WellFormedOp(op: Op) {
    && (op.Acquire? ==> WellFormedIdentity(op.id))
    && (op.Force? ==> op.quarantineID != "")
  }

  predicate Unmarked(n: Node) {
    n.workerLabel == None && OwnTaints(n.taints) == [] && n.journal == Empty
  }

  predicate Free(n: Node) {
    Unmarked(n) && n.quarantine == Empty && n.residue == Empty
  }

  predicate ExplainsTx(raw: Raw, j: Journal) {
    raw == Empty
    || (DecodeResidue(raw).Some? && raw.residue.txID == j.txID && raw.residue.runID == j.runID)
  }

  /** The complete tuple of one transaction: label, single taint, journal, node identity, and nothing else. */
  predicate HeldBy(n: Node, j: Journal) {
    && n.workerLabel == Some(j.runID)
    && OwnTaints(n.taints) == [OwnershipTaint(j.runID)]
    && n.journal == JournalText(j)
    && AcceptableJournal(j)
    && j.installed == Tuple(j.runID, j.runID, NO_SCHEDULE)
    && j.node == n.name && j.nodeUID == n.uid
    && n.quarantine == Empty
    && ExplainsTx(n.residue, j)
  }

  predicate Held(n: Node) {
    n.journal.JournalText? && HeldBy(n, n.journal.journal)
  }

  predicate HoldsTx(n: Node, txID: string) {
    Held(n) && n.journal.journal.txID == txID
  }

  predicate QuarantinedAs(n: Node, q: Quarantine) {
    && Unmarked(n)
    && n.quarantine == QuarantineText(q)
    && DecodeQuarantine(n.quarantine).Some?
    && q.node == n.name && q.nodeUID == n.uid
    && (n.residue == Empty || DecodeResidue(n.residue).Some?)
  }

  predicate Quarantined(n: Node) {
    n.quarantine.QuarantineText? && QuarantinedAs(n, n.quarantine.quarantine)
  }

  /** The three states the protocol allows. */
  predicate Sound(n: Node) {
    && n.name != "" && n.uid != ""
    && (Free(n) || Held(n) || Quarantined(n))
  }

  // ------------------------------------------------ what the decisions mean

  /** Acquisition proceeds from exactly one state, whatever else is on the node. */
  lemma AcquireExactlyWhenUnowned(n: Node, id: Identity, takenAt: string)
    ensures Edit(Acquire(id, takenAt), n).Ok? <==> Unmarked(n) && n.quarantine == Empty
  {
  }

  function JournalFor(n: Node, id: Identity, takenAt: string): Journal {
    Journal(JOURNAL_SCHEMA, id.txID, id.runID, id.arm, n.name, n.uid, id.kind, id.canaryID, id.study, id.variant,
            id.namespace, takenAt, Tuple(id.runID, id.runID, NO_SCHEDULE))
  }

  /** What an acquisition leaves on the Node. */
  lemma AcquisitionWrites(n: Node, id: Identity, takenAt: string)
    requires Edit(Acquire(id, takenAt), n).Ok?
    ensures Edit(Acquire(id, takenAt), n).value
            == n.(workerLabel := Some(id.runID), journal := JournalText(JournalFor(n, id, takenAt)),
                  taints := ForeignTaints(n.taints) + [OwnershipTaint(id.runID)])
  {
    assert DecideAcquire(Observe(n), id, takenAt) == Ok(JournalFor(n, id, takenAt));
  }

  /** `decodeJournal` accepts what acquisition wrote exactly when its identity and its Node are named. */
  lemma AcceptedExactlyWhenWellFormed(n: Node, id: Identity, takenAt: string)
    ensures AcceptableJournal(JournalFor(n, id, takenAt)) <==> WellFormedIdentity(id) && n.name != "" && n.uid != ""
  {
  }

  lemma TupleIsInstalled(m: Node, j: Journal)
    requires m.workerLabel == Some(j.runID) && OwnTaints(m.taints) == [OwnershipTaint(j.runID)]
    requires j.installed == Tuple(j.runID, j.runID, NO_SCHEDULE) && j.nodeUID == m.uid
    ensures VerifyInstalled(Observe(m), j).None?
  {
  }

  lemma ReadBackExactlyWhenAcceptable(m: Node, j: Journal)
    requires m.journal == JournalText(j) && VerifyInstalled(Observe(m), j).None?
    ensures VerifyObserved(Observe(m), j).None? <==> AcceptableJournal(j)
  {
  }

  /**
    The journal acquisition writes reads back as the complete tuple exactly when the identity was well
    formed: `decideAcquire` itself validates nothing, so this is what its callers owe it.
   */
  lemma AcquisitionReadsBack(n: Node, id: Identity, takenAt: string)
    requires Edit(Acquire(id, takenAt), n).Ok?
    ensures var m := Edit(Acquire(id, takenAt), n).value;
            && m.journal.JournalText?
            && (VerifyObserved(Observe(m), m.journal.journal).None?
                <==> WellFormedIdentity(id) && n.name != "" && n.uid != "")
  {
    var m, j := Edit(Acquire(id, takenAt), n).value, JournalFor(n, id, takenAt);
    AcquisitionWrites(n, id, takenAt);
    AppendOwnershipTaint(n.taints, id.runID);
    AcceptedExactlyWhenWellFormed(n, id, takenAt);
    TupleIsInstalled(m, j);
    ReadBackExactlyWhenAcceptable(m, j);
  }

  lemma HeldReleases(m: Node, j: Journal)
    requires m.journal == JournalText(j) && AcceptableJournal(j) && m.quarantine == Empty
    requires VerifyInstalled(Observe(m), j).None?
    ensures Edit(Release(j.txID), m)
            == Ok(m.(workerLabel := None, journal := Empty, residue := Empty, taints := ForeignTaints(m.taints)))
  {
  }

  /** Release undoes acquisition exactly, taint order included. */
  lemma ReleaseUndoesAcquire(n: Node, id: Identity, takenAt: string)
    requires Free(n) && n.name != "" && n.uid != "" && WellFormedIdentity(id)
    ensures var m := Edit(Acquire(id, takenAt), n);
            m.Ok? && Edit(Release(id.txID), m.value) == Ok(n)
  {
    AcquireExactlyWhenUnowned(n, id, takenAt);
    var m, j := Edit(Acquire(id, takenAt), n).value, JournalFor(n, id, takenAt);
    AcquisitionWrites(n, id, takenAt);
    AppendOwnershipTaint(n.taints, id.runID);
    AcceptedExactlyWhenWellFormed(n, id, takenAt);
    TupleIsInstalled(m, j);
    HeldReleases(m, j);
    ForeignIsFixed(n.taints);
  }

  /** Breaking a held node and clearing the record leaves what its own release would have left. */
  lemma ForceThenClearIsRelease(m: Node, qid: string, at: string)
    requires Sound(m) && Held(m) && qid != ""
    ensures var broken := Edit(Force(m.uid, qid, at), m);
            && broken.Ok?
            && broken.value.quarantine.QuarantineText?
            && broken.value.quarantine.quarantine.priorJournal == m.journal
            && Edit(Clear(qid), broken.value) == Edit(Release(m.journal.journal.txID), m)
  {
    ForeignIsFixed(m.taints);
  }

  /** A forced node is acquirable by nobody: force alone never frees it. */
  lemma ForcedNodeRefusesAcquire(n: Node, uid: string, qid: string, at: string, id: Identity, takenAt: string)
    requires Edit(Force(uid, qid, at), n).Ok?
    ensures Edit(Acquire(id, takenAt), Edit(Force(uid, qid, at), n).value) == Err(QuarantinedNode)
  {
  }

  // ------------------------------------------- which answer each Node gets

  /** Somebody put a marker on the Node: the label, or a taint on the ownership key. */
  predicate Marked(n: Node) {
    n.workerLabel.Some? || exists t <- n.taints :: t.key == WORKER_TAINT_KEY
  }

  /** Two taints on the ownership key, which no acquisition can have installed. */
  predicate Twice(ts: seq<Taint>) {
    exists i, k :: 0 <= i < k < |ts| && ts[i].key == ts[k].key == WORKER_TAINT_KEY
  }

  lemma {:induction false} OwnTaintsCount(ts: seq<Taint>)
    ensures |OwnTaints(ts)| > 0 <==> exists t <- ts :: t.key == WORKER_TAINT_KEY
    ensures |OwnTaints(ts)| > 1 <==> Twice(ts)
  {
    if ts != [] {
      var rest, last := ts[..|ts| - 1], ts[|ts| - 1];
      OwnTaintsCount(rest);
      assert ts == rest + [last];
      if Twice(rest) {
        var i, k :| 0 <= i < k < |rest| && rest[i].key == rest[k].key == WORKER_TAINT_KEY;
        assert ts[i].key == ts[k].key == WORKER_TAINT_KEY;
      }
      if last.key == WORKER_TAINT_KEY && |OwnTaints(rest)| > 0 {
        var t :| t in rest && t.key == WORKER_TAINT_KEY;
        var i :| 0 <= i < |rest| && rest[i] == t;
        assert ts[i].key == ts[|ts| - 1].key == WORKER_TAINT_KEY;
      }
      if Twice(ts) {
        var i, k :| 0 <= i < k < |ts| && ts[i].key == ts[k].key == WORKER_TAINT_KEY;
        assert rest[i] in rest;
        if k < |rest| {
          assert rest[i].key == rest[k].key == WORKER_TAINT_KEY;
        }
      }
    }
  }

  /** What a foreign-owner refusal quotes of the Node. */
  function NoteFor(n: Node): ResidueNote {
    match n.residue
    case Empty => NoNote
    case ResidueText(r) => if r.schema == RESIDUE_SCHEMA && r.left != [] then NoteQuotes(r) else NoteUnreadable
    case JournalText(_) => NoteUnreadable
    case QuarantineText(_) => NoteUnreadable
    case Unreadable(_) => NoteUnreadable
  }

  /** The refusal of an acquisition, on any Node whatever: which is given when, and what it names. */
  lemma AcquireRefusals(n: Node, id: Identity, at: string)
    ensures var r, clear := Edit(Acquire(id, at), n), n.quarantine == Empty && !Twice(n.taints);
            && (r == Err(QuarantinedNode) <==> n.quarantine != Empty)
            && (r == Err(DuplicateTaintKey) <==> n.quarantine == Empty && Twice(n.taints))
            && (r == Err(BadJournal) <==> clear && n.journal != Empty && DecodeJournal(n.journal).None?)
            && (r == Err(JournalWithoutMarker) <==> clear && DecodeJournal(n.journal).Some? && !Marked(n))
            && (r == Err(MarkerWithoutJournal) <==> clear && n.journal == Empty && Marked(n))
            && (r == Err(OwnTxID) <==>
                  clear && DecodeJournal(n.journal).Some? && Marked(n) && n.journal.journal.txID == id.txID)
            && (r.Err? && r.error.ForeignOwner? <==>
                  clear && DecodeJournal(n.journal).Some? && Marked(n) && n.journal.journal.txID != id.txID)
            && (r.Err? && r.error.ForeignOwner? ==> r.error == ForeignOwner(n.journal.journal.txID, NoteFor(n)))
            && (r.Ok? <==> clear && n.journal == Empty && !Marked(n))
  {
    OwnTaintsCount(n.taints);
  }

  /** In the states the protocol allows: the holder is named with its note, and nothing else is. */
  predicate RefusedFor(n: Node, id: Identity, reason: Reason) {
    match reason
    case QuarantinedNode => Quarantined(n)
    case OwnTxID => HoldsTx(n, id.txID)
    case ForeignOwner(holder, note) => HoldsTx(n, holder) && holder != id.txID && note == NoteFor(n)
    case _ => false
  }

  lemma SoundRefusals(n: Node, id: Identity, at: string, reason: Reason)
    requires Sound(n)
    ensures Edit(Acquire(id, at), n) == Err(reason) <==> RefusedFor(n, id, reason)
    ensures Edit(Acquire(id, at), n).Ok? <==> Free(n)
  {
  }

  /** The tuple of a journal is on the Node: its label, its one taint, and the Node is the one it names. */
  predicate Intact(n: Node, j: Journal) {
    && n.workerLabel == Some(j.installed.labelValue)
    && OwnTaints(n.taints) == [Taint(WORKER_TAINT_KEY, j.installed.taintValue, j.installed.taintEffect)]
    && n.uid == j.nodeUID
  }

  lemma {:induction false} OwnTaintsKeyed(ts: seq<Taint>)
    ensures forall t <- OwnTaints(ts) :: t.key == WORKER_TAINT_KEY
  {
    if ts != [] {
      OwnTaintsKeyed(ts[..|ts| - 1]);
    }
  }

  lemma InstalledExactlyWhenIntact(n: Node, j: Journal)
    ensures VerifyInstalled(Observe(n), j).None? <==> Intact(n, j)
    ensures VerifyInstalled(Observe(n), j) == Some(WrongNode) <==> n.uid != j.nodeUID && Intact(n.(uid := j.nodeUID), j)
  {
    OwnTaintsKeyed(n.taints);
    if |OwnTaints(n.taints)| == 1 {
      assert OwnTaints(n.taints)[0] in OwnTaints(n.taints);
    }
  }

  /** The journal an observation of the Node carries: the one that decodes, else the zero journal. */
  function Journalled(n: Node): Journal {
    if DecodeJournal(n.journal).Some? then n.journal.journal else ZERO_JOURNAL
  }

  /** What the read-back of an acquisition finds wrong, on any Node whatever. */
  lemma ObservedDecisions(n: Node, j: Journal)
    ensures var r, bad := VerifyObserved(Observe(n), j), n.journal != Empty && DecodeJournal(n.journal).None?;
            && (r == Some(BadJournal) <==> bad)
            && (r == Some(NotTheJournalWritten) <==> !bad && Journalled(n) != j)
            && (r == Some(WrongNode) <==>
                  !bad && Journalled(n) == j && n.uid != j.nodeUID && Intact(n.(uid := j.nodeUID), j))
            && (r == Some(InstalledDiverged) <==> !bad && Journalled(n) == j && !Intact(n.(uid := j.nodeUID), j))
            && (r == None <==> !bad && Journalled(n) == j && Intact(n, j))
  {
    InstalledExactlyWhenIntact(n, j);
    InstalledExactlyWhenIntact(n.(uid := j.nodeUID), j);
  }

  /** One of the taints on the ownership key is this transaction's. */
  predicate CarriesTaintOf(n: Node, j: Journal) {
    exists t <- OwnTaints(n.taints) :: t.value == j.installed.taintValue && t.effect == j.installed.taintEffect
  }

  /** What the read-back of a release finds left, on any Node whatever. */
  lemma CleanDecisions(n: Node, j: Journal)
    ensures var r, ours, journal := VerifyClean(Observe(n), j), n.uid == j.nodeUID, DecodeJournal(n.journal);
            && (r == Some(WrongNode) <==> !ours)
            && (r == Some(BadJournal) <==> ours && n.journal != Empty && journal.None?)
            && (r == Some(InstalledDiverged) <==>
                  ours && if n.journal == Empty
                          then n.workerLabel == Some(j.installed.labelValue) || CarriesTaintOf(n, j)
                          else journal.Some? && journal.value.txID == j.txID)
            && (r == None ==> ours)
  {
    var ts := OwnTaints(n.taints);
    assert CarriesOurTaint(ts, j) <==> CarriesTaintOf(n, j) by {
      if CarriesTaintOf(n, j) {
        var t :| t in ts && t.value == j.installed.taintValue && t.effect == j.installed.taintEffect;
        var i :| 0 <= i < |ts| && ts[i] == t;
      }
    }
  }

  /** The decision of a release, on any Node whatever. */
  lemma ReleaseDecisions(n: Node, txID: string)
    ensures var r, journal := DecideRelease(Observe(n), txID), DecodeJournal(n.journal);
            && (r == Err(QuarantinedNode) <==> n.quarantine != Empty)
            && (r == Ok(AlreadyDone) <==> n.quarantine == Empty && n.journal == Empty && !Marked(n))
            && (r == Err(MarkerWithoutJournal) <==> n.quarantine == Empty && n.journal == Empty && Marked(n))
            && (r == Err(BadJournal) <==> n.quarantine == Empty && n.journal != Empty && journal.None?)
            && (r == Err(NotOurs) <==> n.quarantine == Empty && journal.Some? && journal.value.txID != txID)
            && (r == Ok(Restore) <==>
                  n.quarantine == Empty && journal.Some? && journal.value.txID == txID && Intact(n, journal.value))
  {
    OwnTaintsCount(n.taints);
    if DecodeJournal(n.journal).Some? {
      InstalledExactlyWhenIntact(n, DecodeJournal(n.journal).value);
    }
  }

  // --------------------------------------------------- what each edit writes

  /** A release takes the label, the taint, the journal and the note off, and touches nothing else. */
  lemma ReleaseWrites(n: Node, txID: string)
    ensures Edit(Release(txID), n).Ok? <==> DecideRelease(Observe(n), txID) == Ok(Restore)
    ensures Edit(Release(txID), n).Ok? ==>
              var m := Edit(Release(txID), n).value;
              && Unmarked(m) && m.residue == Empty && m.quarantine == n.quarantine
              && m.taints == ForeignTaints(n.taints) && m.name == n.name && m.uid == n.uid && m.rest == n.rest
  {
    ForeignIsFixed(n.taints);
  }

  /** A force moves the whole claim into its record: the journal, the label and the taints it removed. */
  lemma ForceWrites(n: Node, uid: string, qid: string, at: string)
    ensures Edit(Force(uid, qid, at), n) == Err(QuarantinedNode) <==> n.quarantine != Empty
    ensures Edit(Force(uid, qid, at), n) == Err(WrongNode) <==> n.quarantine == Empty && n.uid != uid
    ensures Edit(Force(uid, qid, at), n).Ok? ==>
              var m := Edit(Force(uid, qid, at), n).value;
              && Unmarked(m) && m.taints == ForeignTaints(n.taints)
              && m.name == n.name && m.uid == n.uid && m.rest == n.rest && m.residue == n.residue
              && m.quarantine.QuarantineText?
              && var q := m.quarantine.quarantine;
                 && q.schema == 1 && q.quarantineID == qid && q.forcedAt == at && q.node == n.name && q.nodeUID == n.uid
                 && q.priorJournal == n.journal && q.observedTaints == OwnTaints(n.taints)
                 && (n.workerLabel.Some? ==> q.observedLabel == n.workerLabel.value)
                 && (n.workerLabel.None? ==> q.observedLabel == "")
  {
    ForeignIsFixed(n.taints);
  }

  /** A clear removes exactly the record it names, with the note, and touches nothing else. */
  lemma ClearWrites(n: Node, qid: string)
    ensures Edit(Clear(qid), n) == Err(BadQuarantine) <==>
              n.quarantine != Empty && DecodeQuarantine(n.quarantine).None?
    ensures Edit(Clear(qid), n) == Err(NotOurs) <==>
              n.quarantine == Empty
              || (DecodeQuarantine(n.quarantine).Some? && n.quarantine.quarantine.quarantineID != qid)
    ensures Edit(Clear(qid), n).Ok? <==>
              && DecodeQuarantine(n.quarantine).Some? && n.quarantine.quarantine.quarantineID == qid
              && n.quarantine.quarantine.node == n.name && n.quarantine.quarantine.nodeUID == n.uid
    ensures Edit(Clear(qid), n).Ok? ==>
              var m := Edit(Clear(qid), n).value;
              && m.quarantine == Empty && m.residue == Empty && m.workerLabel == n.workerLabel
              && m.taints == n.taints && m.journal == n.journal
              && m.name == n.name && m.uid == n.uid && m.rest == n.rest
  {
  }

  /** A stamp lands only on the intact tuple of its own journal, and touches the note alone. */
  lemma StampWrites(n: Node, j: Journal, left: seq<Left>, at: string, path: string)
    ensures Edit(Stamp(j, left, at, path), n) == Err(NothingLeftToName) <==> left == []
    ensures Edit(Stamp(j, left, at, path), n).Ok? <==>
              && left != [] && Intact(n, j)
              && (DecodeJournal(n.journal) == Some(j) || (n.journal == Empty && j == ZERO_JOURNAL))
    ensures Edit(Stamp(j, left, at, path), n).Ok? ==>
              var m := Edit(Stamp(j, left, at, path), n).value;
              && m.residue == ResidueText(Residue(1, j.txID, j.runID, at, path, left))
              && m.workerLabel == n.workerLabel && m.taints == n.taints && m.journal == n.journal
              && m.quarantine == n.quarantine && m.name == n.name && m.uid == n.uid && m.rest == n.rest
  {
    InstalledExactlyWhenIntact(n, j);
  }

  /** What a document has to say to be accepted, by kind. */
  lemma DecodedSays(raw: Raw)
    ensures DecodeQuarantine(raw).Some? <==>
              raw.QuarantineText? && raw.quarantine.schema == 1 && raw.quarantine.quarantineID != ""
    ensures DecodeResidue(raw).Some? <==> raw.ResidueText? && raw.residue.schema == 1 && raw.residue.left != []
    ensures DecodeJournal(raw).Some? ==>
              && raw.JournalText? && raw.journal.schema == 3
              && "" !in [raw.journal.installed.labelValue, raw.journal.installed.taintValue,
                         raw.journal.installed.taintEffect]
  {
  }
}
