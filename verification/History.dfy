/** What every lawful history of the worker Node promises: the safety of the ownership protocol. */
module History {
  import opened Common
  import opened Ownership
  import opened Protocol

  // ------------------------------------------------- free, held or quarantined

  lemma AcquireFromFree(n: Node, id: Identity, at: string)
    requires Sound(n) && WellFormedIdentity(id) && Edit(Acquire(id, at), n).Ok?
    ensures Free(n) && Sound(Edit(Acquire(id, at), n).value) && HoldsTx(Edit(Acquire(id, at), n).value, id.txID)
  {
    AcquireExactlyWhenUnowned(n, id, at);
    AcquisitionWrites(n, id, at);
    AppendOwnershipTaint(n.taints, id.runID);
    AcceptedExactlyWhenWellFormed(n, id, at);
    assert HeldBy(Edit(Acquire(id, at), n).value, JournalFor(n, id, at));
  }

  lemma ReleaseFromHeld(n: Node, txID: string)
    requires Sound(n) && Edit(Release(txID), n).Ok?
    ensures HoldsTx(n, txID) && Free(Edit(Release(txID), n).value)
  {
    ForeignIsFixed(n.taints);
  }

  lemma ForceToQuarantine(n: Node, uid: string, qid: string, at: string)
    requires Sound(n) && qid != "" && Edit(Force(uid, qid, at), n).Ok?
    ensures !Quarantined(n) && Quarantined(Edit(Force(uid, qid, at), n).value)
  {
    ForeignIsFixed(n.taints);
  }

  lemma StampOnHeld(n: Node, op: Op)
    requires Sound(n) && op.Stamp? && Edit(op, n).Ok?
    ensures HeldBy(n, op.journal) && HeldBy(Edit(op, n).value, op.journal)
  {
  }

  /** From a sound Node every operation starts in the state it is for, and ends in a sound one. */
  lemma EditKeepsSound(op: Op, n: Node)
    requires Sound(n) && WellFormedOp(op) && Edit(op, n).Ok?
    ensures Sound(Edit(op, n).value)
    ensures match op
            case Acquire(id, _) => Free(n) && HoldsTx(Edit(op, n).value, id.txID)
            case Release(txID) => HoldsTx(n, txID) && Free(Edit(op, n).value)
            case Force(_, _, _) => !Quarantined(n) && Quarantined(Edit(op, n).value)
            case Clear(_) => Quarantined(n) && Free(Edit(op, n).value)
            case Stamp(j, _, _, _) => HeldBy(n, j) && HeldBy(Edit(op, n).value, j)
  {
    match op
    case Acquire(id, at) => AcquireFromFree(n, id, at);
    case Release(txID) => ReleaseFromHeld(n, txID);
    case Force(uid, qid, at) => ForceToQuarantine(n, uid, qid, at);
    case Clear(qid) =>
    case Stamp(_, _, _, _) => StampOnHeld(n, op);
  }

  lemma {:induction false} EveryVersionIsSound(h: seq<Version>, k: nat)
    requires Lawful(h) && k < |h|
    ensures Sound(h[k].node)
  {
    if k > 0 {
      EveryVersionIsSound(h, k - 1);
      assert LawfulStep(h, k);
      if h[k].cause.Did? {
        EditKeepsSound(h[k].cause.op, h[k - 1].node);
      }
    }
  }

  /**
    Over every interleaving from a free Node, every version is exactly one of the three states, and at most
    one transaction holds it, with its complete label, single taint, journal and UID.
   */
  lemma FreeHeldOrQuarantined(w: World, es: seq<Event>, k: nat)
    requires Initial(w) && k < |Execute(w, es).past|
    ensures var n := Execute(w, es).past[k].node;
            && (Free(n) || Held(n) || Quarantined(n))
            && !(Free(n) && Held(n)) && !(Free(n) && Quarantined(n)) && !(Held(n) && Quarantined(n))
            && (Quarantined(n) ==> Unmarked(n))
            && (forall s, t :: HoldsTx(n, s) && HoldsTx(n, t) ==> s == t)
  {
    InitialIsLawful(w);
    EveryInterleavingIsLawful(w, es);
    EveryVersionIsSound(Execute(w, es).past, k);
  }

  /** A residue note exists only while there is a hold to explain, and then names the holder. */
  lemma ResidueNamesTheHolder(w: World, es: seq<Event>, k: nat)
    requires Initial(w) && k < |Execute(w, es).past|
    ensures var n := Execute(w, es).past[k].node;
            && (n.residue != Empty ==> Held(n) || Quarantined(n))
            && (Held(n) && n.residue != Empty ==>
                  DecodeResidue(n.residue).Some? && n.residue.residue.txID == n.journal.journal.txID)
            && (forall id: Identity, at: string ::
                  var r := Edit(Acquire(id, at), n);
                  r.Err? && r.error.ForeignOwner? ==>
                    && HoldsTx(n, r.error.holder)
                    && (r.error.note.NoNote?
                        || (r.error.note.NoteQuotes? && r.error.note.residue.txID == r.error.holder)))
  {
    InitialIsLawful(w);
    EveryInterleavingIsLawful(w, es);
    EveryVersionIsSound(Execute(w, es).past, k);
  }

  // ------------------------------------------------------- continuous holding

  predicate Ends(v: Version, txID: string) {
    v.cause == Recreated || (v.cause.Did? && (v.cause.op == Release(txID) || v.cause.op.Force?))
  }

  /** How holding changes over one step. */
  lemma HoldingStep(h: seq<Version>, k: nat, txID: string)
    requires Lawful(h) && 0 < k < |h|
    ensures HoldsTx(h[k - 1].node, txID) && HoldsTx(h[k].node, txID) ==>
              h[k].node.journal == h[k - 1].node.journal
    ensures HoldsTx(h[k - 1].node, txID) && !HoldsTx(h[k].node, txID) ==> Ends(h[k], txID)
    ensures !HoldsTx(h[k - 1].node, txID) && HoldsTx(h[k].node, txID) ==> Acquires(h[k], txID)
  {
    EveryVersionIsSound(h, k - 1);
    EveryVersionIsSound(h, k);
    assert LawfulStep(h, k);
    if h[k].cause.Did? {
      EditKeepsSound(h[k].cause.op, h[k - 1].node);
    }
  }

  /** A held version goes back to the one acquisition of that transaction without a break. */
  lemma {:induction false} AcquiredAt(h: seq<Version>, k: nat, txID: string) returns (a: nat)
    requires Lawful(h) && k < |h| && HoldsTx(h[k].node, txID)
    ensures a <= k && Acquires(h[a], txID)
    ensures forall m :: a <= m <= k ==> HoldsTx(h[m].node, txID) && h[m].node.journal == h[k].node.journal
  {
    assert k > 0;
    HoldingStep(h, k, txID);
    if HoldsTx(h[k - 1].node, txID) {
      a := AcquiredAt(h, k - 1, txID);
    } else {
      a := k;
    }
  }

  lemma InstalledAtOnePlace(h: seq<Version>, a: nat, b: nat, txID: string)
    requires InstallsOnce(h) && a < |h| && b < |h| && Acquires(h[a], txID) && Acquires(h[b], txID)
    ensures a == b
  {
  }

  /** One transaction's hold is one interval, under one journal. */
  lemma HeldContinuously(h: seq<Version>, i: nat, m: nat, k: nat, txID: string)
    requires Lawful(h) && i <= m <= k < |h|
    requires HoldsTx(h[i].node, txID) && HoldsTx(h[k].node, txID)
    ensures HoldsTx(h[m].node, txID)
    ensures h[i].node.journal == h[m].node.journal == h[k].node.journal
  {
    var a := AcquiredAt(h, i, txID);
    var b := AcquiredAt(h, k, txID);
    InstalledAtOnePlace(h, a, b, txID);
  }

  /** Once installed and no longer held, never held again. */
  lemma {:induction false} LostForGood(h: seq<Version>, a: nat, m: nat, k: nat, txID: string)
    requires Lawful(h) && a <= m <= k < |h|
    requires Acquires(h[a], txID) && !HoldsTx(h[m].node, txID)
    ensures !HoldsTx(h[k].node, txID)
  {
    if HoldsTx(h[k].node, txID) {
      var b := AcquiredAt(h, k, txID);
      InstalledAtOnePlace(h, a, b, txID);
    }
  }

  /** By version `k` a hold of this transaction had begun and ended again. */
  ghost predicate LostBy(h: seq<Version>, k: nat, txID: string)
    requires k < |h|
  {
    exists m :: 0 < m <= k && HoldsTx(h[m - 1].node, txID) && Ends(h[m], txID)
  }

  lemma AcquisitionHolds(h: seq<Version>, a: nat, txID: string)
    requires Lawful(h) && a < |h| && Acquires(h[a], txID)
    ensures HoldsTx(h[a].node, txID)
  {
    assert a > 0 && LawfulStep(h, a);
    EveryVersionIsSound(h, a - 1);
    EditKeepsSound(h[a].cause.op, h[a - 1].node);
  }

  /**
    A version this transaction does not hold says nothing of whether its patch ever landed: it had, exactly
    when a hold of it was ended by its release, by a force or by the loss of the Node.
   */
  lemma LandedExactlyWhenLost(h: seq<Version>, k: nat, txID: string)
    requires Lawful(h) && k < |h| && !HoldsTx(h[k].node, txID)
    ensures Installed(h[..k + 1], txID) <==> LostBy(h, k, txID)
  {
    if Installed(h[..k + 1], txID) {
      var a :| 0 <= a < k + 1 && Acquires(h[..k + 1][a], txID);
      AcquisitionHolds(h, a, txID);
      var m := FirstLoss(h, a, k, txID);
    }
    if m :| 0 < m <= k && HoldsTx(h[m - 1].node, txID) && Ends(h[m], txID) {
      var a := AcquiredAt(h, m - 1, txID);
      assert Acquires(h[..k + 1][a], txID);
    }
  }

  // ----------------------------------------------------------------- handover

  /** The first version at or after `i` on which `txID` has stopped holding. */
  lemma {:induction false} FirstLoss(h: seq<Version>, i: nat, k: nat, txID: string) returns (m: nat)
    requires Lawful(h) && i < k < |h| && HoldsTx(h[i].node, txID) && !HoldsTx(h[k].node, txID)
    ensures i < m <= k && HoldsTx(h[m - 1].node, txID) && !HoldsTx(h[m].node, txID) && Ends(h[m], txID)
    decreases k - i
  {
    if HoldsTx(h[i + 1].node, txID) {
      m := FirstLoss(h, i + 1, k, txID);
    } else {
      m := i + 1;
      HoldingStep(h, m, txID);
    }
  }

  /** A quarantine outlives everything except its own clearing and the Node itself. */
  lemma {:induction false} FirstClear(h: seq<Version>, f: nat, k: nat, q: Quarantine) returns (c: nat)
    requires Lawful(h) && f < k < |h| && QuarantinedAs(h[f].node, q) && !Quarantined(h[k].node)
    requires h[f].node.uid == h[k].node.uid
    ensures f < c <= k && QuarantinedAs(h[c - 1].node, q) && h[c].cause == Did(Clear(q.quarantineID))
    decreases k - f
  {
    EveryVersionIsSound(h, f);
    assert LawfulStep(h, f + 1);
    UIDNeverReturns(h, f, f + 1, k);
    if h[f + 1].cause.Did? {
      EditKeepsSound(h[f + 1].cause.op, h[f].node);
    }
    if Quarantined(h[f + 1].node) {
      c := FirstClear(h, f + 1, k, q);
    } else {
      c := f + 1;
    }
  }

  /** A UID that has gone does not come back, so equal ends mean no recreation in between. */
  lemma {:induction false} UIDNeverReturns(h: seq<Version>, i: nat, m: nat, k: nat)
    requires Lawful(h) && i <= m <= k < |h| && h[i].node.uid == h[k].node.uid
    ensures h[m].node.uid == h[i].node.uid
    ensures i < m ==> h[m].cause != Recreated
    decreases k - i
  {
    if i < k {
      assert LawfulStep(h, k);
      assert h[..k][i] == h[i];
      assert h[k].node.uid == h[k - 1].node.uid by {
        if h[k].cause.Did? {
          assert Edit(h[k].cause.op, h[k - 1].node) == Ok(h[k].node);
        }
      }
      if m < k {
        UIDNeverReturns(h, i, m, k - 1);
      }
    }
  }

  /** The two ways one transaction's hold may lawfully give way to another's. */
  ghost predicate HandedOver(h: seq<Version>, i: nat, k: nat, txID: string)
    requires i <= k < |h|
  {
    || (exists m :: i < m <= k && h[m].cause == Did(Release(txID)))
    || (exists f, c, q: Quarantine ::
          && i < f < c <= k
          && h[f].cause.Did? && h[f].cause.op.Force? && h[f].cause.op.quarantineID == q.quarantineID
          && h[f].cause.op.nodeUID == h[i].node.uid
          && h[f].node.quarantine == QuarantineText(q)
          && q.priorJournal == h[i].node.journal
          && h[c - 1].node.quarantine == QuarantineText(q)
          && h[c].cause == Did(Clear(q.quarantineID))
          && q.node == h[c].node.name && q.nodeUID == h[c].node.uid)
  }

  /**
    On one Node UID, between a version held by A and a later one held by B there is a release of exactly A,
    or a force that preserved A's journal followed by a clear naming that very record on that very object.
   */
  lemma HandoverNeedsReleaseOrForceAndClear(h: seq<Version>, i: nat, k: nat, a: string, b: string)
    requires Lawful(h) && i < k < |h| && a != b
    requires HoldsTx(h[i].node, a) && HoldsTx(h[k].node, b)
    requires h[i].node.uid == h[k].node.uid
    ensures HandedOver(h, i, k, a)
  {
    var f := FirstLoss(h, i, k, a);
    UIDNeverReturns(h, i, f, k);
    UIDNeverReturns(h, i, f - 1, k);
    HeldContinuously(h, i, i, f - 1, a);
    if h[f].cause != Did(Release(a)) {
      EveryVersionIsSound(h, f - 1);
      assert LawfulStep(h, f);
      EditKeepsSound(h[f].cause.op, h[f - 1].node);
      var q := h[f].node.quarantine.quarantine;
      var c := FirstClear(h, f, k, q);
      UIDNeverReturns(h, i, c, k);
      assert LawfulStep(h, c);
    }
  }

  // ------------------------------------------------------ other people's taints

  /** The taints the Node would carry had only the other writers acted. */
  function WritesAlone(h: seq<Version>, k: nat): seq<Taint>
    requires k < |h|
  {
    if k == 0 || !h[k].cause.Did? then ForeignTaints(h[k].node.taints) else WritesAlone(h, k - 1)
  }

  lemma EditLeavesOtherTaints(op: Op, n: Node)
    requires Edit(op, n).Ok?
    ensures ForeignTaints(Edit(op, n).value.taints) == ForeignTaints(n.taints)
  {
    match op
    case Acquire(id, at) =>
      AcquisitionWrites(n, id, at);
      AppendOwnershipTaint(n.taints, id.runID);
    case Release(_) => ForeignIsFixed(n.taints);
    case Force(_, _, _) => ForeignIsFixed(n.taints);
    case Clear(_) =>
    case Stamp(_, _, _, _) =>
  }

  /** The protocol never adds, drops or reorders a taint that is not its own. */
  lemma {:induction false} ProtocolLeavesOtherTaints(h: seq<Version>, k: nat)
    requires Lawful(h) && k < |h|
    ensures ForeignTaints(h[k].node.taints) == WritesAlone(h, k)
    ensures !Held(h[k].node) ==> h[k].node.taints == WritesAlone(h, k)
  {
    if k > 0 && h[k].cause.Did? {
      ProtocolLeavesOtherTaints(h, k - 1);
      assert LawfulStep(h, k);
      EditLeavesOtherTaints(h[k].cause.op, h[k - 1].node);
    }
    EveryVersionIsSound(h, k);
    ForeignIsFixed(h[k].node.taints);
  }

  // -------------------------------------------------------------- verifyClean

  /**
    On the journal's own Node, `verifyClean` passes exactly when that transaction does not hold it, even
    when another transaction under the same run id has installed byte-identical markers.
   */
  lemma CleanExactlyWhenNotHeld(w: World, es: seq<Event>, k: nat, j: Journal)
    requires Initial(w) && k < |Execute(w, es).past|
    requires Execute(w, es).past[k].node.uid == j.nodeUID
    ensures VerifyClean(Observe(Execute(w, es).past[k].node), j).None?
            <==> !HoldsTx(Execute(w, es).past[k].node, j.txID)
  {
    InitialIsLawful(w);
    EveryInterleavingIsLawful(w, es);
    EveryVersionIsSound(Execute(w, es).past, k);
  }

  // ------------------------------------------------- transactions that are over

  /** No acquisition patch of this transaction can still be accepted. */
  predicate Spent(w: World, txID: string)
    requires |w.past| > 0
  {
    forall p :: p in w.flight && AcquirePatch(p, txID) ==> p.seen < Latest(w)
  }

  predicate Over(w: World, txID: string)
    requires |w.past| > 0
  {
    !HoldsTx(Now(w), txID) && Spent(w, txID)
  }

  predicate SubmitsAcquire(e: Event, txID: string) {
    e.Submit? && e.op.Acquire? && e.op.id.txID == txID
  }

  /** A step stores at most one version, and not an acquisition whose patches are all overtaken. */
  lemma SpentDoesNotLand(w: World, e: Event, txID: string)
    requires Inv(w) && Spent(w, txID) && !SubmitsAcquire(e, txID)
    ensures Spent(Step(w, e), txID) && |Step(w, e).past| <= |w.past| + 1
    ensures |Step(w, e).past| == |w.past| ==> Step(w, e).past == w.past
    ensures |Step(w, e).past| > |w.past| ==> !Acquires(Step(w, e).past[|w.past|], txID)
  {
  }

  lemma OverStays(w: World, e: Event, txID: string)
    requires Inv(w) && Over(w, txID) && !SubmitsAcquire(e, txID)
    ensures Over(Step(w, e), txID)
  {
    var w' := Step(w, e);
    SpentDoesNotLand(w, e, txID);
    StepKeepsInv(w, e);
    if |w'.past| > |w.past| {
      assert w'.past[|w.past| - 1] == w.past[|w.past| - 1];
      HoldingStep(w'.past, Latest(w'), txID);
    }
  }

  /** A transaction that is over holds no later version, whatever happens next. */
  lemma {:induction false} OverForever(w: World, es: seq<Event>, txID: string, k: nat)
    requires Inv(w) && Over(w, txID)
    requires forall e :: e in es ==> !SubmitsAcquire(e, txID)
    ensures Over(Execute(w, es), txID)
    ensures Latest(w) <= k < |Execute(w, es).past| ==> !HoldsTx(Execute(w, es).past[k].node, txID)
  {
    if es != [] {
      var init, last := es[..|es| - 1], es[|es| - 1];
      assert forall e :: e in init ==> e in es;
      OverForever(w, init, txID, k);
      EveryInterleavingIsLawful(w, init);
      var v := Execute(w, init);
      assert last in es;
      OverStays(v, last, txID);
      StepKeepsInv(v, last);
    }
  }

  /** A node held by somebody else has overtaken every acquisition patch that might still be in flight. */
  lemma ForeignHoldSpendsPatches(w: World, k: nat, a: string, b: string)
    requires Inv(w) && k < |w.past| && a != b && HoldsTx(w.past[k].node, b)
    requires forall p :: p in w.flight && AcquirePatch(p, a) ==> p.seen < |w.past| && p.seen <= k
    ensures Spent(w, a)
  {
    EveryVersionIsSound(w.past, k);
  }

  /** Some continuation without a new submission puts this transaction on the Node. */
  ghost predicate CanStillLand(w: World, txID: string)
    requires |w.past| > 0
  {
    exists es :: (forall e :: e in es ==> !SubmitsAcquire(e, txID)) && HoldsTx(Now(Execute(w, es)), txID)
  }

  lemma LivePatchLands(w: World, p: Patch, txID: string)
    requires Inv(w) && p in w.flight && AcquirePatch(p, txID) && p.seen == Latest(w)
    ensures HoldsTx(Now(Step(w, Deliver(p))), txID)
  {
    EveryVersionIsSound(w.past, Latest(w));
    PatchOfEdit(p.op, Now(w));
    EditKeepsSound(p.op, Now(w));
  }

  /** Exactly when a lost acquisition can still appear: while its patch names the latest version. */
  lemma LateCommitExactlyWhileUnspent(w: World, txID: string)
    requires Inv(w) && !HoldsTx(Now(w), txID)
    ensures CanStillLand(w, txID) <==> !Spent(w, txID)
  {
    if Spent(w, txID) {
      forall es | forall e :: e in es ==> !SubmitsAcquire(e, txID)
        ensures !HoldsTx(Now(Execute(w, es)), txID)
      {
        OverForever(w, es, txID, Latest(w));
      }
    } else {
      var p :| p in w.flight && AcquirePatch(p, txID) && p.seen >= Latest(w);
      LivePatchLands(w, p, txID);
      var es := [Deliver(p)];
      assert es[..0] == [] && Execute(w, es[..0]) == w;
      assert HoldsTx(Now(Execute(w, es)), txID);
    }
  }
}
