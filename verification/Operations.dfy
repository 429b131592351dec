/** The retry and read-back loops of cmd/queuelabrun/ownership_apply.go over the shared API server. */
module Operations {
  import opened Common
  import opened Ownership
  import opened Protocol
  import opened History
  import opened Apply

  // ------------------------------------------------------- what a read proves

  /** The complete tuple of `j` was on the Node at some version in this window. */
  ghost predicate SeenHeld(h: seq<Version>, from: nat, j: Journal) {
    exists k :: from <= k < |h| && HeldBy(h[k].node, j)
  }

  /** Somewhere in this window the transaction held the Node, and later in it did not, on the same UID. */
  ghost predicate SeenReleased(h: seq<Version>, from: nat, j: Journal) {
    exists i, k :: from <= i <= k < |h| && HoldsTx(h[i].node, j.txID)
                && !HoldsTx(h[k].node, j.txID) && h[k].node.uid == j.nodeUID
  }

  /** The transaction held the Node at `i`, and at every version between any hold of it and `i`. */
  ghost predicate HeldUntil(h: seq<Version>, i: nat, txID: string) {
    && i < |h| && HoldsTx(h[i].node, txID)
    && (forall a, m :: 0 <= a <= m <= i && HoldsTx(h[a].node, txID) ==> HoldsTx(h[m].node, txID))
  }

  lemma ObservedIsHeld(h: seq<Version>, k: nat, j: Journal)
    requires Lawful(h) && k < |h|
    ensures VerifyObserved(Observe(h[k].node), j).None? <==> HeldBy(h[k].node, j)
  {
    EveryVersionIsSound(h, k);
  }

  lemma RestoreIsHeld(h: seq<Version>, k: nat, txID: string)
    requires Lawful(h) && k < |h|
    ensures DecideRelease(Observe(h[k].node), txID) == Ok(Restore) <==> HoldsTx(h[k].node, txID)
    ensures DecideRelease(Observe(h[k].node), txID) == Ok(AlreadyDone) <==> Free(h[k].node)
  {
    EveryVersionIsSound(h, k);
  }

  /** A release finds a Node this transaction is off quarantined, another's, or free. */
  lemma OffIsUntouched(h: seq<Version>, k: nat, txID: string)
    requires Lawful(h) && k < |h| && !HoldsTx(h[k].node, txID)
    ensures var act := DecideRelease(Observe(h[k].node), txID);
            Untouched(h[k].node) == if act.Err? then Err(ReleaseRefused(act.error)) else Ok(act.value)
  {
    EveryVersionIsSound(h, k);
  }

  lemma CleanIsNotHeld(h: seq<Version>, k: nat, j: Journal)
    requires Lawful(h) && k < |h|
    ensures VerifyClean(Observe(h[k].node), j).None? <==>
            h[k].node.uid == j.nodeUID && !HoldsTx(h[k].node, j.txID)
  {
    EveryVersionIsSound(h, k);
  }

  lemma NotInstalledIsOver(w: World, txID: string)
    requires Inv(w) && !Installed(w.past, txID) && NoneInFlight(w, txID)
    ensures Over(w, txID)
  {
    if HoldsTx(Now(w), txID) {
      var a := AcquiredAt(w.past, Latest(w), txID);
    }
  }

  /** Installed, and seen not to hold at `k`: over. */
  lemma InstalledAndGoneIsOver(w: World, a: nat, k: nat, txID: string)
    requires Inv(w) && a <= k < |w.past| && Acquires(w.past[a], txID) && !HoldsTx(w.past[k].node, txID)
    ensures Over(w, txID)
  {
    LostForGood(w.past, a, k, Latest(w), txID);
    assert Installed(w.past, txID);
  }

  lemma HeldUnderTheJournal(w: World, k: nat, j: Journal)
    requires Inv(w) && k < |w.past| && OnlyWrites(w, j.txID, j)
    ensures HoldsTx(w.past[k].node, j.txID) ==> HeldBy(w.past[k].node, j)
  {
    if HoldsTx(w.past[k].node, j.txID) {
      var a := AcquiredAt(w.past, k, j.txID);
    }
  }

  // --------------------------------------------------------------- read-backs

  datatype Check = Passed | Failed(reason: Reason) | Unread | Cancelled

  /** Of the waits in between, the last was cancelled, or none was. */
  predicate Waited(before: seq<bool>, after: seq<bool>, cancelled: bool) {
    Grows(before, after) && (cancelled <==> |before| < |after| && after[|after| - 1])
  }

  lemma WaitedTrans(a: seq<bool>, b: seq<bool>, c: seq<bool>, cancelled: bool)
    requires Waited(a, b, false) && Waited(b, c, cancelled)
    ensures Waited(a, c, cancelled)
  {
    GrowsTrans(a, b, c);
  }

  /** One read, and after a failed one the wait before the next. */
  method ReadOnce(c: Cluster, again: bool) returns (r: Option<Node>, cancelled: bool)
    requires c.Valid()
    modifies c`world, c`script, c`log, c`waits
    ensures c.Valid() && Meanwhile(old(c.world), c.world, c.mine)
    ensures r.Some? ==> r.value == Now(c.world) && !cancelled
    ensures c.log == old(c.log) + [if r.Some? then Some(Latest(c.world)) else None]
    ensures Waited(old(c.waits), c.waits, cancelled)
    ensures old(c.script) == [] ==> c.Quiet(old(c.world)) && r.Some?
  {
    var got := c.Get();
    ghost var w := c.world;
    if got.Some? {
      return Some(got.value.node), false;
    }
    r, cancelled := None, false;
    if again {
      cancelled := c.Sleep();
      MeanwhileTrans(old(c.world), w, c.world, c.mine);
    }
  }

  /** The bounded retry both read-backs share: up to three met, stopping at the first that succeeds. */
  method ReadBack(c: Cluster) returns (r: Option<Node>, cancelled: bool)
    requires c.Valid()
    modifies c`world, c`script, c`log, c`waits
    ensures c.Valid() && Meanwhile(old(c.world), c.world, c.mine)
    ensures r.Some? ==> r.value == Now(c.world) && !cancelled
    ensures Grows(old(c.log), c.log) && |old(c.log)| < |c.log|
    ensures LastRead(c.log) == if r.Some? then Some(Latest(c.world)) else None
    ensures r.None? && !cancelled ==> |c.log| == |old(c.log)| + 3
    ensures Waited(old(c.waits), c.waits, cancelled)
    ensures old(c.script) == [] ==> c.Quiet(old(c.world)) && r.Some?
  {
    r, cancelled := None, false;
    for attempt := 0 to VERIFY_ATTEMPTS
      invariant c.Valid() && Meanwhile(old(c.world), c.world, c.mine)
      invariant Grows(old(c.log), c.log) && |c.log| == |old(c.log)| + attempt
      invariant attempt > 0 ==> LastRead(c.log) == None
      invariant r == None && !cancelled && (old(c.script) == [] ==> attempt == 0 && c.Quiet(old(c.world)))
      invariant Waited(old(c.waits), c.waits, false)
    {
      ghost var w, waits := c.world, c.waits;
      r, cancelled := ReadOnce(c, attempt < VERIFY_ATTEMPTS - 1);
      WaitedTrans(old(c.waits), waits, c.waits, cancelled);
      MeanwhileTrans(old(c.world), w, c.world, c.mine);
      if r.Some? || cancelled {
        return;
      }
    }
  }

  /** `verifyAcquired`: the complete tuple was read back, not just our transaction id. */
  method VerifyAcquired(c: Cluster, j: Journal) returns (r: Check)
    requires c.Valid()
    modifies c`world, c`script, c`log, c`waits
    ensures c.Valid() && Meanwhile(old(c.world), c.world, c.mine)
    ensures Grows(old(c.log), c.log) && |old(c.log)| < |c.log|
    ensures r == Passed <==> LastRead(c.log) == Some(Latest(c.world)) && HeldBy(Now(c.world), j)
    ensures old(c.script) == [] ==> c.Quiet(old(c.world)) && (r == Passed <==> HeldBy(Now(c.world), j))
  {
    var n, cancelled := ReadBack(c);
    if cancelled {
      return Cancelled;
    } else if n.None? {
      return Unread;
    }
    var obs := ReadOwnership(n.value);
    var bad := VerifyObserved(obs, j);
    ObservedIsHeld(c.world.past, Latest(c.world), j);
    r := if bad.Some? then Failed(bad.value) else Passed;
  }

  /** `verifyReleased`: our markers were read to be gone; the observation is handed back beside the verdict. */
  method VerifyReleased(c: Cluster, j: Journal) returns (r: Check, obs: Observation)
    requires c.Valid()
    modifies c`world, c`script, c`log, c`waits
    ensures c.Valid() && Meanwhile(old(c.world), c.world, c.mine)
    ensures Grows(old(c.log), c.log) && |old(c.log)| < |c.log|
    ensures LastRead(c.log) == None || LastRead(c.log) == Some(Latest(c.world))
    ensures r == Passed <==>
              && LastRead(c.log) == Some(Latest(c.world))
              && !HoldsTx(Now(c.world), j.txID) && Now(c.world).uid == j.nodeUID
    ensures r == Passed ==> obs == Observe(Now(c.world))
    ensures old(c.script) == [] ==>
              && c.Quiet(old(c.world))
              && (r == Passed <==> !HoldsTx(Now(c.world), j.txID) && Now(c.world).uid == j.nodeUID)
  {
    var n, cancelled := ReadBack(c);
    if cancelled {
      r, obs := Cancelled, Observe(Now(c.world));
    } else if n.None? {
      r, obs := Unread, Observe(Now(c.world));
    } else {
      obs := ReadOwnership(n.value);
      var bad := VerifyClean(obs, j);
      CleanIsNotHeld(c.world.past, Latest(c.world), j);
      r := if bad.Some? then Failed(bad.value) else Passed;
    }
  }

  // ------------------------------------------------------------------ release

  datatype ReleaseFailure =
    | ReleaseRefused(reason: Reason)
    | ReleaseUnread
    | NotRestored
    | ReleaseConflicts

  /** What a release has to be read back as: off this transaction, on its Node, and nobody's if the answer was lost. */
  predicate Confirms(n: Node, j: Journal, lost: bool) {
    n.uid == j.nodeUID && !HoldsTx(n, j.txID) && (lost ==> n.journal == Empty)
  }

  /** What the read-back answers: success exactly when it was read and confirms. */
  ghost function ReadBackAnswer(log: seq<Option<nat>>, w: World, j: Journal, lost: bool)
    : Result<ReleaseAction, ReleaseFailure>
    requires |w.past| > 0
  {
    if LastRead(log) != Some(Latest(w)) || Now(w).uid != j.nodeUID || HoldsTx(Now(w), j.txID) then Err(NotRestored)
    else if !Confirms(Now(w), j, lost) then Err(ReleaseRefused(OwnershipLost))
    else Ok(Restore)
  }

  /**
    The release patch was answered, or its answer was lost: read back before trusting either.  After a lost
    answer a Node that somebody else now holds is not a clean release.
   */
  method ConfirmReleased(c: Cluster, j: Journal, ghost i: nat, lost: bool)
    returns (r: Result<ReleaseAction, ReleaseFailure>)
    requires c.Valid() && i < |c.world.past| && HoldsTx(c.world.past[i].node, j.txID)
    modifies c`world, c`script, c`log, c`waits
    ensures c.Valid() && Meanwhile(old(c.world), c.world, c.mine)
    ensures r.Ok? ==> r == Ok(Restore) && SeenReleased(c.world.past, i, j)
    ensures Grows(old(c.log), c.log) && |old(c.log)| < |c.log|
    ensures LastRead(c.log) == None || LastRead(c.log) == Some(Latest(c.world))
    ensures r == ReadBackAnswer(c.log, c.world, j, lost)
    ensures old(c.script) == [] ==> (r.Ok? <==> Confirms(Now(old(c.world)), j, lost))
  {
    var check, back := VerifyReleased(c, j);
    if check != Passed {
      return Err(NotRestored);
    }
    ExtendsTrans(old(c.world), c.world, c.world);
    assert HoldsTx(c.world.past[i].node, j.txID);
    assert SeenReleased(c.world.past, i, j);
    if lost && back.journalRaw != Empty {
      return Err(ReleaseRefused(OwnershipLost));
    }
    r := Ok(Restore);
  }

  /** What a release answers on a Node it finds this transaction off: there is nothing to patch. */
  function Untouched(n: Node): Result<ReleaseAction, ReleaseFailure> {
    if Quarantined(n) then Err(ReleaseRefused(QuarantinedNode))
    else if Held(n) then Err(ReleaseRefused(NotOurs))
    else Ok(AlreadyDone)
  }

  /** Of the patches and reads the server logged: one was sent and not refused, and it was read back as it has to be. */
  ghost predicate Restored(sent: seq<Reply>, replies: seq<Reply>, log: seq<Option<nat>>, h: seq<Version>, j: Journal) {
    && |sent| < |replies| && LastReply(replies) != Conflict
    && LastRead(log).Some? && LastRead(log).value < |h|
    && Confirms(h[LastRead(log).value].node, j, LastReply(replies) == Unknown)
  }

  /** What the last read decides when it sends no patch: nothing was read, or the Node is not this transaction's. */
  ghost predicate DecidedByRead(r: Result<ReleaseAction, ReleaseFailure>, log: seq<Option<nat>>, w: World, txID: string)
    requires |w.past| > 0
  {
    if LastRead(log) == None then r == Err(ReleaseUnread)
    else LastRead(log) == Some(Latest(w)) && !HoldsTx(Now(w), txID) && r == Untouched(Now(w))
  }

  /** What one attempt answers, of what the server logged of it; None asks for another. */
  ghost predicate AttemptAnswers(r: Option<Result<ReleaseAction, ReleaseFailure>>, sent: seq<Reply>,
                                 replies: seq<Reply>, log: seq<Option<nat>>, w: World, j: Journal)
    requires |w.past| > 0
  {
    if replies == sent then r.Some? && DecidedByRead(r.value, log, w, j.txID)
    else
      && replies == sent + [LastReply(replies)]
      && (LastReply(replies) != Conflict ==> LastRead(log) == None || LastRead(log) == Some(Latest(w)))
      && r == if LastReply(replies) == Conflict then None
              else Some(ReadBackAnswer(log, w, j, LastReply(replies) == Unknown))
  }

  /** The attempts before it met conflicts, so the last attempt decides the whole release. */
  lemma LastAttemptDecides(r: Result<ReleaseAction, ReleaseFailure>, sent: seq<Reply>, before: seq<Reply>,
                           replies: seq<Reply>, log: seq<Option<nat>>, w: World, j: Journal)
    requires |w.past| > 0 && Inv(w) && Grows(sent, before) && (|sent| < |before| ==> LastReply(before) == Conflict)
    requires AttemptAnswers(Some(r), before, replies, log, w, j)
    requires |before| < |sent| + 5
    ensures Grows(before, replies) && ReleaseAnswers(r, sent, replies, log, w, j)
  {
  }

  /**
    What the whole release answers, of what the server logged of it.  A last patch that was not refused is
    answered by its read-back; after conflicts alone, five of them exhaust it and before that the last read
    decides.
   */
  ghost predicate ReleaseAnswers(r: Result<ReleaseAction, ReleaseFailure>, sent: seq<Reply>, replies: seq<Reply>,
                                 log: seq<Option<nat>>, w: World, j: Journal)
    requires |w.past| > 0
  {
    if |sent| < |replies| && LastReply(replies) != Conflict then
      && (LastRead(log) == None || LastRead(log) == Some(Latest(w)))
      && r == ReadBackAnswer(log, w, j, LastReply(replies) == Unknown)
    else if |replies| == |sent| + 5 then r == Err(ReleaseConflicts)
    else DecidedByRead(r, log, w, j.txID)
  }

  lemma ReleaseAnswersMean(r: Result<ReleaseAction, ReleaseFailure>, sent: seq<Reply>, replies: seq<Reply>,
                           log: seq<Option<nat>>, w: World, j: Journal)
    requires |w.past| > 0 && Inv(w) && ReleaseAnswers(r, sent, replies, log, w, j)
    ensures r == Ok(Restore) <==> Restored(sent, replies, log, w.past, j)
    ensures r == Ok(AlreadyDone) ==> Free(Now(w))
  {
    EveryVersionIsSound(w.past, Latest(w));
  }

  /** The transaction holds the Node, and it is the journal's. */
  predicate Releasable(n: Node, j: Journal) {
    HoldsTx(n, j.txID) && n.uid == j.nodeUID
  }

  /**
    One attempt of `releaseAcquired`: None means the patch met a conflict and may be retried.  A restore is
    reported only after the complete tuple was read, and later read gone; "already done" only on a free Node.
   */
  method AttemptRelease(c: Cluster, j: Journal) returns (r: Option<Result<ReleaseAction, ReleaseFailure>>)
    requires c.Valid()
    modifies c`world, c`script, c`log, c`waits, c`replies
    ensures c.Valid() && Meanwhile(old(c.world), c.world, c.mine)
    ensures r == Some(Ok(Restore)) ==> SeenReleased(c.world.past, Latest(old(c.world)), j)
    ensures Grows(old(c.log), c.log) && |old(c.log)| < |c.log|
    ensures AttemptAnswers(r, old(c.replies), c.replies, c.log, c.world, j)
    ensures LastRead(c.log).Some? ==> LastRead(c.log).value < |c.world.past|
    ensures old(c.script) == [] ==> r.Some? && (r == Some(Ok(Restore)) <==> Releasable(Now(old(c.world)), j))
  {
    var got := c.Get();
    if got.None? {
      return Some(Err(ReleaseUnread));
    }
    ghost var w := c.world;
    r := ReleaseAsRead(c, j, got.value);
    MeanwhileTrans(old(c.world), w, c.world, c.mine);
  }

  /** The decision on what was read, and the patch if it calls for one. */
  method ReleaseAsRead(c: Cluster, j: Journal, got: Read) returns (r: Option<Result<ReleaseAction, ReleaseFailure>>)
    requires c.Valid() && got == Read(Now(c.world), Latest(c.world)) && LastRead(c.log) == Some(Latest(c.world))
    modifies c`world, c`script, c`log, c`waits, c`replies
    ensures c.Valid() && Meanwhile(old(c.world), c.world, c.mine)
    ensures r == Some(Ok(Restore)) ==> SeenReleased(c.world.past, Latest(old(c.world)), j)
    ensures Grows(old(c.log), c.log) && AttemptAnswers(r, old(c.replies), c.replies, c.log, c.world, j)
    ensures LastRead(c.log).Some? ==> LastRead(c.log).value < |c.world.past|
    ensures old(c.script) == [] ==> r.Some? && (r == Some(Ok(Restore)) <==> Releasable(Now(old(c.world)), j))
  {
    var obs := ReadOwnership(got.node);
    var act := DecideRelease(obs, j.txID);
    RestoreIsHeld(c.world.past, Latest(c.world), j.txID);
    if act == Ok(Restore) {
      r := PatchRelease(c, j, got.version);
    } else {
      OffIsUntouched(c.world.past, Latest(c.world), j.txID);
      r := Some(if act.Err? then Err(ReleaseRefused(act.error)) else Ok(act.value));
    }
  }

  lemma HeldIsReleasable(w: World, txID: string)
    requires |w.past| > 0 && Inv(w) && HoldsTx(Now(w), txID)
    ensures var m := Edit(Release(txID), Now(w)); m.Ok? && Free(m.value) && m.value.uid == Now(w).uid
  {
    RestoreIsHeld(w.past, Latest(w), txID);
    EveryVersionIsSound(w.past, Latest(w));
    ReleaseFromHeld(Now(w), txID);
  }

  /** The patch alone: left alone it lands, and the Node is free. */
  method SendRelease(c: Cluster, txID: string, seen: nat) returns (reply: Reply)
    requires c.Valid() && seen == Latest(c.world) && HoldsTx(Now(c.world), txID)
    modifies c`world, c`script, c`replies
    ensures c.Valid() && Meanwhile(old(c.world), c.world, c.mine)
    ensures seen < |c.world.past| && HoldsTx(c.world.past[seen].node, txID)
    ensures c.replies == old(c.replies) + [reply]
    ensures old(c.script) == [] ==>
              c.script == [] && reply != Conflict && Free(Now(c.world)) && Now(c.world).uid == Now(old(c.world)).uid
  {
    HeldIsReleasable(c.world, txID);
    reply := c.Send(seen, Release(txID));
    ExtendsTrans(old(c.world), c.world, c.world);
  }

  /** The patch of a release just decided on the latest version, and its read-back. */
  method PatchRelease(c: Cluster, j: Journal, seen: nat) returns (r: Option<Result<ReleaseAction, ReleaseFailure>>)
    requires c.Valid() && seen == Latest(c.world) && HoldsTx(Now(c.world), j.txID)
    requires LastRead(c.log) == Some(seen)
    modifies c`world, c`script, c`log, c`waits, c`replies
    ensures c.Valid() && Meanwhile(old(c.world), c.world, c.mine)
    ensures r.Some? && r.value.Ok? ==> r.value.value == Restore
    ensures r == Some(Ok(Restore)) ==> SeenReleased(c.world.past, Latest(old(c.world)), j)
    ensures Grows(old(c.log), c.log) && |old(c.replies)| < |c.replies|
    ensures AttemptAnswers(r, old(c.replies), c.replies, c.log, c.world, j)
    ensures LastRead(c.log).Some? ==> LastRead(c.log).value < |c.world.past|
    ensures old(c.script) == [] ==> r.Some? && (r.value.Ok? <==> Now(old(c.world)).uid == j.nodeUID)
  {
    var reply := SendRelease(c, j.txID, seen);
    if reply == Conflict {
      return None;
    }
    ghost var w := c.world;
    var done := ConfirmReleased(c, j, seen, reply == Unknown);
    MeanwhileTrans(old(c.world), w, c.world, c.mine);
    r := Some(done);
  }

  /** `releaseAcquired`: re-decides from a fresh read after every conflict, five times at most. */
  method ReleaseAcquired(c: Cluster, j: Journal) returns (r: Result<ReleaseAction, ReleaseFailure>)
    requires c.Valid()
    modifies c`world, c`script, c`log, c`waits, c`replies
    ensures c.Valid() && Meanwhile(old(c.world), c.world, c.mine)
    ensures r == Ok(Restore) ==> SeenReleased(c.world.past, Latest(old(c.world)), j)
    ensures r == Ok(AlreadyDone) ==> Free(Now(c.world))
    ensures Grows(old(c.log), c.log) && Grows(old(c.replies), c.replies) && |old(c.log)| < |c.log|
    ensures r == Ok(Restore) <==> Restored(old(c.replies), c.replies, c.log, c.world.past, j)
    ensures ReleaseAnswers(r, old(c.replies), c.replies, c.log, c.world, j)
    ensures LastRead(c.log).Some? ==> LastRead(c.log).value < |c.world.past|
    ensures old(c.script) == [] ==> (r == Ok(Restore) <==> Releasable(Now(old(c.world)), j))
  {
    for attempt := 0 to ACQUIRE_ATTEMPTS
      invariant c.Valid() && Meanwhile(old(c.world), c.world, c.mine)
      invariant old(c.script) == [] ==> attempt == 0 && c.Quiet(old(c.world))
      invariant Grows(old(c.log), c.log) && (attempt > 0 ==> |old(c.log)| < |c.log|)
      invariant Grows(old(c.replies), c.replies) && |c.replies| == |old(c.replies)| + attempt
      invariant attempt > 0 ==> LastReply(c.replies) == Conflict
      invariant attempt > 0 && LastRead(c.log).Some? ==> LastRead(c.log).value < |c.world.past|
    {
      ghost var before, log, replies := c.world, c.log, c.replies;
      var done := AttemptRelease(c, j);
      MeanwhileTrans(old(c.world), before, c.world, c.mine);
      GrowsTrans(old(c.log), log, c.log);
      if done.Some? {
        LastAttemptDecides(done.value, old(c.replies), replies, c.replies, c.log, c.world, j);
        ReleaseAnswersMean(done.value, old(c.replies), c.replies, c.log, c.world, j);
      }
      GrowsTrans(old(c.replies), replies, c.replies);
      if done.Some? {
        return done.value;
      }
    }
    r := Err(ReleaseConflicts);
    ReleaseAnswersMean(r, old(c.replies), c.replies, c.log, c.world, j);
  }

  /** What `releaseOwned` makes of the answer: a Node found free was lost, not restored. */
  function OwnedAnswer(act: Result<ReleaseAction, ReleaseFailure>): Result<(), ReleaseFailure> {
    match act
    case Err(e) => Err(e)
    case Ok(AlreadyDone) => Err(ReleaseRefused(OwnershipLost))
    case Ok(Restore) => Ok(())
  }

  ghost predicate OwnedAnswers(r: Result<(), ReleaseFailure>, sent: seq<Reply>, replies: seq<Reply>,
                               log: seq<Option<nat>>, w: World, j: Journal)
    requires |w.past| > 0
  {
    exists act :: ReleaseAnswers(act, sent, replies, log, w, j) && r == OwnedAnswer(act)
  }

  /**
    `releaseOwned`.  Success means the transaction held the Node at a read inside this call, hence at every
    version since it was acquired, and that it is over now and for good.
   */
  method ReleaseOwned(c: Cluster, j: Journal) returns (r: Result<(), ReleaseFailure>)
    requires c.Valid()
    modifies c`world, c`script, c`log, c`waits, c`replies, c`releases
    ensures c.Valid() && Meanwhile(old(c.world), c.world, c.mine)
    ensures r.Ok? ==> exists i :: Latest(old(c.world)) <= i && HeldUntil(c.world.past, i, j.txID)
    ensures r.Ok? ==> Over(c.world, j.txID)
    ensures r.Ok? <==> Restored(old(c.replies), c.replies, c.log, c.world.past, j)
    ensures OwnedAnswers(r, old(c.replies), c.replies, c.log, c.world, j)
    ensures c.releases == old(c.releases) + [Latest(old(c.world))]
    ensures LastRead(c.log).Some? ==> LastRead(c.log).value < |c.world.past|
    ensures old(c.script) == [] ==> (r.Ok? <==> Releasable(Now(old(c.world)), j))
  {
    c.releases := c.releases + [Latest(c.world)];
    var act := ReleaseAcquired(c, j);
    match act
    case Err(e) => r := Err(e);
    case Ok(AlreadyDone) => r := Err(ReleaseRefused(OwnershipLost));
    case Ok(Restore) =>
      r := Ok(());
      ReleasedWasHeld(c.world, Latest(old(c.world)), j);
  }

  lemma ReleasedWasHeld(w: World, from: nat, j: Journal)
    requires Inv(w) && SeenReleased(w.past, from, j)
    ensures exists i :: from <= i && HeldUntil(w.past, i, j.txID)
    ensures Over(w, j.txID)
  {
    var h := w.past;
    var i, k :| from <= i <= k < |h| && HoldsTx(h[i].node, j.txID)
                && !HoldsTx(h[k].node, j.txID) && h[k].node.uid == j.nodeUID;
    forall a, m | 0 <= a <= m <= i && HoldsTx(h[a].node, j.txID)
      ensures HoldsTx(h[m].node, j.txID)
    {
      HeldContinuously(h, a, m, i, j.txID);
    }
    assert HeldUntil(h, i, j.txID);
    var at := AcquiredAt(h, i, j.txID);
    InstalledAndGoneIsOver(w, at, k, j.txID);
  }

  // ------------------------------------------------------------------ acquire

  datatype Resolution =
    | Landed
    | HeldByOther(txID: string)
    | DidNotLand
    | Unresolved(lastReadFailed: bool)
    | UnresolvedCancelled

  /** Every successful read is a version of this call. */
  ghost predicate Dated(h: seq<Version>, from: nat, met: seq<Option<nat>>) {
    forall i :: 0 <= i < |met| && met[i].Some? ==> from <= met[i].value < |h|
  }

  /** Every read succeeded and saw no marker and no journal. */
  ghost predicate AllUnmarked(h: seq<Version>, met: seq<Option<nat>>) {
    forall i :: 0 <= i < |met| ==> met[i].Some? && met[i].value < |h| && Unmarked(h[met[i].value].node)
  }

  lemma MeetingOneMore(h: seq<Version>, h': seq<Version>, from: nat, met: seq<Option<nat>>, next: Option<nat>)
    requires |h| <= |h'| && forall i :: 0 <= i < |h| ==> h'[i] == h[i]
    requires Dated(h, from, met) && (next.Some? ==> from <= next.value < |h'|)
    ensures Dated(h', from, met + [next])
    ensures AllUnmarked(h', met + [next]) <==>
            AllUnmarked(h, met) && next.Some? && Unmarked(h'[next.value].node)
    ensures None in met + [next] <==> None in met || next == None
  {
    var g := met + [next];
    assert forall i :: 0 <= i < |met| ==> g[i] == met[i];
    assert g[|met|] == next;
  }

  /** What one re-read says about a patch whose response was lost. */
  datatype Reading = ReadFailed | Ours | Theirs(txID: string) | Nobodys | Neither

  /** What a read of this Node is taken to say. */
  predicate Reads(r: Reading, n: Node, txID: string) {
    match r
    case Ours => HoldsTx(n, txID)
    case Theirs(holder) => HoldsTx(n, holder) && holder != txID
    case Nobodys => Unmarked(n)
    case ReadFailed => false
    case Neither => false
  }

  method ResolveRead(c: Cluster, j: Journal) returns (r: Reading)
    requires c.Valid() && j.txID == c.mine && OnlyWrites(c.world, c.mine, j)
    modifies c`world, c`script, c`log
    ensures c.Valid() && Meanwhile(old(c.world), c.world, c.mine)
    ensures r == Ours ==> HeldBy(Now(c.world), j)
    ensures r.Theirs? ==> Over(c.world, j.txID)
    ensures r != ReadFailed ==> Reads(r, Now(c.world), j.txID)
    ensures c.log == old(c.log) + [if r == ReadFailed then None else Some(Latest(c.world))]
    ensures old(c.script) == [] ==> c.Quiet(old(c.world)) && r != ReadFailed
  {
    var got := c.Get();
    if got.None? {
      return ReadFailed;
    }
    var obs := ReadOwnership(got.value.node);
    ghost var k := Latest(c.world);
    ObservedIsHeld(c.world.past, k, j);
    EveryVersionIsSound(c.world.past, k);
    HeldUnderTheJournal(c.world, k, j);
    if VerifyObserved(obs, j).None? {
      return Ours;
    } else if !obs.journalErr && obs.journalRaw != Empty && obs.journal.txID != j.txID {
      ForeignHoldSpendsPatches(c.world, k, j.txID, obs.journal.txID);
      return Theirs(obs.journal.txID);
    } else if obs.journalRaw == Empty && obs.workerLabel.None? && |obs.taints| == 0 {
      return Nobodys;
    }
    r := Neither;
  }

  /** One round of the resolve loop: a re-read, then the wait, unless the read settled it or was the last. */
  method ResolveRound(c: Cluster, j: Journal, last: bool)
    returns (reading: Reading, cancelled: bool, ghost met: Option<nat>)
    requires c.Valid() && j.txID == c.mine && OnlyWrites(c.world, c.mine, j)
    modifies c`world, c`script, c`log, c`waits
    ensures c.Valid() && Meanwhile(old(c.world), c.world, c.mine)
    ensures c.log == old(c.log) + [met]
    ensures met.None? <==> reading == ReadFailed
    ensures met.Some? ==> Latest(old(c.world)) <= met.value < |c.world.past|
    ensures met.Some? ==> Reads(reading, c.world.past[met.value].node, j.txID)
    ensures reading == Ours ==> met == Some(Latest(c.world)) && HeldBy(Now(c.world), j)
    ensures reading.Theirs? ==> met == Some(Latest(c.world)) && Over(c.world, j.txID)
    ensures cancelled ==> !last && reading != Ours && !reading.Theirs?
    ensures Waited(old(c.waits), c.waits, cancelled)
    ensures old(c.script) == [] ==> c.Quiet(old(c.world)) && !cancelled && met == Some(Latest(c.world))
  {
    cancelled := false;
    reading := ResolveRead(c, j);
    met := if reading == ReadFailed then None else Some(Latest(c.world));
    if !last && reading != Ours && !reading.Theirs? {
      ghost var w := c.world;
      cancelled := c.Sleep();
      MeanwhileTrans(old(c.world), w, c.world, c.mine);
    }
  }

  /** The reads so far settled nothing: each failed or met a Node that is nobody's. */
  ghost predicate Rounds(h: seq<Version>, from: nat, met: seq<Option<nat>>, free: bool, lastFailed: bool) {
    && Dated(h, from, met)
    && (forall i :: 0 <= i < |met| && met[i].Some? ==> Unmarked(h[met[i].value].node))
    && (free <==> None !in met)
    && (met != [] ==> (lastFailed <==> met[|met| - 1] == None))
  }

  lemma RoundsOneMore(h: seq<Version>, h': seq<Version>, from: nat, met: seq<Option<nat>>, free: bool,
                      lastFailed: bool, next: Option<nat>)
    requires |h| <= |h'| && forall i :: 0 <= i < |h| ==> h'[i] == h[i]
    requires Rounds(h, from, met, free, lastFailed) && (next.Some? ==> from <= next.value < |h'|)
    ensures Dated(h', from, met + [next])
    ensures next.None? || Unmarked(h'[next.value].node) ==>
              Rounds(h', from, met + [next], free && next.Some?, next.None?)
    ensures next.Some? && !Unmarked(h'[next.value].node) ==> !AllUnmarked(h', met + [next])
  {
    var g := met + [next];
    assert forall i :: 0 <= i < |met| ==> g[i] == met[i];
    assert g[|met|] == next;
  }

  /** The last read met a Node held by this transaction. */
  ghost predicate LastMet(met: seq<Option<nat>>, h: seq<Version>, txID: string) {
    LastRead(met).Some? && LastRead(met).value < |h| && HoldsTx(h[LastRead(met).value].node, txID)
  }

  /** The last read met a Node held by somebody. */
  ghost predicate LastMetHeld(met: seq<Option<nat>>, h: seq<Version>) {
    LastRead(met).Some? && LastRead(met).value < |h| && Held(h[LastRead(met).value].node)
  }

  /**
    What each answer says of the re-reads, and that it is given for no other.  "Did not land" is given exactly
    when all six succeeded and every one of them saw no marker and no journal; a commit seen at any read, or
    any failed read, excludes it.
   */
  ghost predicate Answers(r: Resolution, h: seq<Version>, from: nat, met: seq<Option<nat>>, txID: string) {
    && Dated(h, from, met) && met != []
    && (r == Landed <==> LastMet(met, h, txID))
    && (r.HeldByOther? <==> LastMetHeld(met, h) && !LastMet(met, h, txID))
    && (r.HeldByOther? ==> LastMet(met, h, r.txID))
    && (r == DidNotLand <==> |met| == 6 && AllUnmarked(h, met))
    && (r.Unresolved? ==> |met| == 6 && None in met && (r.lastReadFailed <==> met[5].None?))
    && (r.UnresolvedCancelled? ==> |met| < 6)
  }

  /** One round on top of the rounds before it. */
  method ResolveStep(c: Cluster, j: Journal, last: bool, ghost w0: World, ghost met: seq<Option<nat>>, free: bool,
                     lastFailed: bool, ghost waits: seq<bool>)
    returns (reading: Reading, cancelled: bool, ghost next: Option<nat>)
    requires c.Valid() && j.txID == c.mine && OnlyWrites(c.world, c.mine, j)
    requires |w0.past| > 0 && Meanwhile(w0, c.world, c.mine)
    requires Rounds(c.world.past, Latest(w0), met, free, lastFailed)
    requires Waited(waits, c.waits, false)
    modifies c`world, c`script, c`log, c`waits
    ensures c.Valid() && Meanwhile(w0, c.world, c.mine) && OnlyWrites(c.world, c.mine, j)
    ensures c.log == old(c.log) + [next] && Dated(c.world.past, Latest(w0), met + [next])
    ensures reading == Nobodys || reading == ReadFailed ==>
              Rounds(c.world.past, Latest(w0), met + [next], free && reading == Nobodys, reading == ReadFailed)
    ensures reading == Ours ==> HeldBy(Now(c.world), j)
    ensures reading.Theirs? ==> Over(c.world, j.txID)
    ensures reading == Ours || reading.Theirs? ==>
              next == Some(Latest(c.world)) && !AllUnmarked(c.world.past, met + [next])
    ensures next.None? <==> reading == ReadFailed
    ensures next.Some? ==> next.value < |c.world.past| && Reads(reading, c.world.past[next.value].node, j.txID)
    ensures cancelled ==> !last && reading != Ours && !reading.Theirs?
    ensures Waited(waits, c.waits, cancelled)
    ensures old(c.script) == [] ==> c.Quiet(old(c.world)) && !cancelled && next == Some(Latest(c.world))
    ensures old(c.script) == [] ==> (reading == Nobodys <==> Unmarked(Now(c.world)))
  {
    ghost var w := c.world;
    ghost var before := c.waits;
    reading, cancelled, next := ResolveRound(c, j, last);
    WaitedTrans(waits, before, c.waits, cancelled);
    MeanwhileTrans(w0, w, c.world, c.mine);
    RoundsOneMore(w.past, c.world.past, Latest(w0), met, free, lastFailed, next);
  }

  /** One round and what it settles: our tuple, another's, or the cancellation of the wait behind it. */
  method ResolveAttempt(c: Cluster, j: Journal, attempt: nat, ghost w0: World, ghost met: seq<Option<nat>>,
                        free: bool, lastFailed: bool, ghost waits: seq<bool>)
    returns (settled: Option<Resolution>, reading: Reading, ghost next: Option<nat>)
    requires c.Valid() && j.txID == c.mine && OnlyWrites(c.world, c.mine, j) && |met| == attempt < RESOLVE_ATTEMPTS
    requires |w0.past| > 0 && Meanwhile(w0, c.world, c.mine)
    requires Rounds(c.world.past, Latest(w0), met, free, lastFailed)
    requires Waited(waits, c.waits, false)
    modifies c`world, c`script, c`log, c`waits
    ensures c.Valid() && Meanwhile(w0, c.world, c.mine) && OnlyWrites(c.world, c.mine, j)
    ensures c.log == old(c.log) + [next]
    ensures settled.Some? ==> Answers(settled.value, c.world.past, Latest(w0), met + [next], j.txID)
    ensures Waited(waits, c.waits, settled == Some(UnresolvedCancelled))
    ensures settled == Some(Landed) ==> HeldBy(Now(c.world), j)
    ensures settled.Some? && settled.value.HeldByOther? ==>
              && HoldsTx(Now(c.world), settled.value.txID) && settled.value.txID != j.txID
              && Over(c.world, j.txID)
    ensures settled.None? ==>
              Rounds(c.world.past, Latest(w0), met + [next], free && reading == Nobodys, reading == ReadFailed)
    ensures old(c.script) == [] ==> c.Quiet(old(c.world))
    ensures old(c.script) == [] && Unmarked(Now(c.world)) ==> settled.None? && reading == Nobodys
  {
    var cancelled: bool;
    reading, cancelled, next := ResolveStep(c, j, attempt == RESOLVE_ATTEMPTS - 1, w0, met, free, lastFailed,
                                               waits);
    settled := None;
    if reading == Ours {
      settled := Some(Landed);
    } else if reading.Theirs? {
      settled := Some(HeldByOther(reading.txID));
    } else if cancelled {
      AnswersCancelled(c.world.past, Latest(w0), met + [next], free && reading == Nobodys, reading == ReadFailed,
                       j.txID);
      settled := Some(UnresolvedCancelled);
    }
  }

  /**
    `resolveAmbiguousAcquire`.  `met` is every read it made, as the server logged them: None for a failed one,
    else the version.
   */
  method ResolveAmbiguousAcquire(c: Cluster, j: Journal) returns (r: Resolution, ghost met: seq<Option<nat>>)
    requires c.Valid() && j.txID == c.mine && OnlyWrites(c.world, c.mine, j)
    modifies c`world, c`script, c`log, c`waits
    ensures c.Valid() && Meanwhile(old(c.world), c.world, c.mine)
    ensures c.log == old(c.log) + met && Answers(r, c.world.past, Latest(old(c.world)), met, j.txID)
    ensures Waited(old(c.waits), c.waits, r == UnresolvedCancelled)
    ensures r == Landed ==> HeldBy(Now(c.world), j)
    ensures r.HeldByOther? ==> HoldsTx(Now(c.world), r.txID) && r.txID != j.txID && Over(c.world, j.txID)
    ensures old(c.script) == [] ==> c.Quiet(old(c.world)) && (Unmarked(Now(c.world)) ==> r == DidNotLand)
  {
    met := [];
    ghost var w0 := c.world;
    var lastReadFailed := false;
    var freeThroughout := true;
    for attempt := 0 to RESOLVE_ATTEMPTS
      invariant c.Valid() && Meanwhile(w0, c.world, c.mine) && OnlyWrites(c.world, c.mine, j)
      invariant |met| == attempt && c.log == old(c.log) + met
      invariant Rounds(c.world.past, Latest(w0), met, freeThroughout, lastReadFailed)
      invariant Waited(old(c.waits), c.waits, false)
      invariant old(c.script) == [] ==> c.Quiet(w0) && (Unmarked(Now(w0)) ==> freeThroughout)
    {
      var settled, reading, next := ResolveAttempt(c, j, attempt, w0, met, freeThroughout, lastReadFailed,
                                                   old(c.waits));
      met := met + [next];
      if settled.Some? {
        return settled.value, met;
      }
      lastReadFailed := reading == ReadFailed;
      freeThroughout := freeThroughout && reading == Nobodys;
    }
    AnswersAtTheEnd(c.world.past, Latest(w0), met, freeThroughout, lastReadFailed, j.txID);
    r := if freeThroughout then DidNotLand else Unresolved(lastReadFailed);
  }

  lemma AnswersCancelled(h: seq<Version>, from: nat, met: seq<Option<nat>>, free: bool, lastFailed: bool, txID: string)
    requires Rounds(h, from, met, free, lastFailed) && 0 < |met| < RESOLVE_ATTEMPTS
    ensures Answers(UnresolvedCancelled, h, from, met, txID)
  {
  }

  lemma AnswersAtTheEnd(h: seq<Version>, from: nat, met: seq<Option<nat>>, free: bool, lastFailed: bool, txID: string)
    requires Rounds(h, from, met, free, lastFailed) && |met| == RESOLVE_ATTEMPTS
    ensures Answers(if free then DidNotLand else Unresolved(lastFailed), h, from, met, txID)
  {
  }

  datatype Acquisition =
    | Acquired(journal: Journal)
    | Refused(reason: Reason)
    | AcquireUnread
    | AcquireConflicts
    | Undone
    | Stranded
    | NotAcquired(resolution: Resolution)

  /** What each way of not acquiring leaves behind; the two missing ones promise nothing, and say so. */
  predicate LeavesNothing(r: Acquisition) {
    r.Refused? || r.AcquireUnread? || r.AcquireConflicts? || r.Undone?
    || (r.NotAcquired? && r.resolution.HeldByOther?)
  }

  /** A transaction that holds the Node at two versions does so with one tuple. */
  lemma SameTuple(h: seq<Version>, a: nat, k: nat, j: Journal)
    requires Lawful(h) && a <= k < |h| && HeldBy(h[a].node, j)
    ensures HoldsTx(h[k].node, j.txID) <==> HeldBy(h[k].node, j)
  {
    if HoldsTx(h[k].node, j.txID) {
      HeldContinuously(h, a, a, k, j.txID);
    }
  }

  /** The release that followed answered: the Node was given back or found free, or it was not. */
  ghost predicate TakenBack(r: Acquisition, sent: seq<Reply>, replies: seq<Reply>, log: seq<Option<nat>>, w: World,
                            j: Journal)
    requires |w.past| > 0
  {
    exists act :: ReleaseAnswers(act, sent, replies, log, w, j) && r == if act.Ok? then Undone else Stranded
  }

  /** The patch was accepted: read it back, and undo it if what is read is not what was written. */
  method ConfirmAcquired(c: Cluster, j: Journal) returns (r: Acquisition)
    requires c.Valid() && j.txID == c.mine && Acquires(c.world.past[Latest(c.world)], c.mine) && HeldBy(Now(c.world), j)
    modifies c`world, c`script, c`log, c`waits, c`replies
    ensures c.Valid() && Extends(old(c.world), c.world)
    ensures r == Acquired(j) ==> SeenHeld(c.world.past, Latest(old(c.world)), j)
    ensures r == Acquired(j) || r == Undone || r == Stranded
    ensures r == Undone ==> Over(c.world, c.mine)
    ensures Grows(old(c.log), c.log) && Grows(old(c.replies), c.replies)
    ensures r == Acquired(j) <==> c.replies == old(c.replies) && LastMet(c.log, c.world.past, c.mine)
    ensures r != Acquired(j) ==> TakenBack(r, old(c.replies), c.replies, c.log, c.world, j)
    ensures old(c.script) == [] ==> r == Acquired(j) && c.Quiet(old(c.world))
  {
    ghost var a := Latest(c.world);
    var check := VerifyAcquired(c, j);
    ghost var checked := c.world;
    ExtendsTrans(old(c.world), checked, checked);
    SameTuple(c.world.past, a, Latest(c.world), j);
    if check == Passed {
      assert HeldBy(c.world.past[Latest(c.world)].node, j);
      return Acquired(j);
    }
    ghost var log := c.log;
    r := Undo(c, j, a);
    ExtendsTrans(old(c.world), checked, c.world);
    GrowsTrans(old(c.log), log, c.log);
  }

  /** The acquisition that could not be confirmed is released again. */
  method Undo(c: Cluster, j: Journal, ghost a: nat) returns (r: Acquisition)
    requires c.Valid() && a < |c.world.past| && Acquires(c.world.past[a], j.txID)
    modifies c`world, c`script, c`log, c`waits, c`replies
    ensures c.Valid() && Meanwhile(old(c.world), c.world, c.mine)
    ensures r == Undone || r == Stranded
    ensures r == Undone ==> Over(c.world, j.txID)
    ensures Grows(old(c.log), c.log) && Grows(old(c.replies), c.replies)
    ensures c.replies == old(c.replies) ==> !LastMet(c.log, c.world.past, j.txID)
    ensures TakenBack(r, old(c.replies), c.replies, c.log, c.world, j)
  {
    var released := ReleaseAcquired(c, j);
    ExtendsTrans(old(c.world), c.world, c.world);
    if released == Ok(Restore) {
      ReleasedWasHeld(c.world, Latest(old(c.world)), j);
      r := Undone;
    } else if released == Ok(AlreadyDone) {
      InstalledAndGoneIsOver(c.world, a, Latest(c.world), j.txID);
      r := Undone;
    } else {
      r := Stranded;
    }
  }

  datatype Sent = Stopped(result: Acquisition) | Answered(journal: Journal, reply: Reply)

  /** What ends an acquisition before it sends anything: a failed read, or the state of the Node that was read. */
  ghost predicate StoppedBy(r: Acquisition, log: seq<Option<nat>>, w: World, id: Identity)
    requires |w.past| > 0
  {
    if LastRead(log) == None then r == AcquireUnread
    else LastRead(log) == Some(Latest(w)) && r.Refused? && RefusedFor(Now(w), id, r.reason)
  }

  lemma RefusedAsRead(w: World, id: Identity, at: string)
    requires |w.past| > 0 && Inv(w) && DecideAcquire(Observe(Now(w)), id, at).Err?
    ensures RefusedFor(Now(w), id, DecideAcquire(Observe(Now(w)), id, at).error)
  {
    EveryVersionIsSound(w.past, Latest(w));
    SoundRefusals(Now(w), id, at, DecideAcquire(Observe(Now(w)), id, at).error);
  }

  /** The read, the decision and the patch of one acquisition attempt. */
  method SendAcquire(c: Cluster, id: Identity, takenAt: string) returns (r: Sent)
    requires c.Valid() && id.txID == c.mine && WellFormedIdentity(id)
    requires !Installed(c.world.past, c.mine) && NoneInFlight(c.world, c.mine)
    modifies c`world, c`script, c`log, c`replies
    ensures c.Valid() && Extends(old(c.world), c.world)
    ensures Grows(old(c.log), c.log)
    ensures r.Stopped? ==>
              c.replies == old(c.replies) && Over(c.world, c.mine) && StoppedBy(r.result, c.log, c.world, id)
    ensures r.Answered? ==> c.replies == old(c.replies) + [r.reply]
    ensures r.Answered? ==> r.journal.txID == c.mine && OnlyWrites(c.world, c.mine, r.journal)
    ensures r.Answered? && r.reply == Accepted ==> Acquires(c.world.past[Latest(c.world)], c.mine)
    ensures r.Answered? && r.reply == Conflict ==>
              !Installed(c.world.past, c.mine) && NoneInFlight(c.world, c.mine)
    ensures r.Answered? && r.reply == Accepted ==> HeldBy(Now(c.world), r.journal)
    ensures old(c.script) == [] ==>
              && c.script == [] && (r.Answered? <==> Free(Now(old(c.world))))
              && (r.Answered? ==> r.reply == Accepted && r.journal == JournalFor(Now(old(c.world)), id, takenAt))
              && (r.Stopped? ==> c.world == old(c.world) && r.result.Refused?)
  {
    var got := c.Get();
    NotInstalledIsOver(c.world, c.mine);
    if got.None? {
      return Stopped(AcquireUnread);
    }
    var obs := ReadOwnership(got.value.node);
    var decided := DecideAcquire(obs, id, takenAt);
    AcquiredIsHeld(c.world, id, takenAt);
    if decided.Err? {
      RefusedAsRead(c.world, id, takenAt);
      return Stopped(Refused(decided.error));
    }
    ghost var w := c.world;
    var reply := c.Send(got.value.version, Acquire(id, takenAt));
    ExtendsTrans(old(c.world), w, c.world);
    r := Answered(decided.value, reply);
  }

  /** Acquisition is decided on a free Node and nowhere else, and puts the complete tuple on it. */
  lemma AcquiredIsHeld(w: World, id: Identity, at: string)
    requires |w.past| > 0 && Inv(w) && WellFormedIdentity(id)
    ensures DecideAcquire(Observe(Now(w)), id, at).Ok? <==> Free(Now(w))
    ensures Edit(Acquire(id, at), Now(w)).Ok? <==> Free(Now(w))
    ensures Free(Now(w)) ==>
              && DecideAcquire(Observe(Now(w)), id, at) == Ok(JournalFor(Now(w), id, at))
              && HeldBy(Edit(Acquire(id, at), Now(w)).value, JournalFor(Now(w), id, at))
  {
    EveryVersionIsSound(w.past, Latest(w));
    AcquireExactlyWhenUnowned(Now(w), id, at);
    if Free(Now(w)) {
      AcquisitionWrites(Now(w), id, at);
      AppendOwnershipTaint(Now(w).taints, id.runID);
      AcceptedExactlyWhenWellFormed(Now(w), id, at);
    }
  }

  /** One attempt of `acquireWorker`; None means the patch met a conflict, so it was never applied. */
  method AttemptAcquire(c: Cluster, id: Identity, takenAt: string) returns (r: Option<Acquisition>)
    requires c.Valid() && id.txID == c.mine && WellFormedIdentity(id)
    requires !Installed(c.world.past, c.mine) && NoneInFlight(c.world, c.mine)
    modifies c`world, c`script, c`log, c`waits, c`replies
    ensures c.Valid() && Extends(old(c.world), c.world)
    ensures r == None ==> !Installed(c.world.past, c.mine) && NoneInFlight(c.world, c.mine)
    ensures r.Some? && r.value.Acquired? ==>
              && r.value.journal.txID == c.mine
              && SeenHeld(c.world.past, Latest(old(c.world)), r.value.journal)
    ensures r.Some? && LeavesNothing(r.value) ==> Over(c.world, c.mine)
    ensures Grows(old(c.log), c.log) && Grows(old(c.replies), c.replies)
    ensures OneAnswer(r, old(c.replies), c.replies, c.log, c.world, id)
    ensures r == None ==> c.waits == old(c.waits)
    ensures r.Some? && r.value.NotAcquired? ==>
              Waited(old(c.waits), c.waits, r.value.resolution == UnresolvedCancelled)
    ensures old(c.script) == [] ==> r.Some? && LeftAlone(r.value, c, old(Now(c.world)), id, takenAt)
  {
    var sent := SendAcquire(c, id, takenAt);
    if sent.Stopped? {
      return Some(sent.result);
    } else if sent.reply == Conflict {
      return None;
    }
    ghost var w, log, replies := c.world, c.log, c.replies;
    var done := AfterPatch(c, sent.journal, sent.reply);
    ExtendsTrans(old(c.world), w, c.world);
    GrowsTrans(old(c.log), log, c.log);
    GrowsTrans(old(c.replies), replies, c.replies);
    PatchDecides(done, sent.reply, old(c.replies), c.replies, c.log, |log|, Latest(w), c.world, sent.journal, id);
    r := Some(done);
  }

  /** What one attempt answers, of what the server logged of it; None asks for another. */
  ghost predicate OneAnswer(r: Option<Acquisition>, sent: seq<Reply>, replies: seq<Reply>, log: seq<Option<nat>>,
                            w: World, id: Identity)
    requires |w.past| > 0
  {
    if replies == sent then r.Some? && StoppedBy(r.value, log, w, id)
    else
      && |sent| < |replies| && (r == None <==> replies == sent + [Conflict])
      && (r.Some? ==>
            && replies[|sent|] != Conflict && !r.value.Refused? && r.value != AcquireConflicts
            && (r.value.Acquired? <==> Acquiring(sent, replies, log, w, id.txID))
            && (!r.value.Acquired? ==> FailedPatch(r.value, |sent|, replies, log, w, id.txID)))
  }

  /**
    Why a patch that was not refused did not acquire.  If it was accepted, what was read back was not what was
    written, and the release that followed says the rest; if its answer was lost, the re-reads from `n` on do.
   */
  ghost predicate FailedAfter(r: Acquisition, reply: Reply, sent: seq<Reply>, replies: seq<Reply>,
                              log: seq<Option<nat>>, n: nat, from: nat, w: World, j: Journal)
    requires |w.past| > 0
  {
    if reply == Accepted then TakenBack(r, sent, replies, log, w, j)
    else
      && replies == sent && n <= |log| && r.NotAcquired? && r.resolution != Landed
      && Answers(r.resolution, w.past, from, log[n..], j.txID)
  }

  ghost predicate FailedPatch(r: Acquisition, p: nat, replies: seq<Reply>, log: seq<Option<nat>>, w: World,
                              txID: string)
    requires |w.past| > 0
  {
    && p < |replies| && replies[p] != Conflict
    && var reply, sent := replies[p], replies[..p + 1];
       exists n: nat, from: nat, j: Journal ::
         j.txID == txID && FailedAfter(r, reply, sent, replies, log, n, from, w, j)
  }

  lemma PatchDecides(r: Acquisition, reply: Reply, sent: seq<Reply>, replies: seq<Reply>, log: seq<Option<nat>>,
                     n: nat, from: nat, w: World, j: Journal, id: Identity)
    requires |w.past| > 0 && reply != Conflict && Grows(sent + [reply], replies) && j.txID == id.txID
    requires !r.Acquired? ==> FailedAfter(r, reply, sent + [reply], replies, log, n, from, w, j)
    requires !r.Refused? && r != AcquireConflicts
    requires r.Acquired? <==> replies == sent + [reply] && LastMet(log, w.past, id.txID)
    ensures OneAnswer(Some(r), sent, replies, log, w, id)
  {
    assert replies[..|sent| + 1] == sent + [reply];
    assert replies[|sent|] == replies[..|sent| + 1][|sent|];
    assert |replies| == |sent| + 1 ==> replies == sent + [reply];
  }

  /** What follows a patch that was not refused: it is read back, or looked for. */
  method AfterPatch(c: Cluster, j: Journal, reply: Reply) returns (r: Acquisition)
    requires c.Valid() && j.txID == c.mine && OnlyWrites(c.world, c.mine, j) && reply != Conflict
    requires reply == Accepted ==> Acquires(c.world.past[Latest(c.world)], c.mine) && HeldBy(Now(c.world), j)
    modifies c`world, c`script, c`log, c`waits, c`replies
    ensures c.Valid() && Extends(old(c.world), c.world)
    ensures r.Acquired? ==> r.journal == j && SeenHeld(c.world.past, Latest(old(c.world)), j)
    ensures LeavesNothing(r) ==> Over(c.world, c.mine)
    ensures Grows(old(c.log), c.log) && Grows(old(c.replies), c.replies)
    ensures r.Acquired? <==> c.replies == old(c.replies) && LastMet(c.log, c.world.past, c.mine)
    ensures !r.Acquired? ==> FailedAfter(r, reply, old(c.replies), c.replies, c.log, |old(c.log)|,
                                         Latest(old(c.world)), c.world, j)
    ensures !r.Refused? && r != AcquireConflicts
    ensures r.NotAcquired? ==> Waited(old(c.waits), c.waits, r.resolution == UnresolvedCancelled)
    ensures old(c.script) == [] && reply == Accepted ==> r == Acquired(j) && c.Quiet(old(c.world))
  {
    if reply == Accepted {
      r := ConfirmAcquired(c, j);
    } else {
      r := AfterAmbiguousPatch(c, j);
    }
  }

  /** One patch was sent since, it was not refused, and the last read met this transaction on the Node. */
  ghost predicate Acquiring(sent: seq<Reply>, replies: seq<Reply>, log: seq<Option<nat>>, w: World, txID: string) {
    |replies| == |sent| + 1 && LastReply(replies) != Conflict && LastMet(log, w.past, txID)
  }

  /** The answer where nobody interferes: acquired exactly when the Node was free, else refused for what it was. */
  ghost predicate LeftAlone(r: Acquisition, c: Cluster, n: Node, id: Identity, at: string)
    reads c
    requires |c.world.past| > 0
  {
    if Free(n) then r == Acquired(JournalFor(n, id, at)) && c.script == [] && HeldBy(Now(c.world), r.journal)
    else r.Refused? && RefusedFor(n, id, r.reason)
  }

  /** A patch whose response was lost is resolved by looking. */
  method AfterAmbiguousPatch(c: Cluster, j: Journal) returns (r: Acquisition)
    requires c.Valid() && j.txID == c.mine && OnlyWrites(c.world, c.mine, j)
    modifies c`world, c`script, c`log, c`waits
    ensures c.Valid() && Extends(old(c.world), c.world)
    ensures r.Acquired? ==> r.journal == j && SeenHeld(c.world.past, Latest(old(c.world)), j)
    ensures LeavesNothing(r) ==> Over(c.world, c.mine)
    ensures Grows(old(c.log), c.log) && (r.Acquired? <==> LastMet(c.log, c.world.past, c.mine))
    ensures r.Acquired? || r.NotAcquired?
    ensures r.NotAcquired? ==>
              && r.resolution != Landed && Waited(old(c.waits), c.waits, r.resolution == UnresolvedCancelled)
              && Answers(r.resolution, c.world.past, Latest(old(c.world)), c.log[|old(c.log)|..], j.txID)
  {
    var resolution, met := ResolveAmbiguousAcquire(c, j);
    LoggedAnswer(resolution, old(c.log), c.log, met, old(c.world), c.world, j);
    r := if resolution == Landed then Acquired(j) else NotAcquired(resolution);
  }

  /** What the resolution says of the whole log, and of the window since. */
  lemma LoggedAnswer(r: Resolution, before: seq<Option<nat>>, log: seq<Option<nat>>, met: seq<Option<nat>>,
                     w: World, w': World, j: Journal)
    requires |w.past| > 0 && |w'.past| > 0 && Extends(w, w') && log == before + met
    requires Answers(r, w'.past, Latest(w), met, j.txID) && (r == Landed ==> HeldBy(Now(w'), j))
    ensures Grows(before, log) && log[|before|..] == met
    ensures r == Landed <==> LastMet(log, w'.past, j.txID)
    ensures r == Landed ==> SeenHeld(w'.past, Latest(w), j)
  {
    assert LastRead(log) == LastRead(met);
    if r == Landed {
      assert HeldBy(w'.past[Latest(w')].node, j);
    }
  }

  /** Every patch since met a conflict. */
  ghost predicate OnlyConflicts(sent: seq<Reply>, replies: seq<Reply>) {
    Grows(sent, replies) && forall i :: |sent| <= i < |replies| ==> replies[i] == Conflict
  }

  /**
    What the whole call answers, of what the server logged of it.  After nothing but conflicts: five of them
    exhaust it, and before that the last read decides.  Otherwise it acquired exactly when the first patch
    that was not refused was the last one sent and the last read met this transaction on the Node, and else
    that patch says why not.
   */
  ghost predicate AcquireAnswers(r: Acquisition, sent: seq<Reply>, replies: seq<Reply>, log: seq<Option<nat>>,
                                 w: World, id: Identity)
    requires |w.past| > 0
  {
    if OnlyConflicts(sent, replies)
    then if |replies| == |sent| + 5 then r == AcquireConflicts else StoppedBy(r, log, w, id)
    else
      && Grows(sent, replies) && |sent| < |replies| && !r.Refused? && r != AcquireConflicts
      && (r.Acquired? <==>
            && OnlyConflicts(sent, replies[..|replies| - 1]) && LastReply(replies) != Conflict
            && LastMet(log, w.past, id.txID))
      && (!r.Acquired? ==> exists p :: |sent| <= p < |replies| && OnlyConflicts(sent, replies[..p])
                                    && FailedPatch(r, p, replies, log, w, id.txID))
  }

  lemma OneAnswerMore(done: Option<Acquisition>, sent: seq<Reply>, before: seq<Reply>, replies: seq<Reply>,
                      log: seq<Option<nat>>, w: World, id: Identity)
    requires |w.past| > 0 && OnlyConflicts(sent, before) && |before| < |sent| + 5 && Grows(before, replies)
    requires OneAnswer(done, before, replies, log, w, id)
    ensures done == None ==> OnlyConflicts(sent, replies) && |replies| == |before| + 1
    ensures done.Some? ==> AcquireAnswers(done.value, sent, replies, log, w, id)
  {
    GrowsTrans(sent, before, replies);
    if replies != before && done.Some? {
      assert replies[..|before|] == before;
      assert !OnlyConflicts(sent, replies);
      assert replies[..|replies| - 1][..|sent|] == sent;
      if |replies| == |before| + 1 {
        assert replies[..|replies| - 1] == before;
      }
    }
  }

  /**
    `acquireWorker`.  Success means the complete tuple of this transaction was on the Node during the call.
    A refusal, an exhausted retry, an undone write or a Node found held by another transaction leaves
    nothing of ours: no version from here on can be held by this transaction.
   */
  method AcquireWorker(c: Cluster, id: Identity, clock: nat -> string) returns (r: Acquisition)
    requires c.Valid() && id.txID == c.mine && WellFormedIdentity(id)
    requires !Installed(c.world.past, c.mine) && NoneInFlight(c.world, c.mine)
    modifies c`world, c`script, c`log, c`waits, c`replies
    ensures c.Valid() && Extends(old(c.world), c.world)
    ensures r.Acquired? ==> r.journal.txID == c.mine && SeenHeld(c.world.past, Latest(old(c.world)), r.journal)
    ensures LeavesNothing(r) ==> Over(c.world, c.mine)
    ensures AcquireAnswers(r, old(c.replies), c.replies, c.log, c.world, id)
    ensures r.NotAcquired? ==> Waited(old(c.waits), c.waits, r.resolution == UnresolvedCancelled)
    ensures old(c.script) == [] ==> LeftAlone(r, c, old(Now(c.world)), id, clock(0))
  {
    for attempt := 0 to ACQUIRE_ATTEMPTS
      invariant c.Valid() && Extends(old(c.world), c.world)
      invariant old(c.script) == [] ==> attempt == 0 && c.Quiet(old(c.world))
      invariant OnlyConflicts(old(c.replies), c.replies) && |c.replies| == |old(c.replies)| + attempt
      invariant c.waits == old(c.waits)
      invariant !Installed(c.world.past, c.mine) && NoneInFlight(c.world, c.mine)
    {
      ghost var w, replies := c.world, c.replies;
      var done := AttemptAcquire(c, id, clock(attempt));
      ExtendsTrans(old(c.world), w, c.world);
      OneAnswerMore(done, old(c.replies), replies, c.replies, c.log, c.world, id);
      if done.Some? {
        return done.value;
      }
    }
    NotInstalledIsOver(c.world, c.mine);
    r := AcquireConflicts;
  }

  // ------------------------------------------------------------ operator modes

  datatype OperatorError = OperatorUnread | OperatorRefused(reason: Reason) | StateChanged

  /**
    What an operator mode answers, of what the server logged of it: it reads once, and a failed read or a
    refusal of what was read ends it; else it sends one patch and succeeds exactly when that is accepted.
   */
  ghost predicate OperatorAnswers(r: Result<(), OperatorError>, op: Op, log: seq<Option<nat>>, log': seq<Option<nat>>,
                                  sent: seq<Reply>, replies: seq<Reply>, h: seq<Version>)
  {
    && log' == log + [LastRead(log')]
    && (LastRead(log').Some? ==> LastRead(log').value < |h|)
    && if LastRead(log') == None then r == Err(OperatorUnread) && replies == sent
       else match Edit(op, h[LastRead(log').value].node)
         case Err(e) => r == Err(OperatorRefused(e)) && replies == sent
         case Ok(_) =>
           && replies == sent + [LastReply(replies)]
           && r == if LastReply(replies) == Accepted then Ok(()) else Err(StateChanged)
  }

  /** The read, decision and single patch that forcing, clearing and stamping share. */
  method ApplyOnce(c: Cluster, op: Op) returns (r: Result<(), OperatorError>)
    requires c.Valid() && WellFormedOp(op) && !op.Acquire?
    modifies c`world, c`script, c`log, c`replies
    ensures c.Valid() && Meanwhile(old(c.world), c.world, c.mine)
    ensures r.Ok? ==> exists k :: Latest(old(c.world)) <= k < |c.world.past|
                               && Edit(op, c.world.past[k].node) == Ok(Now(c.world))
    ensures OperatorAnswers(r, op, old(c.log), c.log, old(c.replies), c.replies, c.world.past)
    ensures old(c.script) == [] ==> (r.Ok? <==> Edit(op, Now(old(c.world))).Ok?)
  {
    var got := c.Get();
    if got.None? {
      return Err(OperatorUnread);
    }
    var edited := Edit(op, got.value.node);
    if edited.Err? {
      return Err(OperatorRefused(edited.error));
    }
    ghost var w := c.world;
    r := PatchOnce(c, op, got.value.version);
    MeanwhileTrans(old(c.world), w, c.world, c.mine);
  }

  method PatchOnce(c: Cluster, op: Op, seen: nat) returns (r: Result<(), OperatorError>)
    requires c.Valid() && seen == Latest(c.world) && WellFormedOp(op) && !op.Acquire? && Edit(op, Now(c.world)).Ok?
    modifies c`world, c`script, c`replies
    ensures c.Valid() && Meanwhile(old(c.world), c.world, c.mine) && c.world.past[seen] == old(c.world).past[seen]
    ensures c.replies == old(c.replies) + [LastReply(c.replies)]
    ensures r == if LastReply(c.replies) == Accepted then Ok(()) else Err(StateChanged)
    ensures r.Ok? ==> Edit(op, old(c.world).past[seen].node) == Ok(Now(c.world))
    ensures old(c.script) == [] ==> r.Ok?
  {
    var reply := c.Send(seen, op);
    ExtendsTrans(old(c.world), c.world, c.world);
    r := if reply == Accepted then Ok(()) else Err(StateChanged);
  }

  /** `forceQuarantine`: a broken Node is never a free one, and the record keeps the journal it removed. */
  method ForceQuarantine(c: Cluster, nodeUID: string, quarantineID: string, at: string)
    returns (r: Result<(), OperatorError>)
    requires c.Valid() && quarantineID != ""
    modifies c`world, c`script, c`log, c`replies
    ensures c.Valid() && Meanwhile(old(c.world), c.world, c.mine)
    ensures r.Ok? ==> Quarantined(Now(c.world)) && Now(c.world).quarantine.quarantine.quarantineID == quarantineID
    ensures r.Ok? ==> exists k :: Latest(old(c.world)) <= k < |c.world.past| && !Quarantined(c.world.past[k].node)
                               && c.world.past[k].node.uid == nodeUID
                               && Now(c.world).quarantine.quarantine.priorJournal == c.world.past[k].node.journal
    ensures r.Ok? ==> forall id: Identity, t: string :: Edit(Acquire(id, t), Now(c.world)) == Err(QuarantinedNode)
    ensures OperatorAnswers(r, Force(nodeUID, quarantineID, at), old(c.log), c.log, old(c.replies), c.replies,
                            c.world.past)
    ensures old(c.script) == [] ==>
              (r.Ok? <==> Now(old(c.world)).quarantine == Empty && Now(old(c.world)).uid == nodeUID)
  {
    var op := Force(nodeUID, quarantineID, at);
    r := ApplyOnce(c, op);
    if r.Ok? {
      ghost var k :| Latest(old(c.world)) <= k < |c.world.past| && Edit(op, c.world.past[k].node) == Ok(Now(c.world));
      EveryVersionIsSound(c.world.past, k);
      ForceRecords(c.world.past[k].node, nodeUID, quarantineID, at);
    }
  }

  /** What the quarantine record says of the Node it was forced on. */
  lemma ForceRecords(n: Node, nodeUID: string, quarantineID: string, at: string)
    requires Sound(n) && quarantineID != "" && Edit(Force(nodeUID, quarantineID, at), n).Ok?
    ensures var m := Edit(Force(nodeUID, quarantineID, at), n).value;
            && !Quarantined(n) && n.uid == nodeUID && Quarantined(m)
            && m.quarantine.quarantine.quarantineID == quarantineID
            && m.quarantine.quarantine.priorJournal == n.journal
            && forall id: Identity, t: string :: Edit(Acquire(id, t), m) == Err(QuarantinedNode)
  {
    ForceToQuarantine(n, nodeUID, quarantineID, at);
  }

  /** `clearQuarantine`: only the record named, on the object it was written about, and then the Node is free. */
  method ClearQuarantine(c: Cluster, quarantineID: string) returns (r: Result<(), OperatorError>)
    requires c.Valid()
    modifies c`world, c`script, c`log, c`replies
    ensures c.Valid() && Meanwhile(old(c.world), c.world, c.mine)
    ensures r.Ok? ==> Free(Now(c.world))
    ensures r.Ok? ==> exists k :: Latest(old(c.world)) <= k < |c.world.past| && Quarantined(c.world.past[k].node)
                               && c.world.past[k].node.quarantine.quarantine.quarantineID == quarantineID
                               && c.world.past[k].node.quarantine.quarantine.nodeUID == Now(c.world).uid
    ensures OperatorAnswers(r, Clear(quarantineID), old(c.log), c.log, old(c.replies), c.replies,
                            c.world.past)
    ensures old(c.script) == [] ==> (r.Ok? <==> Clearable(Now(old(c.world)), quarantineID))
  {
    ClearsExactly(c.world, quarantineID);
    r := ApplyOnce(c, Clear(quarantineID));
    if r.Ok? {
      ghost var k :| Latest(old(c.world)) <= k < |c.world.past|
                     && Edit(Clear(quarantineID), c.world.past[k].node) == Ok(Now(c.world));
      EveryVersionIsSound(c.world.past, k);
      ClearFrees(c.world.past[k].node, quarantineID);
    }
  }

  predicate Clearable(n: Node, quarantineID: string) {
    Quarantined(n) && n.quarantine.quarantine.quarantineID == quarantineID
  }

  lemma ClearsExactly(w: World, quarantineID: string)
    requires |w.past| > 0 && Inv(w)
    ensures Edit(Clear(quarantineID), Now(w)).Ok? <==> Clearable(Now(w), quarantineID)
  {
    EveryVersionIsSound(w.past, Latest(w));
  }

  lemma ClearFrees(n: Node, quarantineID: string)
    requires Sound(n) && Edit(Clear(quarantineID), n).Ok?
    ensures Quarantined(n) && n.quarantine.quarantine.quarantineID == quarantineID
    ensures n.quarantine.quarantine.nodeUID == n.uid
    ensures Free(Edit(Clear(quarantineID), n).value) && Edit(Clear(quarantineID), n).value.uid == n.uid
  {
  }

  /** `stampResidue`: the note lands only on a Node this very transaction holds. */
  method StampResidue(c: Cluster, j: Journal, left: seq<Left>, leftAt: string, recordPath: string)
    returns (r: Result<(), OperatorError>)
    requires c.Valid()
    modifies c`world, c`script, c`log, c`replies
    ensures c.Valid() && Meanwhile(old(c.world), c.world, c.mine)
    ensures r.Ok? ==> HeldBy(Now(c.world), j) && left != []
    ensures r.Ok? ==> Now(c.world).residue
                      == ResidueText(Residue(RESIDUE_SCHEMA, j.txID, j.runID, leftAt, recordPath, left))
    ensures OperatorAnswers(r, Stamp(j, left, leftAt, recordPath), old(c.log), c.log, old(c.replies), c.replies,
                            c.world.past)
    ensures old(c.script) == [] ==> (r.Ok? <==> left != [] && HeldBy(Now(old(c.world)), j))
  {
    ObservedIsHeld(c.world.past, Latest(c.world), j);
    var op := Stamp(j, left, leftAt, recordPath);
    r := ApplyOnce(c, op);
    if r.Ok? {
      ghost var k :| Latest(old(c.world)) <= k < |c.world.past| && Edit(op, c.world.past[k].node) == Ok(Now(c.world));
      EveryVersionIsSound(c.world.past, k);
      StampOnHeld(c.world.past[k].node, op);
    }
  }

  /** What it answers, of its first read: a failed one, a Node the transaction is off, or the release of its journal. */
  ghost predicate StaleAnswers(r: Result<ReleaseAction, ReleaseFailure>, first: Option<nat>, sent: seq<Reply>,
                               replies: seq<Reply>, log: seq<Option<nat>>, w: World, txID: string)
    requires |w.past| > 0
  {
    if first == None then r == Err(ReleaseUnread) && replies == sent
    else
      && first.value < |w.past|
      && var n := w.past[first.value].node;
         if HoldsTx(n, txID) then ReleaseAnswers(r, sent, replies, log, w, n.journal.journal)
         else r == Untouched(n) && replies == sent
  }

  /** `releaseStale`: success means the named transaction did not hold the Node at some read of this call. */
  method ReleaseStale(c: Cluster, txID: string) returns (r: Result<ReleaseAction, ReleaseFailure>)
    requires c.Valid()
    modifies c`world, c`script, c`log, c`waits, c`replies
    ensures c.Valid() && Meanwhile(old(c.world), c.world, c.mine)
    ensures r.Ok? ==> exists k :: Latest(old(c.world)) <= k < |c.world.past| && !HoldsTx(c.world.past[k].node, txID)
    ensures r == Ok(AlreadyDone) ==> Free(Now(c.world))
    ensures r == Ok(Restore) ==> Over(c.world, txID)
    ensures |old(c.log)| < |c.log|
    ensures StaleAnswers(r, c.log[|old(c.log)|], old(c.replies), c.replies, c.log, c.world, txID)
    ensures old(c.script) == [] ==> (r == Ok(Restore) <==> HoldsTx(Now(old(c.world)), txID))
  {
    var got := c.Get();
    if got.None? {
      return Err(ReleaseUnread);
    }
    ghost var w, log := c.world, c.log;
    r := StaleAsRead(c, txID, got.value);
    MeanwhileTrans(old(c.world), w, c.world, c.mine);
    GrowsTrans(old(c.log), log, c.log);
    assert c.log[|old(c.log)|] == c.log[..|log|][|old(c.log)|];
  }

  /** The decision on what was read, and the release of the journal that was read. */
  method StaleAsRead(c: Cluster, txID: string, got: Read) returns (r: Result<ReleaseAction, ReleaseFailure>)
    requires c.Valid() && got == Read(Now(c.world), Latest(c.world))
    modifies c`world, c`script, c`log, c`waits, c`replies
    ensures c.Valid() && Meanwhile(old(c.world), c.world, c.mine) && Grows(old(c.log), c.log)
    ensures r.Ok? ==> !HoldsTx(Now(c.world), txID)
    ensures r == Ok(AlreadyDone) ==> Free(Now(c.world))
    ensures r == Ok(Restore) ==> Over(c.world, txID)
    ensures StaleAnswers(r, Some(got.version), old(c.replies), c.replies, c.log, c.world, txID)
    ensures old(c.script) == [] ==> (r == Ok(Restore) <==> HoldsTx(Now(old(c.world)), txID))
  {
    var obs := ReadOwnership(got.node);
    var act := DecideRelease(obs, txID);
    RestoreIsHeld(c.world.past, Latest(c.world), txID);
    if act != Ok(Restore) {
      OffIsUntouched(c.world.past, Latest(c.world), txID);
      r := if act.Err? then Err(ReleaseRefused(act.error)) else Ok(act.value);
      return;
    }
    r := ReleaseAcquired(c, obs.journal);
    ExtendsTrans(old(c.world), c.world, c.world);
    if r == Ok(Restore) {
      ReleasedWasHeld(c.world, Latest(old(c.world)), obs.journal);
    }
  }

  // ------------------------------------------------- what "did not land" is not

  /**
    The refusal says the Node was observed free on every re-read.  That is so exactly when no re-read met a
    quarantine record, which the branch behind it does not look at.
   */
  lemma DidNotLandSawFreeNodes(h: seq<Version>, from: nat, met: seq<Option<nat>>)
    requires Lawful(h) && Dated(h, from, met) && AllUnmarked(h, met)
    ensures (forall i :: 0 <= i < |met| ==> Free(h[met[i].value].node))
       <==> (forall i :: 0 <= i < |met| ==> h[met[i].value].node.quarantine == Empty)
  {
    forall i | 0 <= i < |met|
      ensures Free(h[met[i].value].node) <==> h[met[i].value].node.quarantine == Empty
    {
      EveryVersionIsSound(h, met[i].value);
    }
  }

  /**
    The whole sentence, "did not land, and was observed free on every re-read", up to the last re-read.  It is
    true exactly when no re-read met a quarantine record and no hold of the transaction had already ended.
   */
  lemma DidNotLandIsTrueExactly(h: seq<Version>, from: nat, met: seq<Option<nat>>, txID: string)
    requires Lawful(h) && met != [] && Dated(h, from, met) && AllUnmarked(h, met)
    ensures var k := met[|met| - 1].value;
            && (forall i :: 0 <= i < |met| ==> Free(h[met[i].value].node))
            && !Installed(h[..k + 1], txID)
            <==>
            && (forall i :: 0 <= i < |met| ==> h[met[i].value].node.quarantine == Empty)
            && !LostBy(h, k, txID)
  {
    DidNotLandSawFreeNodes(h, from, met);
    LandedExactlyWhenLost(h, met[|met| - 1].value, txID);
  }

  /** A world in which the resolve loop may be at work for this journal, and its patch has landed already. */
  ghost predicate LandedUnder(w: World, j: Journal) {
    |w.past| > 0 && Inv(w) && OnlyWrites(w, j.txID, j) && Installed(w.past, j.txID)
  }

  /** The patch landed and an operator forced it off: the Node is quarantined, and unmarked. */
  lemma DidNotLandDespiteLanding(w: World, id: Identity, at: string, qid: string) returns (es: seq<Event>)
    requires Initial(w) && WellFormedIdentity(id) && qid != ""
    ensures LandedUnder(Execute(w, es), JournalFor(w.past[0].node, id, at))
    ensures Unmarked(Now(Execute(w, es))) && Quarantined(Now(Execute(w, es)))
  {
    var w1, first := FirstAcquisition(w, id, at);
    ForceToQuarantine(Now(w1), Now(w1).uid, qid, at);
    var w2, second := LandsAtOnce(w1, Force(Now(w1).uid, qid, at), id.txID);
    StillInstalled(w1, w2, id.txID);
    ExecuteAppend(w, first, second);
    es := first + second;
  }

  /** The patch landed and was released under its id: every later read meets a Node that is plainly free. */
  lemma DidNotLandDespiteRelease(w: World, id: Identity, at: string) returns (es: seq<Event>)
    requires Initial(w) && WellFormedIdentity(id)
    ensures LandedUnder(Execute(w, es), JournalFor(w.past[0].node, id, at))
    ensures Free(Now(Execute(w, es))) && Now(Execute(w, es)).quarantine == Empty
  {
    var w2: World;
    w2, es := AcquiredThenReleased(w, id, at);
  }

  /** In either world the loop, left alone, answers that the patch did not land. */
  method ResolveQuietly(w: World, j: Journal) returns (r: Resolution)
    requires |w.past| > 0 && Inv(w) && OnlyWrites(w, j.txID, j)
    ensures r == DidNotLand <==> Unmarked(Now(w))
  {
    var c := new Cluster(w, [], j.txID);
    var resolution, met := ResolveAmbiguousAcquire(c, j);
    r := resolution;
    assert r == DidNotLand ==> met[0] == Some(Latest(w));
  }

  /** The first acquisition of a free Node, submitted and delivered. */
  lemma FirstAcquisition(w: World, id: Identity, at: string) returns (w1: World, es: seq<Event>)
    requires Initial(w) && WellFormedIdentity(id)
    ensures w1 == Execute(w, es) && LandedUnder(w1, JournalFor(w.past[0].node, id, at)) && w1.flight == {}
    ensures |w1.past| == 2 && w1.past[0] == w.past[0] && w1.past[1].cause == Did(Acquire(id, at))
    ensures Edit(Acquire(id, at), w.past[0].node) == Ok(Now(w1)) && Sound(Now(w1)) && HoldsTx(Now(w1), id.txID)
  {
    var n := w.past[0].node;
    InitialIsLawful(w);
    AcquireExactlyWhenUnowned(n, id, at);
    AcquisitionWrites(n, id, at);
    AcquireFromFree(n, id, at);
    w1, es := LandsAtOnce(w, Acquire(id, at), id.txID);
    assert Acquires(w1.past[1], id.txID);
  }

  /** And its release: the Node is what it was, and the history tells. */
  lemma AcquiredThenReleased(w: World, id: Identity, at: string) returns (w2: World, es: seq<Event>)
    requires Initial(w) && WellFormedIdentity(id)
    ensures w2 == Execute(w, es) && LandedUnder(w2, JournalFor(w.past[0].node, id, at)) && w2.flight == {}
    ensures |w2.past| == 3 && Now(w2) == w.past[0].node && w2.past[0] == w.past[0]
    ensures w2.past[1].cause == Did(Acquire(id, at)) && w2.past[2].cause == Did(Release(id.txID))
  {
    var w1, first := FirstAcquisition(w, id, at);
    ReleaseUndoesAcquire(w.past[0].node, id, at);
    var second: seq<Event>;
    w2, second := ReleasedNext(w1, JournalFor(w.past[0].node, id, at), w.past[0].node);
    ExecuteAppend(w, first, second);
    es := first + second;
  }

  lemma ReleasedNext(w: World, j: Journal, n: Node) returns (w': World, es: seq<Event>)
    requires LandedUnder(w, j) && w.flight == {} && Edit(Release(j.txID), Now(w)) == Ok(n) && n != Now(w)
    ensures w' == Execute(w, es) && LandedUnder(w', j) && w'.flight == {} && |w'.past| == |w.past| + 1
    ensures forall i :: 0 <= i < |w.past| ==> w'.past[i] == w.past[i]
    ensures Now(w') == n && w'.past[|w.past|].cause == Did(Release(j.txID))
  {
    w', es := LandsAtOnce(w, Release(j.txID), j.txID);
    StillInstalled(w, w', j.txID);
    ExtendsTrans(w, w', w');
  }

  lemma StillInstalled(w: World, w': World, txID: string)
    requires Extends(w, w') && Installed(w.past, txID)
    ensures Installed(w'.past, txID)
  {
    var i :| 0 <= i < |w.past| && Acquires(w.past[i], txID);
    assert w'.past[..|w.past|][i] == w.past[i];
    assert Acquires(w'.past[i], txID);
  }

  /** Submit from the latest version and deliver at once: the operation happens. */
  lemma LandsAtOnce(w: World, op: Op, txID: string) returns (w': World, es: seq<Event>)
    requires |w.past| > 0 && Inv(w) && Sendable(w, Latest(w), op, txID) && Edit(op, Now(w)).value != Now(w)
    ensures w' == Execute(w, es) && Extends(w, w') && w'.flight <= w.flight
    ensures |w'.past| == |w.past| + 1 && w'.past[|w.past|] == Version(Edit(op, Now(w)).value, Did(op))
    ensures Inv(w') && (!op.Acquire? ==> Meanwhile(w, w', txID))
    ensures op.Acquire? ==> OnlyWrites(w', txID, JournalOf(w, Latest(w), op))
  {
    w' := Step(Step(w, Submit(Latest(w), op)), Deliver(Prepared(w, Latest(w), op)));
    DeliveredKeeps(w, Latest(w), op, txID);
    es := [Submit(Latest(w), op), Deliver(Prepared(w, Latest(w), op))];
    ExecuteTwo(w, es);
  }

  lemma ExecuteTwo(w: World, es: seq<Event>)
    requires |w.past| > 0 && |es| == 2
    ensures Execute(w, es) == Step(Step(w, es[0]), es[1])
  {
    assert es[..1][..0] == [] && es[..1][0] == es[0];
    assert Execute(w, es[..1]) == Step(w, es[0]);
  }

  lemma {:induction false} ExecuteAppend(w: World, es: seq<Event>, fs: seq<Event>)
    requires |w.past| > 0
    ensures Execute(w, es + fs) == Execute(Execute(w, es), fs)
  {
    if fs == [] {
      assert es + fs == es;
    } else {
      var init := fs[..|fs| - 1];
      ExecuteAppend(w, es, init);
      assert (es + fs)[..|es + fs| - 1] == es + init;
    }
  }
}
