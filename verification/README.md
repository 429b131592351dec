# The queue lab's worker lock and what is built on it

`cmd/queuelabrun` measures how a cluster reclaims GPUs. It takes a worker Node for itself with a lock kept on
the Node object (one label, one taint, and three annotations: the journal, the quarantine record and the residue
note), runs a trace on it, tears its fixtures down, and gives the worker back. This project models that lock,
the run around it, the watchers that vouch for it, and the arithmetic that turns runs into findings; and the
evidence gates of `cmd/benchharness`.

| file | what it models |
|---|---|
| `Ownership.dfy` | the decision layer: what a Node says about its owner and what may be done to it |
| `Protocol.dfy` | the API server: stored versions, merge patches with an optimistic lock, patches left in flight, other writers, a recreated Node |
| `History.dfy` | what holds over every interleaving: the three states, continuous holds, handovers, late commits |
| `Apply.dfy`, `Operations.dfy` | the retry and read-back loops, run against an adversarial server |
| `Window.dfy` | the ownership sentinel and the audited release |
| `Teardown.dfy`, `TeardownApply.dfy` | the crash-surviving seed, its deletion set, and the phased executor |
| `RunPhases.dfy`, `Report.dfy` | `run` with its deferred calls, and what leaves the process afterwards |
| `Lifecycle.dfy` | the run on a cluster: acquisition, window, teardown and release as the real operations under those phases |
| `Collector.dfy` | the pending queue compacted in place |
| `Compare.dfy`, `Interleave.dfy` | pooled floors, findings, and the alternation test |
| `Evidence.dfy` | the benchmark report's loader and agreement check |
| `Qualify.dfy` | sizing the run and qualifying the worker |

## Assumptions

- A transaction id is drawn once: an acquisition under an id is submitted only while no version and no patch in
  flight carries it.
- Reads see the latest stored version. A patch is accepted only against the version it was computed from.
- Writers other than the protocol never touch its label key, taint key or annotations; a recreated Node carries
  none of them and has a UID that was never used before.
- Identities are well formed for their kind. `Ownership.AcquisitionReadsBack` shows that this is exactly what
  acquisition owes its own read-back.
- Annotation text is kept at document level: encoding is a constructor, decoding is a match followed by the
  validation the source does.
- In `Apply.dfy` and `TeardownApply.dfy` the environment is a script of arbitrary values, so a contract holds
  against every behaviour of the other processes, every lost response and every failed read. Both servers keep
  their own log of the reads and requests they were sent and of how they answered, so what a contract says of an
  operation's reads is not the operation's own word. "Undisturbed" means that script is empty.

## What does not hold, and exactly when it does

- "Did not land; it was observed free on every re-read" (`cmd/queuelabrun/ownership_apply.go:393-397`): both
  halves can be false. The branch behind it (`cmd/queuelabrun/ownership_apply.go:367`) does not look at the
  quarantine record, so the re-reads may all have met a quarantined Node (`Operations.DidNotLandDespiteLanding`).
  And the patch may have landed and been released under its id before the first re-read, which then meets a Node
  that is plainly free (`Operations.DidNotLandDespiteRelease`). In both worlds the loop, left alone, gives this
  answer (`Operations.ResolveQuietly`). `Operations.DidNotLandIsTrueExactly` proves the whole sentence, up to the
  last re-read, true exactly when no re-read met a quarantine record and no hold of the transaction had ended by
  then, through its release, a force or the loss of the Node.
- A lost acquisition patch may still commit after the resolve window. `History.LateCommitExactlyWhileUnspent`
  proves that it can exactly while the version it names is still the latest.
- "Our markers removed" in the restoration audit (`cmd/queuelabrun/ownership_window.go:567`) is false also when
  another transaction has since acquired the Node: `Window.AuditExactlyWhenUnheld`, and `Window.ReleasedThenTaken`
  for a run in which that happens.
- The comment on `podGPURequest` (`cmd/queuelabrun/qualify.go:287-290`) says that only whether the count is above
  zero matters. The count is also added to the devices held by surplus occupiers
  (`cmd/queuelabrun/qualify.go:350`), where a restartable init container can be missed:
  `Qualify.SidecarIsUndercounted`, and with it the verdict can be wrong: `Qualify.UndercountQualifies`. `Qualify.CountedInFullExactly` says of a Pod's spec exactly when its count is
  what the scheduler reserves: its restartable init containers ask for nothing, or the largest init container
  outweighs the containers with all of them and every init step with those started before it.
  `Qualify.HeldIsReservedExactly` and `Qualify.RoomIsRealExactly` carry that to the Node's total and to the gate.

## Model

| member | source | states |
|---|---|---|
| `Ownership.WithOwnershipTaint` | cmd/queuelabrun/ownership.go:477-487 | the patched list keeps every foreign taint in order and carries exactly one ownership taint |
| `Ownership.WithoutOwnershipTaint` | cmd/queuelabrun/ownership.go:490-498 | only the ownership key goes; every other taint stays, in order |
| `Ownership.ReadOwnership` | cmd/queuelabrun/ownership.go:317-336 | the loop reduces a Node to the observation the decisions are stated on |
| `Ownership.AcquireExactlyWhenUnowned` | cmd/queuelabrun/ownership.go:347-397 | acquisition proceeds if and only if there is no marker, no journal and no quarantine record |
| `Ownership.AcquireRefusals` | cmd/queuelabrun/ownership.go:347-435 | on any Node whatever, which refusal an acquisition gets, each as an if-and-only-if on the markers, the journal and the quarantine record; a foreign owner is named with its residue note |
| `Ownership.SoundRefusals` | cmd/queuelabrun/ownership.go:347-435 | on a sound Node: foreign-owner exactly when another transaction holds it, quoting that holder and its note; own-id exactly when this one does; quarantined exactly when it is |
| `Ownership.InstalledExactlyWhenIntact` | cmd/queuelabrun/ownership.go:450-473 | the installed tuple verifies if and only if the label, the one taint and the Node are those of the journal, and the wrong-node refusal is given exactly for the last |
| `Ownership.ObservedDecisions` | cmd/queuelabrun/ownership_apply.go:225-233 | what the read-back of an acquisition finds wrong on any Node whatever, each reason as an if-and-only-if |
| `Ownership.CleanDecisions` | cmd/queuelabrun/ownership_apply.go:269-309 | what the read-back of a release finds left on any Node whatever, each reason as an if-and-only-if |
| `Ownership.AcceptedExactlyWhenWellFormed` | cmd/queuelabrun/ownership.go:128-173 | the written journal decodes if and only if the identity is well formed for its kind and the Node has a name and a UID |
| `Ownership.AcquisitionReadsBack` | cmd/queuelabrun/ownership_apply.go:225-233 | a written acquisition verifies as the complete tuple if and only if its identity was well formed |
| `Ownership.ReleaseUndoesAcquire` | cmd/queuelabrun/ownership.go:601-624 | releasing right after acquiring gives back the very Node, taint order included |
| `Ownership.ReleaseDecisions` | cmd/queuelabrun/ownership.go:601-624 | what a release decides on any Node whatever, each answer as an if-and-only-if |
| `Ownership.ReleaseWrites` | cmd/queuelabrun/ownership_apply.go:740-824 | a release removes the markers, the journal and the note, and nothing else |
| `Ownership.ForceWrites` | cmd/queuelabrun/ownership.go:549-568 | a force removes the claim and keeps all of it in its record: the journal, the label and the taints; the residue note and everything else stays |
| `Ownership.ClearWrites` | cmd/queuelabrun/ownership.go:577-595 | a clear is refused for each of its reasons exactly, and removes the record and the note and nothing else |
| `Ownership.StampWrites` | cmd/queuelabrun/ownership_apply.go:845-888 | a stamp is accepted exactly on the intact tuple of the journal given, and writes the note and nothing else |
| `Ownership.ForceThenClearIsRelease` | cmd/queuelabrun/ownership.go:549-595 | forcing a held Node keeps its journal in the record, and clearing that record leaves what its own release would have left |
| `Ownership.ForcedNodeRefusesAcquire` | cmd/queuelabrun/ownership.go:549-568 | a force alone never makes the Node acquirable |
| `Protocol.PatchOfEdit` | cmd/queuelabrun/ownership_apply.go:118-186 | the merge patch computed from an edit, applied to the version it was computed from, is that edit |
| `Protocol.StepKeepsInv` | cmd/queuelabrun/ownership_apply.go:667-824 | every event, a submission, a delivery, an unrelated write or a recreation, keeps the history lawful and each journal installed at most once |
| `Protocol.EveryInterleavingIsLawful` | cmd/queuelabrun/ownership_apply.go:118-186 | after any sequence of events the history is lawful and extends the one before |
| `History.EditKeepsSound` | cmd/queuelabrun/ownership.go:347-397 | each of the five edits takes a sound Node to a sound Node |
| `History.FreeHeldOrQuarantined` | cmd/queuelabrun/ownership_apply.go:118-186 | over every interleaving each version is exactly one of free, held by one transaction with its complete tuple, or quarantined with no marker and no journal |
| `History.ResidueNamesTheHolder` | cmd/queuelabrun/ownership.go:416-435 | a residue note exists only on a held or quarantined Node, names the holder while held, and a foreign-owner refusal never quotes another transaction's |
| `History.HoldingStep` | cmd/queuelabrun/ownership_apply.go:740-824 | a hold begins only at its own acquisition and ends only by its own release, a force or the loss of the Node |
| `History.HeldContinuously` | cmd/queuelabrun/ownership_apply.go:902-913 | two versions held by one transaction are joined by a hold under one journal |
| `History.LostForGood` | cmd/queuelabrun/ownership_apply.go:902-913 | a transaction that was installed and stopped holding never holds again |
| `History.HandoverNeedsReleaseOrForceAndClear` | cmd/queuelabrun/ownership.go:549-624 | on one UID, between a hold of A and a later hold of B lies a release of exactly A, or a force that preserved A's journal and then a clear naming that record on that object |
| `History.ProtocolLeavesOtherTaints` | cmd/queuelabrun/ownership.go:477-498 | at every version the foreign taints are, in order, what the other writers alone would have left |
| `History.CleanExactlyWhenNotHeld` | cmd/queuelabrun/ownership_apply.go:269-309 | in every reachable state on the journal's UID, `verifyClean` passes if and only if that transaction does not hold the Node, byte-identical markers of another included |
| `History.OverForever` | cmd/queuelabrun/ownership_apply.go:335-402 | once nothing held and no live patch is left, no continuation ever puts the transaction on the Node |
| `History.ForeignHoldSpendsPatches` | cmd/queuelabrun/ownership_apply.go:335-402 | a Node seen held by another transaction has overtaken every acquisition patch still in flight |
| `History.LateCommitExactlyWhileUnspent` | cmd/queuelabrun/ownership_apply.go:335-402 | some continuation lands the lost patch if and only if it names the latest version |
| `Apply.Cluster.Send` | cmd/queuelabrun/ownership_apply.go:118-186 | an accepted patch is the edit of the version that was read; an acquisition that met a conflict was not applied and left nothing in flight; any other error says nothing; undisturbed, a patch of the latest version is accepted |
| `Operations.VerifyAcquired` | cmd/queuelabrun/ownership_apply.go:192-218 | of the reads the server logged, at most three, a pass means and is given exactly when the last one succeeded and met the complete tuple |
| `Operations.VerifyReleased` | cmd/queuelabrun/ownership_apply.go:237-261 | a pass is given exactly when the last read succeeded and met the Node under the journal's UID and off this transaction |
| `Operations.ResolveAmbiguousAcquire` | cmd/queuelabrun/ownership_apply.go:335-402 | of the reads and waits the server logged for this call: landed if and only if the last read met our tuple; held by another if and only if it met another's, and then ours can never commit; did-not-land if and only if there were six, all succeeded, and none met a marker or a journal; cancelled if and only if a wait was; unresolved otherwise |
| `Operations.AcquireWorker` | cmd/queuelabrun/ownership_apply.go:118-186 | success means the complete tuple was on the Node during the call; every refusal, exhausted retry, undone write or foreign holder leaves nothing of ours, now or later. Of what the server logged: a refusal is the one the state that was read calls for; five conflicts exhaust it; it succeeds if and only if one patch was not refused, its response lost or not, and the last read met our tuple, and otherwise the undoing release or the re-reads say which failure it is. Undisturbed it succeeds, with the journal of that Node, if and only if the Node is free, and else gives exactly the refusal of that state |
| `Operations.ReleaseAcquired` | cmd/queuelabrun/ownership_apply.go:740-824 | a restore means the transaction held the Node at a version met in the call and at a later one, on the journal's UID, did not. Of what the server logged it is answered if and only if a patch was not refused and was read back off this transaction on that UID and, after a lost response, with no journal at all; every other answer is characterised too |
| `Operations.ReleaseOwned` | cmd/queuelabrun/ownership_apply.go:902-913 | success means the transaction's complete tuple was on the Node at a version met in the call, at every version between its acquisition and that one, and never will be again; it is given if and only if the server logged a patch that was not refused and a read-back off this transaction, so also when the patch landed and its response was lost; undisturbed, it succeeds if and only if the transaction holds the journal's Node |
| `Operations.ReleaseStale` | cmd/queuelabrun/ownership_apply.go:603-661 | already done means the Node was read free; a restore ends the named transaction for good; the first read the server logged decides whether there is anything to release, and the release of the journal it met decides the rest; undisturbed, it restores if and only if that transaction holds |
| `Operations.ForceQuarantine` | cmd/queuelabrun/ownership_apply.go:667-709 | success leaves a quarantined Node, never a free one, whose record keeps the journal of the version it was read from, under the UID the operator named; of what the server logged, each failure is characterised exactly; undisturbed, it succeeds if and only if there is no record yet and the UID is the Node's |
| `Operations.ClearQuarantine` | cmd/queuelabrun/ownership_apply.go:713-732 | success frees the Node and cleared exactly the record named, on the object it was written about; of what the server logged, each failure is characterised exactly; undisturbed, it succeeds if and only if the Node is quarantined under that id |
| `Operations.StampResidue` | cmd/queuelabrun/ownership_apply.go:845-888 | the note lands only on a Node this very transaction holds, and is the one it wrote; of what the server logged, each failure is characterised exactly; undisturbed, it lands if and only if there is something to name and the tuple is intact |
| `Operations.DidNotLandSawFreeNodes` | cmd/queuelabrun/ownership_apply.go:367-375 | the "observed free" half: every re-read saw a free Node if and only if none met a quarantine record |
| `History.LandedExactlyWhenLost` | cmd/queuelabrun/ownership_apply.go:393-397 | the "did not land" half: at a version the transaction does not hold, its patch had landed if and only if a hold of it had been ended by its release, a force or the loss of the Node |
| `Operations.DidNotLandIsTrueExactly` | cmd/queuelabrun/ownership_apply.go:393-397 | both halves of the sentence hold up to the last re-read if and only if no re-read met a quarantine record and no hold of the transaction had ended |
| `Operations.DidNotLandDespiteLanding` | cmd/queuelabrun/ownership_apply.go:367-375 | a reachable world for the loop in which the patch landed and was forced off, so that the Node is quarantined and unmarked |
| `Operations.DidNotLandDespiteRelease` | cmd/queuelabrun/ownership_apply.go:393-397 | a reachable world for the loop in which the patch landed and was released, so that the Node is plainly free |
| `Operations.ResolveQuietly` | cmd/queuelabrun/ownership_apply.go:335-402 | left alone in any such world, the loop answers did-not-land if and only if the Node is unmarked |
| `Window.Sentinel.Record` | cmd/queuelabrun/ownership_window.go:406-411 | every violation is counted, the first twenty are kept |
| `Window.Sentinel.Fold` | cmd/queuelabrun/ownership_window.go:361-395 | one arrival adds a violation exactly when it is a deletion or a version that diverged |
| `Window.Sentinel.Consume` | cmd/queuelabrun/ownership_window.go:225-353 | whatever order the events, the ending and the opening read are folded in, every broken arrival is counted and the first twenty are kept in that order, a lost view ahead of the opening read where it came first |
| `Window.CountOfDrained` | cmd/queuelabrun/ownership_window.go:299-411 | the count of a drained view is the deleted or diverged versions plus one for a lost view |
| `Window.Sentinel.Invalidation` | cmd/queuelabrun/ownership_window.go:444-458 | the earliest violation of the window is what is quoted, and nothing exactly when there was none |
| `Window.JudgeWindow` | cmd/queuelabrun/ownership_window.go:225-458 | opened, drained and judged, a window invalidates nothing if and only if every version seen carried the installed tuple and the caller ended the view with no terminal status; otherwise it quotes the first broken arrival |
| `Window.InvalidatesExactlyWhenBroken` | cmd/queuelabrun/ownership_window.go:299-458 | no violation, wherever the opening read lands, if and only if every version seen carried the installed tuple and the caller ended the view with no terminal status |
| `Window.SameMarkersThroughoutIsHeldThroughout` | cmd/queuelabrun/ownership_window.go:361-395 | from a held version, equal marker values throughout is the same as this transaction's hold throughout, although another transaction may install equal values |
| `Window.CleanWindowIsExclusiveUse` | cmd/queuelabrun/ownership_window.go:299-458 | a clean window over a full delivery proves the hold from its first version to its last |
| `Window.Summarise` | cmd/queuelabrun/ownership_window.go:551-580 | removed and drift follow from both sides read, and nothing follows from a side that was not |
| `Window.OwnReleaseAuditsClean` | cmd/queuelabrun/ownership_window.go:551-580 | this transaction's own release audits as removed with no drift |
| `Window.AuditExactlyWhenUnheld` | cmd/queuelabrun/ownership_window.go:551-567 | on the journal's Node the audit says removed if and only if nobody holds it |
| `Window.DriftExactlyWhenLost` | cmd/queuelabrun/ownership_window.go:461-580 | drift names exactly the other people's taint keys that were on the Node before and are not after |
| `Window.ReleasedThenTaken` | cmd/queuelabrun/ownership_window.go:551-567 | a run in which the release was stored, another transaction then acquired the same Node, and the audit says not removed where `verifyClean` passes |
| `Window.AuditedRelease` | cmd/queuelabrun/ownership_window.go:496-519 | success means the same continuous hold up to a version met in the call and that it is over for good, and is given if and only if the server logged it restored; undisturbed, if and only if the transaction holds the journal's Node; removed and drift follow from the two sides as they were read, and the release's own doing is audited as removed with no drift |
| `Teardown.Enumerate` | cmd/queuelabrun/teardown.go:111-181 | the deletion set is a function of the seed alone: the namespace, then every queue, then the flavor, none twice |
| `Teardown.TargetsAre` | cmd/queuelabrun/teardown.go:111-181 | which seeds enumerate, of their fields, and the very names that are deleted for each study: namespace, queues, flavor |
| `Teardown.LabelBounds` | internal/queuelab/fixtures.go:119-136 | a name component is 1 to 63 lower-case letters or digits, dashes inside only |
| `Teardown.JournalCarriesTheSeed` | cmd/queuelabrun/teardown.go:87-109 | acquiring under a seed that enumerates writes a journal that decodes and gives back that seed and its deletion set |
| `Teardown.Residual` | cmd/queuelabrun/teardown.go:300-310 | exactly the sightings not proven absent, each with its verdict; empty exactly when every read succeeded and found nothing |
| `Teardown.ResidueHoldsWorker` | cmd/queuelabrun/main.go:755-762 | the worker is kept if and only if something left is not proven foreign |
| `TeardownApply.RecoverTarget` | cmd/queuelabrun/teardown_apply.go:79-126 | absent, present and foreign are told exactly as the store answered and are true of what it held at the read; a UID is recorded only for an object under this transaction's stamp |
| `TeardownApply.RecoverTargets` | cmd/queuelabrun/teardown_apply.go:79-126 | one sighting per target in order, each saying what the store answered, refused exactly for a foreign id or a seed that does not enumerate |
| `TeardownApply.ObserveTarget` | cmd/queuelabrun/teardown_apply.go:188-204 | a re-read's verdict is exactly what the store answered against the recorded UID, and true of the store at that read |
| `TeardownApply.SettlePhase` | cmd/queuelabrun/teardown_apply.go:253-319 | settled means every target of this phase and the earlier ones was read absent or foreign, and not settled that every poll was spent; other phases are untouched; no request goes back a phase |
| `TeardownApply.DeleteTargets` | cmd/queuelabrun/teardown_apply.go:327-379 | every accepted delete struck an object this transaction created; every request the store logged was for an object first answered under its stamp and last answered present, when nothing of ours was last answered in an earlier phase; requests never go back a phase; the residue is exactly the targets last answered anything but absent, each under the verdict its first and last answer come to; a target without an entry was read absent by this call; undisturbed, with nothing of ours already terminating, nothing of ours is left and the residue is what stood there under another stamp |
| `RunPhases.AmendmentsKeepTheOrigin` | cmd/queuelabrun/outcome.go:106-111 | however often an outcome is amended, it reports the last amendment, names every one, and still names what was decided first |
| `RunPhases.OrderlyMeans` | cmd/queuelabrun/main.go:947-1078 | what an orderly trace rules out: a second teardown, close, release or hold; a release of a watched worker before teardown and close; a create after teardown |
| `RunPhases.Runner.TearDownBeforeRelease` | cmd/queuelabrun/main.go:682-734 | residue is amended into the outcome, and the worker is kept exactly when teardown could not run or left something not proven foreign |
| `RunPhases.Runner.EmergencyReleaseCall` | cmd/queuelabrun/main.go:963-996 | releases if neither a release nor a hold happened, and keeps every duty and account of the run |
| `RunPhases.Runner.PublishWindowCall` | cmd/queuelabrun/main.go:1049-1054 | the window is closed before the emergency release can run |
| `RunPhases.Runner.TearDownCall` | cmd/queuelabrun/main.go:1068-1078 | teardown happens once, before the close and the release below it on the stack |
| `RunPhases.Runner.SubmitAll` | cmd/queuelabrun/main.go:1253-1288 | the schedule is decided by its first step that does not go through: cancelled, refused, or the ledger desynced |
| `RunPhases.Runner.ReadOff` | cmd/queuelabrun/main.go:1291-1358 | the window closes before any verdict, and the first failing gate names the outcome |
| `RunPhases.Runner.Conclude` | cmd/queuelabrun/main.go:1367-1419 | teardown precedes the release it allows, and a result exists exactly when nothing failed up to a proven release |
| `RunPhases.NoVerdictExactlyWhenClear` | cmd/queuelabrun/main.go:865-1358 | the body decides nothing before teardown if and only if no phase, submission or gate before it failed |
| `RunPhases.FirstFailureDecides` | cmd/queuelabrun/main.go:865-1358 | the first phase to fail decides the run: a cancellation if the failure was one, else what that phase is recorded as |
| `RunPhases.FirstFailedStepDecides` | cmd/queuelabrun/main.go:1253-1288 | the first step of the schedule that does not go through decides: cancelled, a failed submission, or a spoiled ledger |
| `RunPhases.LostLedgerDecides` | cmd/queuelabrun/main.go:1291-1358 | a lost stream or a shared worker spoils the ledger of a run that submitted everything |
| `RunPhases.Runner.Run` | cmd/queuelabrun/main.go:865-1420 | on every path: an acquired worker is released once or held, never both; a watched run is torn down and closed before any release; the hold, the result, the final disposition and the first cause are each characterised exactly |
| `Lifecycle.TearDown` | cmd/queuelabrun/main.go:682-734 | a worker kept for what was left is stamped with every entry of it, and only then; undisturbed, the note is on the Node; where only objects of this run stand and nobody interferes, nothing is left |
| `Lifecycle.NotesName` | cmd/queuelabrun/ownership_apply.go:845-888 | the note names every entry of the residue by kind, name and verdict |
| `Lifecycle.GiveBack` | cmd/queuelabrun/main.go:1378-1405 | a release that succeeds proves the whole hold: installed in this run with its tuple, held at every version from there until after the release began, ended, and over for good; it succeeds if and only if the server logged it restored, undisturbed if and only if the transaction holds the journal's Node |
| `Lifecycle.Decide` | cmd/queuelabrun/main.go:865-1420 | the run acquires, tears down and releases exactly at the points where the operations are due, and its disposition is a failed release, else what was left, else the first verdict, else success |
| `Lifecycle.CancelledExactly` | cmd/queuelabrun/outcome.go:120-125 | a failed acquisition counts as cancelled exactly when its wait was, or a request failed and the transport says so; a refusal and exhausted conflicts never do |
| `Lifecycle.RunOnCluster` | cmd/queuelabrun/main.go:865-1420 | on a shared cluster, a result means that whole hold up to the one release, a window that saw nothing but this tuple, and every object of the run read absent by its teardown; the run releases at most once, exactly when its trace says so, and is reported as not restored if and only if the server did not log that release restored; a worker it did not get is reported as the server's log has it. With nobody else at work, a free worker and no objects but its own, there is a result if and only if everything given was clear and the window clean; a worker that is not free is refused |
| `Report.RequireDeviceEvidence` | cmd/queuelabrun/main.go:347-363 | only a passed run can lose its verdict, and exactly when evidence was required and is not there |
| `Report.Classified` | cmd/queuelabrun/record.go:1155-1164 | no blank disposition survives, and passing is not changed |
| `Report.Terminal.PrintEvents` | cmd/queuelabrun/main.go:1457-1462 | every event once, in order, on one channel only |
| `Report.Terminal.ReportRun` | cmd/queuelabrun/main.go:395-498 | exit zero if and only if passed, written and readable; figures reach standard output exactly for such a run that is not a preview, events exactly for a written, readable run that is not a preview, all behind the write and the read-back; an unreadable record diverts them to standard error |
| `Report.RunAndReport` | cmd/queuelabrun/main.go:308-327 | the whole process exits zero if and only if nothing failed, the device evidence asked for is there, and the record is written and readable |
| `Collector.Collecting.Flush` | cmd/queuelabrun/collector.go:494-513 | compacting over the slots being read keeps exactly the unnamed transitions and delivers exactly the named ones, in order; a failed resolution changes nothing |
| `Collector.Collecting.HandleEvent` | cmd/queuelabrun/collector.go:469-491 | of every object exactly this event is recorded, if it is its own and a deletion, an invalid state or a transition, with its kind, state and the instant it arrived; what is delivered is delivered under the name resolved now, and nothing so named waits; a failed resolution delivers nothing |
| `Collector.Collecting.SubmitObserved` | cmd/queuelabrun/collector.go:541-547 | a submission is delivered at once, past the queue, and moves nothing else |
| `Collector.Collecting.Consume` | cmd/queuelabrun/collector.go:430-459 | for every object, the deliveries of its watches followed by what still waits grow by exactly its events that are deletions, invalid or transitions, in order, each with its own kind, state and instant; the ledger is desynced unless the caller ended the stream with no terminal status |
| `Collector.EveryTransitionOnceInOrder` | cmd/queuelabrun/collector.go:469-513 | for every sequence of calls and any resolver, an object's arrivals are its deliveries followed by its pending ones: none lost, repeated, re-stamped or overtaken |
| `Collector.NamedMeansDelivered` | cmd/queuelabrun/collector.go:494-513 | once the resolver names an object, all its arrivals are in the ledger |
| `Compare.PooledFloorNs` | cmd/queuelabrun/compare.go:268-279 | the coarsest floor, attained by a run and bounding all, exactly when every run has one and some is positive |
| `Compare.SummariseArm` | cmd/queuelabrun/compare.go:330-380 | count, mean and exact range of both quantities, waits over the restored runs only, and the pooled floor |
| `Compare.MeanWithin` | cmd/queuelabrun/compare.go:263-279 | figures each within a bound of the truth have a mean within that bound |
| `Compare.ResolvedExactly` | internal/queuelab/resolution.go:160-172 | resolved if and only if the difference exceeds the sum of the floors by a whole nanosecond |
| `Compare.ResolvedWasteIsReal` | cmd/queuelabrun/compare.go:397-413 | if every run is within its own floor of the truth, a resolved difference is a true one in the reported order |
| `Compare.ResolvedWaitIsReal` | cmd/queuelabrun/compare.go:454-502 | the same for waits, and a resolved wait means that every run of both arms restored its owner |
| `Compare.WasteFindingSays` | cmd/queuelabrun/compare.go:397-441 | the finding's figures are the arms' means and their distance; it is resolved if and only if both arms are bounded and the means are a whole nanosecond further apart than the two coarsest floors; which statement it carries, as an if-and-only-if |
| `Compare.WaitFindingSays` | cmd/queuelabrun/compare.go:454-502 | the same for waits: not computed exactly when an arm has no owner back, never resolved when it has only some |
| `Compare.FindingsArePairs` | cmd/queuelabrun/compare.go:202-208 | every pair of arms is compared on both quantities and nothing else is reported |
| `Compare.CompareRecords` | cmd/queuelabrun/compare.go:134-210 | compared if and only if at least two admissible records of one dose span two arms with one duty each; every arm summarises exactly its own records; a refusal names the first gate that fails |
| `Compare.ComparisonIsSound` | cmd/queuelabrun/compare.go:134-210 | every resolved waste finding of a comparison orders the arms as they truly are |
| `Compare.WaitComparisonIsSound` | cmd/queuelabrun/compare.go:454-502 | every resolved wait finding of a comparison orders the arms as they truly are, no survivor mean included |
| `Interleave.MoreBlocksExactlyWhenReturned` | cmd/queuelabrun/compare.go:281-291 | there are more blocks than groups if and only if some group is returned to after another |
| `Interleave.ArmsInterleaveBy` | cmd/queuelabrun/compare.go:303-327 | for distinct parseable start times, true if and only if some group ran, then another, then it again, in whatever order the runs are listed; an unparseable time answers no |
| `Evidence.SingleArm` | cmd/benchharness/main.go:812-827 | accepted if and only if all rows share one arm and one trace |
| `Evidence.SingleStudy` | cmd/benchharness/main.go:829-840 | accepted if and only if all rows share one study after normalization |
| `Evidence.TreatmentOf` | cmd/benchharness/main.go:846-866 | the rendering of the priorities that were read |
| `Evidence.PrioritiesExactly` | cmd/benchharness/main.go:846-866 | a tenant has a priority if and only if some request of it carried one |
| `Evidence.PriorityIsTheLast` | cmd/benchharness/main.go:846-866 | and it is the last one carried |
| `Evidence.FitsExactlyWhenJoins` | cmd/benchharness/main.go:976-1035 | comparing with the one recorded value per arm is comparing with every loaded file of the arm |
| `Evidence.ArmEvidence.Load` | cmd/benchharness/main.go:882-1038 | accepted if and only if every file is readable and every non-empty one is of one arm, trace and study, admitted, and joins all before it |
| `Evidence.ConsistentExactly` | cmd/benchharness/main.go:882-1038 | of the rows as given: the files load if and only if each is readable, of one arm, trace and study and admitted, and any two are of one study and, within an arm, separate replays of one trace, tolerance and treatment |
| `Evidence.ArmEvidence.ContendedArms` | cmd/benchharness/main.go:1171-1183 | covers every loaded file that is not a baseline, because the loader refused arms outside the study |
| `Evidence.CheckSums` | cmd/benchharness/main.go:1056-1076 | comparing with a group's first arm decides agreement between every two arms of the group |
| `Evidence.SentinelAccepts` | cmd/benchharness/main.go:1104-1118 | on any counts the zero sentinel accepts exactly leading zeros before equal counts, so empty recordings would pass unseen |
| `Evidence.SentinelDecides` | cmd/benchharness/main.go:1104-1118 | without empty recordings, which the loader skips, it accepts exactly equal counts |
| `Evidence.CheckRows` | cmd/benchharness/main.go:1101-1118 | with no empty recording, the zero sentinel decides agreement between every two repetitions of a group |
| `Evidence.ArmEvidence.RefuseIfTracesDisagree` | cmd/benchharness/main.go:1042-1138 | accepted if and only if every two contended files of a group share one non-empty checksum and one row count, and each baseline's files one row count |
| `Evidence.AgreementExactly` | cmd/benchharness/main.go:1042-1138 | of the rows as given: loaded files agree if and only if contended arms of one group share a non-empty checksum and a row count, and repetitions of a baseline a row count |
| `Evidence.AcceptedEvidence` | cmd/benchharness/main.go:882-1138 | what any two accepted files share, and that no two files of an arm were sent at the same instants |
| `Evidence.AcceptEvidence` | cmd/benchharness/main.go:882-1138 | the two gates together decide exactly the conditions on the rows of each file and of every two |
| `Qualify.RequiredGPU` | cmd/queuelabrun/qualify.go:209-267 | the least count that is at least one, the quota sum on the run's flavor and every row; refused exactly when nothing asks for a device |
| `Qualify.PodGPURequest` | cmd/queuelabrun/qualify.go:291-306 | the larger of the containers' sum and the largest init container |
| `Qualify.CountedAsNamed` | cmd/queuelabrun/qualify.go:269-306 | a container adds the count it names, by its request or the limit that stands for a missing one; an init container counts where it is the largest |
| `Qualify.UncountedUnlessNamed` | cmd/queuelabrun/qualify.go:269-306 | a container that names neither adds nothing |
| `Qualify.RequestedExactlyWhenAsked` | cmd/queuelabrun/qualify.go:269-306 | a Pod's request is positive if and only if some container or init container has a positive request, or no request and a positive limit |
| `Qualify.RequestedAgainstReserved` | cmd/queuelabrun/qualify.go:284-306 | the count never exceeds what is reserved, is zero exactly when that is, and is exact without restartable init containers that ask |
| `Qualify.UndercountQualifies` | cmd/queuelabrun/qualify.go:284-306 | a Node that qualifies for a run of one device with none left for it by reservation, so the verdict does change |
| `Qualify.SidecarIsUndercounted` | cmd/queuelabrun/qualify.go:284-306 | a Pod counted as one device for which two are reserved |
| `Qualify.CountedInFullExactly` | cmd/queuelabrun/qualify.go:284-306 | a Pod's count is what is reserved if and only if its restartable init containers ask for nothing, or one init container outweighs all that ever runs beside them |
| `Qualify.HeldIsReservedExactly` | cmd/queuelabrun/qualify.go:333-362 | the Node's count equals what is reserved if and only if the spec of every unfinished Pod on it meets that condition |
| `Qualify.RoomIsRealExactly` | cmd/queuelabrun/qualify.go:396-505 | a qualified Node has exactly the required room left by reservation under the same condition, and never more |
| `Qualify.GpuConsumersOn` | cmd/queuelabrun/qualify.go:333-362 | occupied plus consumers is everything requested by the unfinished Pods on the Node |
| `Qualify.OnAndOffIsEverything` | cmd/queuelabrun/qualify.go:541-561 | held on the Node plus the consumers elsewhere is everything held in the cluster |
| `Qualify.QualifyWorker` | cmd/queuelabrun/qualify.go:396-505 | no failure if and only if ready, schedulable, no competing Pod, the canary agrees, and allocatable minus all requests is exactly the requirement; every failure is reported exactly when it is due; the Node is held by others if and only if an unfinished Pod on it that is not an occupier has a container with a positive request, or none and a positive limit |
| `Qualify.SizeAndQualify` | cmd/queuelabrun/qualify.go:209-505 | qualified if and only if what is left on the Node is exactly what this run's fixtures and trace need |

## Left out

- Kubernetes client, kubeconfig, HTTP, watch transport and the JSON text of annotations and records; admission webhooks that would change a patch.
- Clocks: timestamps are arguments, and the teardown budget is a number of polls.
- Reason strings and printed sentences: outcomes are enumerated, and `amend` keeps a list of causes.
- The interval between acquisition's verification and the sentinel's first read, which the source says is not watched.
- inspectWorker and the other printing of the operator modes; the flag parsing of main.
- Refused deletes: teardown records why a delete was refused, which no verdict reads.
- The phases of a teardown are the fixed three; the source derives the same three from the targets.
- Termination canary, device preflight and device scraping: the canary is a yes or no, device use a yes or no.
- The audit's sorting of taint keys and the run record's decoder and validity derivation.
- The object cache and the trace-job resolver of the collector: the resolver's answer at each flush is arbitrary.
- Barrier polling and the comparison of fixtures already on the cluster (`cmd/queuelabrun/collector.go:568-1179`).
- The list of run ids and the start-time span of an arm, and the alphabetical order of arms in a comparison.
- Interleave.ArmsInterleaveBy: says nothing of equal start times, because the source's sort is not stable and its answer is then not determined.
- Dose sensitivity, baselines and the model check of `cmd/queuelabrun/compare.go:729-1433`.
- Floating-point rounding (figures are reals) and 64-bit overflow.
- Latency summaries, bootstrap and readings of the benchmark report; the quality of its replay hash, which is any function here.
- The registry of studies, the arm-name parsers and the rendering of a treatment: arbitrary data and functions here.
- The gateway, its admitters and scrapers, the controllers and API types, the GPU simulator, the stub server, trace generation and the plots.
