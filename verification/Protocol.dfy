/**
  The worker Node under every interleaving of the ownership operations.

  A World is the API server's view: every version the Node ever had, and the patches that have been sent
  but not answered.  A patch is computed from some version its sender read, carries only the keys that
  sender changed, and is applied only if that version is still the latest one.  Any operation may be
  prepared from any version, however old, and any patch may be delivered at any later time or never; that
  covers every number of runs, canaries and operators, every conflict, lost response and late commit.

  Assumptions, each visible in `Enabled` or `Genesis`: reads are linearizable; a transaction id is
  submitted for acquisition only while it was never installed and has no other acquisition patch in flight
  (ids are fresh, and `acquireWorker` retries only a rejected patch); other writers do not touch the
  ownership keys; a recreated Node has a new UID and carries nothing of ours; identities are well formed.
 */
module Protocol {
  import opened Common
  import opened Ownership

  // ------------------------------------------------------------ merge patches

  /** One key of a JSON merge patch: left out, or replaced wholesale. */
  datatype Change<+T> = Keep | Put(value: T)

  datatype Delta = Delta(
    workerLabel: Change<Option<string>>, taints: Change<seq<Taint>>,
    journal: Change<Raw>, quarantine: Change<Raw>, residue: Change<Raw>)

  function ChangeOf<T(==)>(base: T, edited: T): Change<T> {
    if base == edited then Keep else Put(edited)
  }

  function Merge<T>(c: Change<T>, current: T): T {
    match c case Keep => current case Put(v) => v
  }

  function DiffOf(base: Node, edited: Node): Delta {
    Delta(ChangeOf(base.workerLabel, edited.workerLabel), ChangeOf(base.taints, edited.taints),
          ChangeOf(base.journal, edited.journal), ChangeOf(base.quarantine, edited.quarantine),
          ChangeOf(base.residue, edited.residue))
  }

  function Patched(n: Node, d: Delta): Node {
    n.(workerLabel := Merge(d.workerLabel, n.workerLabel), taints := Merge(d.taints, n.taints),
       journal := Merge(d.journal, n.journal), quarantine := Merge(d.quarantine, n.quarantine),
       residue := Merge(d.residue, n.residue))
  }

  /** Applied to the very object it was computed from, the patch of an operation is the operation. */
  lemma PatchOfEdit(op: Op, n: Node)
    requires Edit(op, n).Ok?
    ensures Patched(n, DiffOf(n, Edit(op, n).value)) == Edit(op, n).value
  {
    match op
    case Acquire(id, at) =>
    case Release(txID) =>
    case Force(uid, qid, at) =>
    case Clear(qid) =>
    case Stamp(j, left, at, path) =>
  }

  // ---------------------------------------------------------------- histories

  datatype Cause = Genesis | Did(op: Op) | Unrelated | Recreated

  datatype Version = Version(node: Node, cause: Cause)

  predicate SameOwnership(a: Node, b: Node) {
    && a.name == b.name && a.uid == b.uid && a.workerLabel == b.workerLabel
    && OwnTaints(a.taints) == OwnTaints(b.taints)
    && a.journal == b.journal && a.quarantine == b.quarantine && a.residue == b.residue
  }

  predicate FreshUID(h: seq<Version>, uid: string) {
    uid != "" && forall i :: 0 <= i < |h| ==> h[i].node.uid != uid
  }

  /** One step of the simple protocol: decide and edit atomically on the current Node. */
  predicate LawfulStep(h: seq<Version>, k: nat)
    requires 0 < k < |h|
  {
    var prev, cur := h[k - 1].node, h[k].node;
    match h[k].cause
    case Genesis => false
    case Did(op) => WellFormedOp(op) && Edit(op, prev) == Ok(cur)
    case Unrelated => SameOwnership(prev, cur)
    case Recreated => Free(cur) && cur.name == prev.name && FreshUID(h[..k], cur.uid)
  }

  predicate Acquires(v: Version, txID: string) {
    v.cause.Did? && v.cause.op.Acquire? && v.cause.op.id.txID == txID
  }

  predicate InstallsOnce(h: seq<Version>) {
    forall i, k :: 0 <= i < k < |h| && h[i].cause.Did? && h[i].cause.op.Acquire?
                ==> !Acquires(h[k], h[i].cause.op.id.txID)
  }

  predicate Lawful(h: seq<Version>) {
    && |h| > 0
    && h[0].cause == Genesis && Free(h[0].node) && h[0].node.name != "" && h[0].node.uid != ""
    && (forall k :: 0 < k < |h| ==> LawfulStep(h, k))
    && InstallsOnce(h)
  }

  /** Appending one version keeps a history lawful when the new step is lawful. */
  lemma LawfulAppend(h: seq<Version>, v: Version)
    requires Lawful(h)
    requires LawfulStep(h + [v], |h|)
    requires v.cause.Did? && v.cause.op.Acquire? ==>
               forall i :: 0 <= i < |h| ==> !Acquires(h[i], v.cause.op.id.txID)
    ensures Lawful(h + [v])
  {
    var g := h + [v];
    forall k | 0 < k < |g|
      ensures LawfulStep(g, k)
    {
      if k < |h| {
        assert LawfulStep(h, k);
        assert g[..k] == h[..k];
      }
    }
    forall i, k | 0 <= i < k < |g| && g[i].cause.Did? && g[i].cause.op.Acquire?
      ensures !Acquires(g[k], g[i].cause.op.id.txID)
    {
      if k < |h| {
        assert !Acquires(h[k], h[i].cause.op.id.txID);
      } else if Acquires(v, g[i].cause.op.id.txID) {
        assert Acquires(h[i], v.cause.op.id.txID);
      }
    }
  }

  // -------------------------------------------------------------- the world

  /** A patch in flight: the version it was computed from, and what it would change. */
  datatype Patch = Patch(seen: nat, op: Op, delta: Delta)

  datatype World = World(past: seq<Version>, flight: set<Patch>)

  function Latest(w: World): nat
    requires |w.past| > 0
  {
    |w.past| - 1
  }

  function Now(w: World): Node
    requires |w.past| > 0
  {
    w.past[Latest(w)].node
  }

  predicate Installed(h: seq<Version>, txID: string) {
    exists i :: 0 <= i < |h| && Acquires(h[i], txID)
  }

  predicate AcquirePatch(p: Patch, txID: string) {
    p.op.Acquire? && p.op.id.txID == txID
  }

  predicate NoneInFlight(w: World, txID: string) {
    forall p :: p in w.flight ==> !AcquirePatch(p, txID)
  }

  predicate Initial(w: World) {
    && |w.past| == 1 && w.flight == {}
    && w.past[0].cause == Genesis
    && Free(w.past[0].node) && w.past[0].node.name != "" && w.past[0].node.uid != ""
  }

  datatype Event =
    | Submit(seen: nat, op: Op)
    | Deliver(patch: Patch)
    | Write(taints: seq<Taint>, rest: int)
    | Recreate(uid: string, freshTaints: seq<Taint>, freshRest: int)

  predicate Enabled(w: World, e: Event)
    requires |w.past| > 0
  {
    match e
    case Submit(seen, op) =>
      && seen < |w.past| && WellFormedOp(op) && Edit(op, w.past[seen].node).Ok?
      && (op.Acquire? ==> !Installed(w.past, op.id.txID) && NoneInFlight(w, op.id.txID))
    case Deliver(p) => p in w.flight
    case Write(taints, _) => OwnTaints(taints) == OwnTaints(Now(w).taints)
    case Recreate(uid, taints, _) => FreshUID(w.past, uid) && OwnTaints(taints) == []
  }

  function Prepared(w: World, seen: nat, op: Op): Patch
    requires seen < |w.past| && Edit(op, w.past[seen].node).Ok?
  {
    Patch(seen, op, DiffOf(w.past[seen].node, Edit(op, w.past[seen].node).value))
  }

  /** The API server stores a version only when the object changed. */
  function Stored(w: World, n: Node, cause: Cause): World
    requires |w.past| > 0
  {
    if n == Now(w) then w else w.(past := w.past + [Version(n, cause)])
  }

  /** One step of the world; a step that is not enabled changes nothing. */
  function Step(w: World, e: Event): (w': World)
    requires |w.past| > 0
    ensures |w'.past| > 0
  {
    if !Enabled(w, e) then w else
      match e
      case Submit(seen, op) => w.(flight := w.flight + {Prepared(w, seen, op)})
      case Deliver(p) =>
        var rest := w.(flight := w.flight - {p});
        if p.seen == Latest(w) then Stored(rest, Patched(Now(w), p.delta), Did(p.op)) else rest
      case Write(taints, payload) => Stored(w, Now(w).(taints := taints, rest := payload), Unrelated)
      case Recreate(uid, taints, payload) =>
        w.(past := w.past + [Version(Node(Now(w).name, uid, None, taints, Empty, Empty, Empty, payload), Recreated)])
  }

  /** Every finite interleaving, from first event to last. */
  function Execute(w: World, es: seq<Event>): (w': World)
    requires |w.past| > 0
    ensures |w'.past| > 0
  {
    if es == [] then w else Step(Execute(w, es[..|es| - 1]), es[|es| - 1])
  }

  /** What the server knows about a patch in flight. */
  predicate FlightSound(w: World) {
    && (forall p :: p in w.flight ==>
          && p.seen < |w.past| && WellFormedOp(p.op) && Edit(p.op, w.past[p.seen].node).Ok?
          && p.delta == DiffOf(w.past[p.seen].node, Edit(p.op, w.past[p.seen].node).value)
          && (p.op.Acquire? ==> !Installed(w.past, p.op.id.txID)))
    && (forall p, q :: p in w.flight && q in w.flight && p.op.Acquire? && AcquirePatch(q, p.op.id.txID) ==> p == q)
  }

  predicate Inv(w: World) {
    Lawful(w.past) && FlightSound(w)
  }

  predicate Extends(w: World, w': World) {
    |w.past| <= |w'.past| && w'.past[..|w.past|] == w.past
  }

  lemma InstalledGrows(h: seq<Version>, v: Version, txID: string)
    ensures Installed(h + [v], txID) <==> Installed(h, txID) || Acquires(v, txID)
  {
    var g := h + [v];
    if Installed(h, txID) {
      var i :| 0 <= i < |h| && Acquires(h[i], txID);
      assert Acquires(g[i], txID);
    }
    if Acquires(v, txID) {
      assert Acquires(g[|h|], txID);
    }
    if Installed(g, txID) {
      var i :| 0 <= i < |g| && Acquires(g[i], txID);
      assert i < |h| ==> Acquires(h[i], txID);
    }
  }

  /** Storing a lawful new version keeps the invariant when it installs nothing that is in flight. */
  lemma StoreKeepsInv(w: World, n: Node, cause: Cause)
    requires Inv(w)
    requires n != Now(w) ==> LawfulStep(w.past + [Version(n, cause)], |w.past|)
    requires cause.Did? && cause.op.Acquire? ==>
               !Installed(w.past, cause.op.id.txID) && NoneInFlight(w, cause.op.id.txID)
    ensures Inv(Stored(w, n, cause)) && Extends(w, Stored(w, n, cause))
  {
    if n != Now(w) {
      var v := Version(n, cause);
      LawfulAppend(w.past, v);
      forall p | p in w.flight && p.op.Acquire?
        ensures !Installed(w.past + [v], p.op.id.txID)
      {
        InstalledGrows(w.past, v, p.op.id.txID);
        assert AcquirePatch(p, p.op.id.txID);
      }
    }
  }

  /** A delivered patch either is stale and changes nothing, or is the atomic operation. */
  lemma DeliverKeepsInv(w: World, p: Patch)
    requires Inv(w) && p in w.flight
    ensures Inv(Step(w, Deliver(p))) && Extends(w, Step(w, Deliver(p)))
  {
    var rest := w.(flight := w.flight - {p});
    assert Inv(rest);
    if p.seen == Latest(w) {
      PatchOfEdit(p.op, Now(w));
      if p.op.Acquire? {
        forall q | q in rest.flight
          ensures !AcquirePatch(q, p.op.id.txID)
        {
          assert q in w.flight;
        }
      }
      StoreKeepsInv(rest, Patched(Now(w), p.delta), Did(p.op));
    }
  }

  lemma SubmitKeepsInv(w: World, seen: nat, op: Op)
    requires Inv(w) && Enabled(w, Submit(seen, op))
    ensures Inv(Step(w, Submit(seen, op))) && Extends(w, Step(w, Submit(seen, op)))
  {
    var p0 := Prepared(w, seen, op);
    var w' := Step(w, Submit(seen, op));
    assert w' == w.(flight := w.flight + {p0});
    forall p, q | p in w'.flight && q in w'.flight && p.op.Acquire? && AcquirePatch(q, p.op.id.txID)
      ensures p == q
    {
      assert op.Acquire? && (p == p0 || q == p0) && p.op.id.txID == op.id.txID ==> p == q;
    }
  }

  lemma RecreateKeepsInv(w: World, uid: string, taints: seq<Taint>, payload: int)
    requires Inv(w) && Enabled(w, Recreate(uid, taints, payload))
    ensures var w' := Step(w, Recreate(uid, taints, payload)); Inv(w') && Extends(w, w')
  {
    var n := Node(Now(w).name, uid, None, taints, Empty, Empty, Empty, payload);
    assert Now(w).uid != uid;
    assert (w.past + [Version(n, Recreated)])[..|w.past|] == w.past;
    StoreKeepsInv(w, n, Recreated);
  }

  lemma StepKeepsInv(w: World, e: Event)
    requires Inv(w)
    ensures Inv(Step(w, e)) && Extends(w, Step(w, e))
  {
    if Enabled(w, e) {
      match e
      case Submit(seen, op) => SubmitKeepsInv(w, seen, op);
      case Deliver(p) => DeliverKeepsInv(w, p);
      case Write(taints, payload) =>
        StoreKeepsInv(w, Now(w).(taints := taints, rest := payload), Unrelated);
      case Recreate(uid, taints, payload) => RecreateKeepsInv(w, uid, taints, payload);
    }
  }

  /**
    The refinement: whatever was read when, whatever was in flight, lost or late, the versions the Node
    went through are those of the atomic protocol, with every transaction installed at most once.
   */
  lemma {:induction false} EveryInterleavingIsLawful(w: World, es: seq<Event>)
    requires Inv(w)
    ensures Inv(Execute(w, es)) && Extends(w, Execute(w, es))
  {
    if es != [] {
      EveryInterleavingIsLawful(w, es[..|es| - 1]);
      StepKeepsInv(Execute(w, es[..|es| - 1]), es[|es| - 1]);
    }
  }

  lemma InitialIsLawful(w: World)
    requires Initial(w)
    ensures Inv(w)
  {
  }
}
