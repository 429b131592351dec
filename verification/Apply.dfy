/**
  The operations of cmd/queuelabrun/ownership_apply.go, run against an API server that is shared.

  A Cluster is that server as one process meets it.  Before every request and during every sleep the
  `script` lets anything happen: other processes' reads, patches, commits and lost responses, unrelated
  writes, a recreated Node, and the late commit of this process's own lost patch.  The script is an
  arbitrary value, so a contract here holds against every such environment.
 */
module Apply {
  import opened Common
  import opened Ownership
  import opened Protocol
  import opened History

  const ACQUIRE_ATTEMPTS := 5
  const RESOLVE_ATTEMPTS := 6
  const VERIFY_ATTEMPTS := 3

  /** What the transport does to one request. */
  datatype Fault = NoFault | NeverSent | ResponseLost | LeftInFlight

  datatype Turn = Turn(env: seq<Event>, fault: Fault, cancelled: bool)

  datatype Read = Read(node: Node, version: nat)

  datatype Reply = Accepted | Conflict | Unknown

  /** A log that has only grown. */
  predicate Grows<T(==)>(before: seq<T>, after: seq<T>) {
    |before| <= |after| && after[..|before|] == before
  }

  lemma GrowsTrans<T>(a: seq<T>, b: seq<T>, c: seq<T>)
    requires Grows(a, b) && Grows(b, c)
    ensures Grows(a, c)
  {
    assert c[..|a|] == c[..|b|][..|a|];
  }

  /** The last read of a log, None when it failed. */
  function LastRead(log: seq<Option<nat>>): Option<nat> {
    if log == [] then None else log[|log| - 1]
  }

  /** The last answer of a log, nothing sent counting as nothing done. */
  function LastReply(replies: seq<Reply>): Reply {
    if replies == [] then Conflict else replies[|replies| - 1]
  }

  /** Whatever this transaction installed or may still install is the journal `j`. */
  ghost predicate OnlyWrites(w: World, txID: string, j: Journal) {
    && (forall i :: 0 <= i < |w.past| && Acquires(w.past[i], txID) ==> w.past[i].node.journal == JournalText(j))
    && (forall p :: p in w.flight && AcquirePatch(p, txID) ==>
          && p.seen < |w.past| && Edit(p.op, w.past[p.seen].node).Ok?
          && Edit(p.op, w.past[p.seen].node).value.journal == JournalText(j))
  }

  lemma OnlyWritesStep(w: World, e: Event, txID: string, j: Journal)
    requires Inv(w) && OnlyWrites(w, txID, j) && !SubmitsAcquire(e, txID)
    ensures OnlyWrites(Step(w, e), txID, j)
  {
    StepKeepsInv(w, e);
    var w' := Step(w, e);
    if |w'.past| > |w.past| && Acquires(w'.past[|w.past|], txID) {
      assert e.Deliver? && AcquirePatch(e.patch, txID);
      PatchOfEdit(e.patch.op, Now(w));
    }
  }

  /** What a stretch in which this process submitted no acquisition can have done. */
  ghost predicate Meanwhile(w: World, w': World, txID: string)
    requires |w.past| > 0 && |w'.past| > 0
  {
    && Extends(w, w')
    && (forall p :: p in w'.flight && AcquirePatch(p, txID) ==> p in w.flight)
    && (NoneInFlight(w, txID) && Installed(w'.past, txID) ==> Installed(w.past, txID))
    && (Over(w, txID) ==> Over(w', txID))
    && (forall j :: OnlyWrites(w, txID, j) ==> OnlyWrites(w', txID, j))
  }

  lemma FlightStep(w: World, e: Event, txID: string)
    requires Inv(w) && !SubmitsAcquire(e, txID)
    ensures forall p :: p in Step(w, e).flight && AcquirePatch(p, txID) ==> p in w.flight
    ensures NoneInFlight(w, txID) && Installed(Step(w, e).past, txID) ==> Installed(w.past, txID)
  {
    var w' := Step(w, e);
    if w'.past != w.past {
      InstalledGrows(w.past, w'.past[|w.past|], txID);
    }
  }

  lemma MeanwhileStep(w0: World, w: World, e: Event, txID: string)
    requires Inv(w0) && Inv(w) && Meanwhile(w0, w, txID) && !SubmitsAcquire(e, txID)
    ensures Inv(Step(w, e)) && Meanwhile(w0, Step(w, e), txID)
  {
    StepKeepsInv(w, e);
    FlightStep(w, e, txID);
    if Over(w, txID) {
      OverStays(w, e, txID);
    }
    forall j | OnlyWrites(w, txID, j)
      ensures OnlyWrites(Step(w, e), txID, j)
    {
      OnlyWritesStep(w, e, txID, j);
    }
  }

  lemma ExtendsTrans(w0: World, w1: World, w2: World)
    requires Extends(w0, w1) && Extends(w1, w2)
    ensures Extends(w0, w2)
    ensures forall i :: 0 <= i < |w0.past| ==> w2.past[i] == w0.past[i]
  {
    forall i | 0 <= i < |w0.past|
      ensures w2.past[i] == w0.past[i]
    {
      assert w1.past[..|w0.past|][i] == w0.past[i];
      assert w2.past[..|w1.past|][i] == w1.past[i];
    }
    assert w2.past[..|w0.past|] == w0.past;
  }

  lemma MeanwhileTrans(w0: World, w1: World, w2: World, txID: string)
    requires |w0.past| > 0 && |w1.past| > 0 && |w2.past| > 0
    requires Meanwhile(w0, w1, txID) && Meanwhile(w1, w2, txID)
    ensures Meanwhile(w0, w2, txID)
    ensures forall i :: 0 <= i < |w1.past| ==> w2.past[i] == w1.past[i]
  {
    ExtendsTrans(w0, w1, w2);
    ExtendsTrans(w1, w2, w2);
  }

  predicate Sendable(w: World, seen: nat, op: Op, txID: string) {
    && seen < |w.past| && WellFormedOp(op) && Edit(op, w.past[seen].node).Ok?
    && (op.Acquire? ==> op.id.txID == txID && !Installed(w.past, txID) && NoneInFlight(w, txID))
  }

  /** The journal an acquisition prepared from this version would write. */
  function JournalOf(w: World, seen: nat, op: Op): Journal
    requires seen < |w.past| && op.Acquire? && Edit(op, w.past[seen].node).Ok?
  {
    Edit(op, w.past[seen].node).value.journal.journal
  }

  lemma SubmittedKeeps(w: World, seen: nat, op: Op, txID: string)
    requires Inv(w) && Sendable(w, seen, op, txID)
    ensures Enabled(w, Submit(seen, op))
    ensures Inv(Step(w, Submit(seen, op))) && Extends(w, Step(w, Submit(seen, op)))
    ensures !op.Acquire? ==> Meanwhile(w, Step(w, Submit(seen, op)), txID)
    ensures op.Acquire? ==> OnlyWrites(Step(w, Submit(seen, op)), txID, JournalOf(w, seen, op))
  {
    if op.Acquire? {
      StepKeepsInv(w, Submit(seen, op));
      assert forall i :: 0 <= i < |w.past| ==> !Acquires(w.past[i], txID);
    } else {
      MeanwhileStep(w, w, Submit(seen, op), txID);
    }
  }

  /** A patch that reaches the server is the operation on the version it was computed from, or nothing. */
  lemma DeliveredKeeps(w: World, seen: nat, op: Op, txID: string)
    requires Inv(w) && Sendable(w, seen, op, txID)
    ensures var w' := Step(Step(w, Submit(seen, op)), Deliver(Prepared(w, seen, op)));
            && Inv(w') && Extends(w, w')
            && (!op.Acquire? ==> Meanwhile(w, w', txID))
            && (op.Acquire? ==> OnlyWrites(w', txID, JournalOf(w, seen, op)))
            && (seen == Latest(w) ==> w'.past == Stored(w, Edit(op, Now(w)).value, Did(op)).past)
            && (seen != Latest(w) ==> w'.past == w.past && forall q :: q in w'.flight ==> q in w.flight)
  {
    var mid, p := Step(w, Submit(seen, op)), Prepared(w, seen, op);
    SubmittedKeeps(w, seen, op, txID);
    if op.Acquire? {
      StepKeepsInv(mid, Deliver(p));
      OnlyWritesStep(mid, Deliver(p), txID, JournalOf(w, seen, op));
    } else {
      MeanwhileStep(w, mid, Deliver(p), txID);
    }
    DeliveredPast(w, seen, op, txID);
  }

  lemma DeliveredPast(w: World, seen: nat, op: Op, txID: string)
    requires Inv(w) && Sendable(w, seen, op, txID)
    ensures var w' := Step(Step(w, Submit(seen, op)), Deliver(Prepared(w, seen, op)));
            && (seen == Latest(w) ==> w'.past == Stored(w, Edit(op, Now(w)).value, Did(op)).past)
            && (seen != Latest(w) ==> w'.past == w.past && forall q :: q in w'.flight ==> q in w.flight)
  {
    PatchOfEdit(op, w.past[seen].node);
  }

  /** The latest version is now this operation on the one that was the latest before. */
  ghost predicate Applied(w: World, w': World, op: Op)
    requires |w.past| > 0 && |w'.past| > 0 && Edit(op, Now(w)).Ok?
  {
    var n := Edit(op, Now(w)).value;
    && Now(w') == n
    && (n != Now(w) ==> Latest(w') == Latest(w) + 1 && w'.past[Latest(w')].cause == Did(op))
    && (op.Acquire? ==> Acquires(w'.past[Latest(w')], op.id.txID))
  }

  lemma StoredIsApplied(w: World, w': World, op: Op)
    requires |w.past| > 0 && |w'.past| > 0 && Edit(op, Now(w)).Ok?
    requires w'.past == Stored(w, Edit(op, Now(w)).value, Did(op)).past
    ensures Applied(w, w', op)
  {
    if op.Acquire? {
      AcquireExactlyWhenUnowned(Now(w), op.id, op.takenAt);
      AcquisitionWrites(Now(w), op.id, op.takenAt);
    }
  }

  class Cluster {
    var world: World
    var script: seq<Turn>
    /** The transaction id drawn by the process under study; nobody else draws it. */
    const mine: string
    /** Every read this process made, in order: None for a failed one, else the version it met. */
    ghost var log: seq<Option<nat>>
    /** The answer to every patch it sent, in order; Unknown for a lost one. */
    ghost var replies: seq<Reply>
    /** Every wait between attempts, in order: whether it was cancelled. */
    ghost var waits: seq<bool>
    /** Every release of its own worker this process attempted: the latest version when it began. */
    ghost var releases: seq<nat>

    ghost predicate Valid()
      reads this
    {
      |world.past| > 0 && Inv(world)
    }

    constructor (world: World, script: seq<Turn>, mine: string)
      requires |world.past| > 0 && Inv(world)
      ensures Valid() && this.world == world && this.script == script && this.mine == mine
      ensures log == [] && replies == [] && waits == [] && releases == []
    {
      this.world := world;
      this.script := script;
      this.mine := mine;
      log, replies, waits, releases := [], [], [], [];
    }

    /** Nothing more happens: no other process, no fault, no cancellation. */
    ghost predicate Quiet(w: World)
      reads this
    {
      script == [] && world == w
    }

    /** Everything that happens while this process is not looking. */
    method Elapse() returns (turn: Turn)
      requires Valid()
      modifies this`world, this`script
      ensures Valid() && Meanwhile(old(world), world, mine)
      ensures old(script) == [] ==> Quiet(old(world)) && turn == Turn([], NoFault, false)
    {
      turn := Turn([], NoFault, false);
      if script != [] {
        turn, script := script[0], script[1..];
        Play(turn.env);
      }
    }

    /** Other processes' events, one by one; nobody else draws this transaction's id. */
    method Play(env: seq<Event>)
      requires Valid()
      modifies this`world
      ensures Valid() && Meanwhile(old(world), world, mine)
    {
      for i := 0 to |env|
        invariant Valid() && Meanwhile(old(world), world, mine)
      {
        if !SubmitsAcquire(env[i], mine) {
          MeanwhileStep(old(world), world, env[i], mine);
          world := Step(world, env[i]);
        }
      }
    }

    /** `c.Get`: the latest version, or a failed read. */
    method Get() returns (r: Option<Read>)
      requires Valid()
      modifies this`world, this`script, this`log
      ensures Valid() && Meanwhile(old(world), world, mine)
      ensures r.Some? ==> r.value == Read(Now(world), Latest(world))
      ensures log == old(log) + [if r.Some? then Some(Latest(world)) else None]
      ensures old(script) == [] ==> Quiet(old(world)) && r.Some?
    {
      var turn := Elapse();
      r := if turn.fault == NoFault then Some(Read(Now(world), Latest(world))) else None;
      log := log + [if r.Some? then Some(Latest(world)) else None];
    }

    /** The wait between attempts; true when the context was cancelled in it. */
    method Sleep() returns (cancelled: bool)
      requires Valid()
      modifies this`world, this`script, this`waits
      ensures Valid() && Meanwhile(old(world), world, mine)
      ensures waits == old(waits) + [cancelled]
      ensures old(script) == [] ==> Quiet(old(world)) && !cancelled
    {
      var turn := Elapse();
      cancelled := turn.cancelled;
      waits := waits + [cancelled];
    }

    /**
      `c.Patch` with the optimistic lock.  An accepted patch was applied to the very version it was computed
      from; a conflict means it was not applied and never will be; any other error says nothing.
     */
    method Send(seen: nat, op: Op) returns (r: Reply)
      requires Valid() && Sendable(world, seen, op, mine)
      modifies this`world, this`script, this`replies
      ensures Valid() && Extends(old(world), world) && replies == old(replies) + [r]
      ensures !op.Acquire? ==> Meanwhile(old(world), world, mine)
      ensures r == Accepted ==> Now(world) == Edit(op, old(world).past[seen].node).value
      ensures r == Accepted && Edit(op, old(world).past[seen].node).value != old(world).past[seen].node ==>
                && Latest(world) == seen + 1 && world.past[Latest(world)].cause == Did(op)
      ensures op.Acquire? ==> OnlyWrites(world, mine, JournalOf(old(world), seen, op))
      ensures op.Acquire? && r == Accepted ==> Acquires(world.past[Latest(world)], mine)
      ensures op.Acquire? && r == Conflict ==> !Installed(world.past, mine) && NoneInFlight(world, mine)
      ensures old(script) == [] ==> script == [] && (seen == Latest(old(world)) ==> r == Accepted)
    {
      var turn := Elapse();
      ghost var mid := world;
      assert mid.past[seen] == old(world).past[seen];
      r := Transmit(seen, op, turn.fault);
      replies := replies + [r];
      ExtendsTrans(old(world), mid, world);
      if !op.Acquire? {
        MeanwhileTrans(old(world), mid, world, mine);
      }
    }

    /** The request as it meets the server: lost on the way, left in flight, or delivered at once. */
    method Transmit(seen: nat, op: Op, fault: Fault) returns (r: Reply)
      requires Valid() && Sendable(world, seen, op, mine)
      modifies this`world
      ensures Valid() && Extends(old(world), world)
      ensures !op.Acquire? ==> Meanwhile(old(world), world, mine)
      ensures op.Acquire? ==> OnlyWrites(world, mine, JournalOf(old(world), seen, op))
      ensures r == Accepted ==> seen == Latest(old(world)) && Applied(old(world), world, op)
      ensures r == Conflict ==> world.past == old(world).past && world.flight <= old(world).flight
      ensures fault == NoFault && seen == Latest(old(world)) ==> r == Accepted
    {
      r := Unknown;
      if fault == NeverSent {
        SubmittedKeeps(world, seen, op, mine);
      } else if fault == LeftInFlight {
        SubmittedKeeps(world, seen, op, mine);
        world := Step(world, Submit(seen, op));
      } else {
        DeliveredKeeps(world, seen, op, mine);
        if fault == NoFault {
          r := if seen == Latest(world) then Accepted else Conflict;
        }
        ghost var before := world;
        world := Step(Step(world, Submit(seen, op)), Deliver(Prepared(world, seen, op)));
        if seen == Latest(before) {
          StoredIsApplied(before, world, op);
        }
      }
    }
  }
}
