/**
  The collector's pending queue from cmd/queuelabrun/collector.go: transitions wait, in a slice compacted in
  place, until the resolver can name the trace job they belong to.
 */
module Collector {
  import opened Common

  type Uid = string
  type Names = map<Uid, string>

  datatype Kind = TrainingJob | Job | Workload | Pod

  /** What the classifier made of an object; `event` is empty when it marks no transition. */
  datatype State = State(event: string, invalid: bool)

  datatype Pending = Pending(kind: Kind, uid: Uid, deleted: bool, state: State, elapsed: nat)

  /** One call on the ledger: `direct` for a submission recorded from its create response, not from a watch. */
  datatype Delivery = Delivery(what: Pending, name: string, direct: bool)

  // ------------------------------------------------------------ specification

  datatype Queue = Queue(pending: seq<Pending>, ledger: seq<Delivery>)

  /** What one call brings: a transition or nothing, and the resolver's answer, `None` when it fails. */
  datatype Call =
    | Handle(arrival: Option<Pending>, names: Option<Names>)
    | Submit(what: Pending, name: string)

  function Kept(ps: seq<Pending>, names: Names): seq<Pending> {
    if ps == [] then []
    else
      var rest, last := Kept(ps[..|ps| - 1], names), ps[|ps| - 1];
      if last.uid in names then rest else rest + [last]
  }

  function Named(ps: seq<Pending>, names: Names): seq<Delivery> {
    if ps == [] then []
    else
      var rest, last := Named(ps[..|ps| - 1], names), ps[|ps| - 1];
      if last.uid in names then rest + [Delivery(last, names[last.uid], false)] else rest
  }

  lemma FlushOneMore(ps: seq<Pending>, i: nat, names: Names)
    requires i < |ps|
    ensures Kept(ps[..i + 1], names) == Kept(ps[..i], names) + (if ps[i].uid in names then [] else [ps[i]])
    ensures Named(ps[..i + 1], names)
            == Named(ps[..i], names) + (if ps[i].uid in names then [Delivery(ps[i], names[ps[i].uid], false)] else [])
  {
    assert ps[..i + 1][..i] == ps[..i];
  }

  function Flushed(q: Queue, names: Option<Names>): Queue {
    match names
    case None => q
    case Some(n) => Queue(Kept(q.pending, n), q.ledger + Named(q.pending, n))
  }

  function Arrived(q: Queue, arrival: Option<Pending>): Queue {
    match arrival
    case None => q
    case Some(p) => q.(pending := q.pending + [p])
  }

  function Step(q: Queue, c: Call): Queue {
    match c
    case Handle(arrival, names) => Flushed(Arrived(q, arrival), names)
    case Submit(what, name) => q.(ledger := q.ledger + [Delivery(what, name, true)])
  }

  const EMPTY := Queue([], [])

  function After(calls: seq<Call>): Queue {
    if calls == [] then EMPTY else Step(After(calls[..|calls| - 1]), calls[|calls| - 1])
  }

  // -------------------------------------------------------------- exactly once

  /** The transitions of one object, in order. */
  function Of(ps: seq<Pending>, u: Uid): seq<Pending> {
    if ps == [] then []
    else
      var rest, last := Of(ps[..|ps| - 1], u), ps[|ps| - 1];
      if last.uid == u then rest + [last] else rest
  }

  /** What the ledger was given, by watches or directly, without the names. */
  function Given(ds: seq<Delivery>, direct: bool): seq<Pending> {
    if ds == [] then []
    else
      var rest, last := Given(ds[..|ds| - 1], direct), ds[|ds| - 1];
      if last.direct == direct then rest + [last.what] else rest
  }

  function Arrivals(calls: seq<Call>): seq<Pending> {
    if calls == [] then []
    else
      var rest, last := Arrivals(calls[..|calls| - 1]), calls[|calls| - 1];
      rest + ArrivalIn(last)
  }

  function Submissions(calls: seq<Call>): seq<Pending> {
    if calls == [] then []
    else
      var rest, last := Submissions(calls[..|calls| - 1]), calls[|calls| - 1];
      rest + SubmissionIn(last)
  }

  lemma {:induction false} OfConcat(a: seq<Pending>, b: seq<Pending>, u: Uid)
    ensures Of(a + b, u) == Of(a, u) + Of(b, u)
  {
    if b == [] {
      assert a + b == a;
    } else {
      OfConcat(a, b[..|b| - 1], u);
      assert (a + b)[..|a + b| - 1] == a + b[..|b| - 1];
    }
  }

  lemma {:induction false} GivenConcat(a: seq<Delivery>, b: seq<Delivery>, direct: bool)
    ensures Given(a + b, direct) == Given(a, direct) + Given(b, direct)
  {
    if b == [] {
      assert a + b == a;
    } else {
      GivenConcat(a, b[..|b| - 1], direct);
      assert (a + b)[..|a + b| - 1] == a + b[..|b| - 1];
    }
  }

  lemma OfLast(ps: seq<Pending>, p: Pending, u: Uid)
    ensures Of(ps + [p], u) == Of(ps, u) + (if p.uid == u then [p] else [])
  {
    assert (ps + [p])[..|ps|] == ps;
  }

  lemma GivenLast(ds: seq<Delivery>, d: Delivery)
    ensures Given(ds + [d], d.direct) == Given(ds, d.direct) + [d.what]
    ensures Given(ds + [d], !d.direct) == Given(ds, !d.direct)
  {
    assert (ds + [d])[..|ds|] == ds;
  }

  /** A flush moves an object's transitions all together or not at all. */
  lemma {:induction false} FlushMovesWhole(ps: seq<Pending>, names: Names, u: Uid)
    ensures Of(Kept(ps, names), u) == if u in names then [] else Of(ps, u)
    ensures Of(Given(Named(ps, names), false), u) == if u in names then Of(ps, u) else []
    ensures Given(Named(ps, names), true) == []
  {
    if ps != [] {
      var rest, last := ps[..|ps| - 1], ps[|ps| - 1];
      FlushMovesWhole(rest, names, u);
      if last.uid in names {
        GivenLast(Named(rest, names), Delivery(last, names[last.uid], false));
        OfLast(Given(Named(rest, names), false), last, u);
      } else {
        OfLast(Kept(rest, names), last, u);
      }
    }
  }

  lemma FlushConserves(q: Queue, names: Option<Names>, u: Uid)
    ensures var r := Flushed(q, names);
            && Of(Given(r.ledger, false), u) + Of(r.pending, u) == Of(Given(q.ledger, false), u) + Of(q.pending, u)
            && Given(r.ledger, true) == Given(q.ledger, true)
  {
    if names.Some? {
      var n := names.value;
      FlushMovesWhole(q.pending, n, u);
      GivenConcat(q.ledger, Named(q.pending, n), false);
      GivenConcat(q.ledger, Named(q.pending, n), true);
      OfConcat(Given(q.ledger, false), Given(Named(q.pending, n), false), u);
    }
  }

  /** What one call brings, at most one transition or one submission. */
  function ArrivalIn(c: Call): seq<Pending> {
    if c.Handle? && c.arrival.Some? then [c.arrival.value] else []
  }

  function SubmissionIn(c: Call): seq<Pending> {
    if c.Submit? then [c.what] else []
  }

  lemma ArrivalWaits(q: Queue, arrival: Option<Pending>, u: Uid)
    ensures var r := Arrived(q, arrival);
            && r.ledger == q.ledger
            && Of(Given(r.ledger, false), u) + Of(r.pending, u)
               == Of(Given(q.ledger, false), u) + Of(q.pending, u) + Of(ArrivalIn(Handle(arrival, None)), u)
  {
    if arrival.Some? {
      OfConcat(q.pending, [arrival.value], u);
    }
  }

  lemma StepConserves(q: Queue, c: Call, u: Uid)
    ensures var r := Step(q, c);
            && Of(Given(r.ledger, false), u) + Of(r.pending, u)
               == Of(Given(q.ledger, false), u) + Of(q.pending, u) + Of(ArrivalIn(c), u)
            && Given(r.ledger, true) == Given(q.ledger, true) + SubmissionIn(c)
  {
    match c
    case Handle(arrival, names) =>
      FlushConserves(Arrived(q, arrival), names, u);
      ArrivalWaits(q, arrival, u);
    case Submit(what, name) =>
      GivenLast(q.ledger, Delivery(what, name, true));
  }

  /**
    Over every sequence of calls and any behaviour of the resolver: an object's transitions are, in order of
    arrival and with their original instants, first those the ledger was given and then those still pending.
    None is lost, repeated, re-stamped or overtaken. Direct submissions are given exactly once as well.
   */
  lemma {:induction false} EveryTransitionOnceInOrder(calls: seq<Call>, u: Uid)
    ensures Of(Given(After(calls).ledger, false), u) + Of(After(calls).pending, u) == Of(Arrivals(calls), u)
    ensures Given(After(calls).ledger, true) == Submissions(calls)
  {
    if calls != [] {
      var rest, last := calls[..|calls| - 1], calls[|calls| - 1];
      EveryTransitionOnceInOrder(rest, u);
      StepConserves(After(rest), last, u);
      OfConcat(Arrivals(rest), ArrivalIn(last), u);
    }
  }

  /** An object the last answer names has nothing left waiting: all its arrivals are in the ledger. */
  lemma NamedMeansDelivered(calls: seq<Call>, c: Call, u: Uid)
    requires c.Handle? && c.names.Some? && u in c.names.value
    ensures Of(Given(After(calls + [c]).ledger, false), u) == Of(Arrivals(calls + [c]), u)
  {
    var all := calls + [c];
    EveryTransitionOnceInOrder(all, u);
    assert all[..|all| - 1] == calls;
    FlushMovesWhole(Arrived(After(calls), c.arrival).pending, c.names.value, u);
  }

  // -------------------------------------------------------------- the collector

  datatype Ending = Ending(lastStatus: bool, cancelled: bool, stopped: bool)

  /** The endings a stream may have: only those its caller caused, and never with a terminal status. */
  predicate Orderly(e: Ending) {
    !e.lastStatus && (e.cancelled || e.stopped)
  }

  datatype StreamEvent =
    | Error
    | NotAnObject
    | Object(kind: Kind, uid: Uid, deleted: bool, state: State, now: nat, names: Option<Names>)

  function ArrivalOf(e: StreamEvent): Option<Pending>
    requires e.Object?
  {
    if e.state.event != "" || e.state.invalid || e.deleted
    then Some(Pending(e.kind, e.uid, e.deleted, e.state, e.now)) else None
  }

  function CallsOf(events: seq<StreamEvent>): seq<Call> {
    if events == [] then []
    else
      var rest, last := CallsOf(events[..|events| - 1]), events[|events| - 1];
      if last.Object? then rest + [Handle(ArrivalOf(last), last.names)] else rest
  }

  // ------------------------------------------------------------ the events themselves

  /** The event is a transition of the object: its end, an invalid state, or a state that marks one. */
  predicate Concerns(e: StreamEvent, u: Uid) {
    e.Object? && e.uid == u && (e.deleted || e.state.invalid || e.state.event != "")
  }

  /** The events that are transitions of the object, in order. */
  function Transitions(events: seq<StreamEvent>, u: Uid): seq<StreamEvent> {
    if events == [] then []
    else
      var rest, last := Transitions(events[..|events| - 1], u), events[|events| - 1];
      if Concerns(last, u) then rest + [last] else rest
  }

  /** What is recorded is what the event said, at the instant it arrived. */
  predicate Records(p: Pending, e: StreamEvent) {
    && e.Object? && p.kind == e.kind && p.uid == e.uid && p.deleted == e.deleted
    && p.state == e.state && p.elapsed == e.now
  }

  /** Of one object, exactly these events have been recorded since, in this order. */
  ghost predicate Follows(before: seq<Pending>, after: seq<Pending>, events: seq<StreamEvent>) {
    && |after| == |before| + |events| && after[..|before|] == before
    && forall i :: 0 <= i < |events| ==> Records(after[|before| + i], events[i])
  }

  lemma FollowsTrans(a: seq<Pending>, b: seq<Pending>, c: seq<Pending>, es: seq<StreamEvent>, fs: seq<StreamEvent>)
    requires Follows(a, b, es) && Follows(b, c, fs)
    ensures Follows(a, c, es + fs)
  {
    assert c[..|a|] == c[..|b|][..|a|];
    forall i | 0 <= i < |es + fs| ensures Records(c[|a| + i], (es + fs)[i]) {
      if i < |es| {
        assert c[|a| + i] == c[..|b|][|a| + i];
      } else {
        assert Records(c[|b| + (i - |es|)], fs[i - |es|]);
      }
    }
  }

  lemma ArrivalFollows(q: Queue, e: StreamEvent, u: Uid)
    requires e.Object?
    ensures Follows(WatchedOf(q, u), WatchedOf(Step(q, Handle(ArrivalOf(e), e.names)), u), Transitions([e], u))
  {
    StepConserves(q, Handle(ArrivalOf(e), e.names), u);
    ArrivalRecords(e, u);
    FollowsBy(WatchedOf(q, u), Of(ArrivalIn(Handle(ArrivalOf(e), e.names)), u), Transitions([e], u));
  }

  lemma FollowsBy(before: seq<Pending>, added: seq<Pending>, events: seq<StreamEvent>)
    requires |added| == |events| && forall i :: 0 <= i < |events| ==> Records(added[i], events[i])
    ensures Follows(before, before + added, events)
  {
  }

  lemma ArrivalRecords(e: StreamEvent, u: Uid)
    requires e.Object?
    ensures var added := Of(ArrivalIn(Handle(ArrivalOf(e), e.names)), u);
            && |added| == |Transitions([e], u)|
            && forall i :: 0 <= i < |added| ==> Records(added[i], Transitions([e], u)[i])
  {
    assert [e][..0] == [];
    assert Transitions([e], u) == if Concerns(e, u) then [e] else [];
    if ArrivalOf(e).Some? {
      OfLast([], ArrivalOf(e).value, u);
      assert [] + [ArrivalOf(e).value] == [ArrivalOf(e).value];
    }
  }

  lemma OneEventMore(events: seq<StreamEvent>, i: nat, u: Uid)
    requires i < |events|
    ensures Transitions(events[..i + 1], u) == Transitions(events[..i], u) + Transitions([events[i]], u)
  {
    assert events[..i + 1][..i] == events[..i];
    assert [events[i]][..0] == [];
  }

  /** Of one object, what the ledger was given by watches and then what still waits. */
  function WatchedOf(q: Queue, u: Uid): seq<Pending> {
    Of(Given(q.ledger, false), u) + Of(q.pending, u)
  }

  /** A flush delivers each object under the name its resolver gave, and leaves none it names waiting. */
  lemma {:induction false} FlushNames(ps: seq<Pending>, names: Names)
    ensures forall d <- Named(ps, names) :: !d.direct && d.what.uid in names && d.name == names[d.what.uid]
    ensures forall p <- Kept(ps, names) :: p.uid !in names
  {
    if ps != [] {
      FlushNames(ps[..|ps| - 1], names);
    }
  }

  /**
    What handling one event does: it records the event with its own object if it is a transition and with
    nobody else, touches no direct submission, delivers nothing when resolution failed, and otherwise delivers
    under the names resolved now and leaves none of those waiting.
   */
  ghost predicate Handled(q: Queue, r: Queue, e: StreamEvent) {
    && (forall u :: Follows(WatchedOf(q, u), WatchedOf(r, u), Transitions([e], u)))
    && Given(r.ledger, true) == Given(q.ledger, true)
    && e.Object? && DeliveredBy(q.ledger, r.ledger, e.names)
    && (e.names.Some? ==> forall p <- r.pending :: p.uid !in e.names.value)
  }

  /** Deliveries are only added, each under its resolved name. */
  predicate DeliveredBy(before: seq<Delivery>, after: seq<Delivery>, names: Option<Names>) {
    && |before| <= |after| && after[..|before|] == before
    && (forall d <- after[|before|..] :: names.Some? && d.what.uid in names.value && d.name == names.value[d.what.uid])
  }

  lemma HandlingDelivers(q: Queue, e: StreamEvent)
    requires e.Object?
    ensures var r := Step(q, Handle(ArrivalOf(e), e.names));
            && DeliveredBy(q.ledger, r.ledger, e.names)
            && (e.names.Some? ==> forall p <- r.pending :: p.uid !in e.names.value)
  {
    if e.names.Some? {
      var ps := Arrived(q, ArrivalOf(e)).pending;
      FlushNames(ps, e.names.value);
      assert (q.ledger + Named(ps, e.names.value))[|q.ledger|..] == Named(ps, e.names.value);
    }
  }

  lemma HandlingMeans(q: Queue, e: StreamEvent)
    requires e.Object?
    ensures Handled(q, Step(q, Handle(ArrivalOf(e), e.names)), e)
  {
    var call := Handle(ArrivalOf(e), e.names);
    forall u ensures Follows(WatchedOf(q, u), WatchedOf(Step(q, call), u), Transitions([e], u)) {
      ArrivalFollows(q, e, u);
    }
    StepConserves(q, call, "");
    HandlingDelivers(q, e);
  }

  class Collecting {
    var slots: array<Pending>
    var count: nat
    var ledger: seq<Delivery>
    var desynced: bool
    ghost var calls: seq<Call>

    ghost predicate Valid()
      reads this, slots
    {
      count <= slots.Length && Queue(slots[..count], ledger) == After(calls)
    }

    constructor ()
      ensures Valid() && fresh(slots) && calls == [] && !desynced
    {
      slots := new Pending[0];
      count, ledger, desynced, calls := 0, [], false, [];
    }

    /** Of one object, what the ledger was given by watches and then what still waits. */
    ghost function Watched(u: Uid): seq<Pending>
      reads this, slots
      requires Valid()
    {
      WatchedOf(Queue(slots[..count], ledger), u)
    }

    /** Appending writes the next free slot, or moves everything to a larger array. */
    method Append(p: Pending)
      requires count <= slots.Length
      modifies this`slots, this`count, slots
      ensures count == old(count) + 1 <= slots.Length && (slots == old(slots) || fresh(slots))
      ensures slots[..count] == old(slots[..count]) + [p]
    {
      var n, a := count, slots;
      if n == a.Length {
        var larger := new Pending[2 * n + 1](_ => p);
        for i := 0 to n
          invariant larger[..i] == a[..i] && a[..] == old(slots[..]) && slots == a && count == n
        {
          larger[i] := a[i];
        }
        slots := larger;
      }
      slots[n] := p;
      count := n + 1;
    }

    /**
      `flush`: one pass that reads ahead of where it writes, over the very slots it is reading. A failed
      resolution leaves everything pending.
     */
    method Flush(names: Option<Names>)
      requires count <= slots.Length
      modifies this`count, this`ledger, slots
      ensures count <= slots.Length
      ensures Queue(slots[..count], ledger) == Flushed(Queue(old(slots[..count]), old(ledger)), names)
    {
      if names.None? {
        return;
      }
      var a, total, known := slots, count, names.value;
      ghost var was := a[..total];
      var kept := 0;
      for i := 0 to total
        invariant kept <= i && slots == a
        invariant forall k :: i <= k < total ==> a[k] == was[k]
        invariant a[..kept] == Kept(was[..i], known)
        invariant ledger == old(ledger) + Named(was[..i], known)
      {
        var pe := a[i];
        FlushOneMore(was, i, known);
        if pe.uid in known {
          ledger := ledger + [Delivery(pe, known[pe.uid], false)];
        } else {
          a[kept] := pe;
          kept := kept + 1;
        }
      }
      assert was[..total] == was;
      count := kept;
    }

    /** `handle`: the transition queues behind those already waiting, then the whole queue is retried. */
    method HandleEvent(e: StreamEvent)
      requires Valid() && e.Object?
      modifies this, slots
      ensures Valid() && (slots == old(slots) || fresh(slots)) && desynced == old(desynced)
      ensures calls == old(calls) + [Handle(ArrivalOf(e), e.names)]
      ensures Handled(Queue(old(slots[..count]), old(ledger)), Queue(slots[..count], ledger), e)
    {
      ghost var was := Queue(slots[..count], ledger);
      var arrival := ArrivalOf(e);
      if arrival.Some? {
        Append(arrival.value);
      }
      Flush(e.names);
      calls := calls + [Handle(arrival, e.names)];
      assert calls[..|calls| - 1] == old(calls);
      HandlingMeans(was, e);
    }

    /** `submitObserved`: recorded from the create response, past the queue. */
    method SubmitObserved(uid: Uid, name: string, now: nat)
      requires Valid()
      modifies this`ledger, this`calls
      ensures Valid()
      ensures calls == old(calls) + [Submit(Pending(TrainingJob, uid, false, State("submitted", false), now), name)]
      ensures ledger == old(ledger)
                        + [Delivery(Pending(TrainingJob, uid, false, State("submitted", false), now), name, true)]
      ensures Given(ledger, false) == Given(old(ledger), false)
    {
      var what := Pending(TrainingJob, uid, false, State("submitted", false), now);
      ledger := ledger + [Delivery(what, name, true)];
      GivenLast(old(ledger), Delivery(what, name, true));
      calls := calls + [Submit(what, name)];
      assert calls[..|calls| - 1] == old(calls);
    }

    /**
      `consume`: of every object exactly its transitions are recorded, in order and at their own instants, and
      the ledger is spoiled unless the ending is one the caller caused.
     */
    method Consume(events: seq<StreamEvent>, end: Ending)
      requires Valid()
      modifies this, slots
      ensures Valid() && calls == old(calls) + CallsOf(events)
      ensures forall u :: Follows(old(Watched(u)), Watched(u), Transitions(events, u))
      ensures Given(ledger, true) == Given(old(ledger), true)
      ensures desynced <==> old(desynced) || !Orderly(end)
    {
      for i := 0 to |events|
        invariant Valid() && (slots == old(slots) || fresh(slots)) && desynced == old(desynced)
        invariant calls == old(calls) + CallsOf(events[..i])
        invariant forall u :: Follows(old(Watched(u)), Watched(u), Transitions(events[..i], u))
        invariant Given(ledger, true) == Given(old(ledger), true)
      {
        assert events[..i + 1][..i] == events[..i];
        ghost var before := u => WatchedOf(After(old(calls) + CallsOf(events[..i])), u);
        if events[i].Object? {
          HandleEvent(events[i]);
        }
        forall u ensures Follows(old(Watched(u)), Watched(u), Transitions(events[..i + 1], u)) {
          OneEventMore(events, i, u);
          FollowsTrans(old(Watched(u)), before(u), Watched(u), Transitions(events[..i], u),
                       Transitions([events[i]], u));
        }
      }
      assert events[..|events|] == events;
      if end.lastStatus {
        desynced := true;
      } else if !end.cancelled && !end.stopped {
        desynced := true;
      }
    }
  }
}
