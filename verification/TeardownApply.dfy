/**
  The teardown executor of cmd/queuelabrun/teardown_apply.go against a cluster that other actors write to at
  any moment: whose objects it deletes, in which order, and what its residue accounts for.
 */
module TeardownApply {
  import opened Common
  import opened Teardown

  /** A live object: its immutable UID, the create-time transaction stamp, and whether deletion was requested. */
  datatype Obj = Obj(uid: string, stamp: string, terminating: bool)

  /** What somebody else does to the cluster. */
  datatype Deed =
    | Creates(target: Target, uid: string, stamp: string)
    | Removes(target: Target)
    | Marks(target: Target)

  /** What happens around one request: other people's deeds, whether it fails, whether a finalizer holds. */
  datatype Moment = Moment(deeds: seq<Deed>, fails: bool, finalizer: bool)

  datatype Got = GetFailed | NotFound | Found(obj: Obj)

  /** The answers of a set of reads, one per target. */
  type Reads = map<Target, Got>

  /** One Delete request as the store met it, with the first and the last answer it had given for each target. */
  datatype Ask = Ask(target: Target, uid: string, first: Reads, last: Reads)

  class ObjectStore {
    var objects: map<Target, Obj>
    var script: seq<Moment>
    /** Every UID ever issued, with the stamp its object was created under; a UID is issued once. */
    var born: map<string, string>
    /** Of the executor now at work: the targets a read of it has found nothing at. */
    ghost var gone: set<Target>
    /** Its first and its last read of each target. */
    ghost var first: Reads
    ghost var last: Reads
    /** Its Delete requests, and the UIDs of the objects they were accepted for, in order. */
    ghost var asks: seq<Ask>
    ghost var struck: seq<string>

    ghost predicate Valid()
      reads this
    {
      forall t :: t in objects ==>
        objects[t].uid in born && born[objects[t].uid] == objects[t].stamp && objects[t].uid != ""
    }

    /** Births and absences recorded before are still recorded. */
    ghost predicate Since(births: map<string, string>, before: set<Target>)
      reads this
    {
      (forall u :: u in births ==> u in born && born[u] == births[u]) && before <= gone
    }

    constructor (script: seq<Moment>)
      ensures Valid() && objects == map[] && struck == [] && this.script == script
    {
      objects, born, struck, gone := map[], map[], [], {};
      first, last, asks := map[], map[], [];
      this.script := script;
    }

    /** An executor begins: what is recorded of its reads and requests is recorded from here. */
    ghost method Begin()
      modifies this`gone, this`first, this`last, this`asks, this`struck
      ensures gone == {} && first == map[] && last == map[] && asks == [] && struck == []
    {
      gone, first, last, asks, struck := {}, map[], map[], [], [];
    }

    method Elapse() returns (m: Moment)
      requires Valid()
      modifies this`objects, this`script, this`born
      ensures Valid() && Since(old(born), old(gone))
      ensures old(script) == [] ==> Calm(old(objects)) && m == Moment([], false, false)
    {
      m := Moment([], false, false);
      if script != [] {
        m, script := script[0], script[1..];
        Play(m.deeds);
      }
    }

    /** Nobody else does anything, and nothing fails. */
    ghost predicate Calm(was: map<Target, Obj>)
      reads this
    {
      script == [] && objects == was
    }

    /** Other people's deeds, one by one. */
    method Play(deeds: seq<Deed>)
      requires Valid()
      modifies this`objects, this`born
      ensures Valid() && Since(old(born), old(gone))
    {
      for i := 0 to |deeds|
        invariant Valid() && Since(old(born), old(gone))
      {
        match deeds[i]
        case Creates(t, uid, stamp) =>
          if uid != "" && uid !in born && t !in objects {
            objects := objects[t := Obj(uid, stamp, false)];
            born := born[uid := stamp];
          }
        case Removes(t) => objects := objects - {t};
        case Marks(t) =>
          if t in objects {
            objects := objects[t := objects[t].(terminating := true)];
          }
      }
    }

    method Get(t: Target) returns (r: Got)
      requires Valid()
      modifies this`objects, this`script, this`born, this`gone, this`first, this`last
      ensures Valid() && Since(old(born), old(gone))
      ensures last == old(last)[t := r] && first == (if t in old(first) then old(first) else old(first)[t := r])
      ensures old(script) == [] ==> Calm(old(objects)) && !r.GetFailed?
      ensures r.NotFound? ==> t !in objects && t in gone
      ensures r.Found? ==> t in objects && r.obj == objects[t]
      ensures r.Found? ==> r.obj.uid != "" && r.obj.uid in born && born[r.obj.uid] == r.obj.stamp
    {
      var m := Elapse();
      r := if m.fails then GetFailed else if t in objects then Found(objects[t]) else NotFound;
      if r.NotFound? {
        gone := gone + {t};
      }
      last, first := last[t := r], if t in first then first else first[t := r];
    }

    /** `Delete` with a UID precondition: accepted only for the object that carries that UID. */
    method Delete(t: Target, uid: string)
      requires Valid()
      modifies this`objects, this`script, this`born, this`struck, this`asks
      ensures Valid() && Since(old(born), old(gone))
      ensures asks == old(asks) + [Ask(t, uid, first, last)]
      ensures struck == old(struck) || (struck == old(struck) + [uid] && uid in born)
      ensures old(script) == [] ==>
                Calm(if t in old(objects) && old(objects)[t].uid == uid then old(objects) - {t} else old(objects))
    {
      asks := asks + [Ask(t, uid, first, last)];
      var m := Elapse();
      if !m.fails && t in objects && objects[t].uid == uid {
        struck := struck + [uid];
        objects := if m.finalizer then objects[t := objects[t].(terminating := true)] else objects - {t};
      }
    }
  }

  // ----------------------------------------------------------------- executor

  predicate Settled(o: Sighting) {
    ClassifyAbsence(o) == AbsenceAbsent || ClassifyAbsence(o) == AbsenceForeign
  }

  /** A recorded UID is that of an object born under this transaction's stamp. */
  ghost predicate Ours(latest: seq<Sighting>, born: map<string, string>, txID: string) {
    forall i :: 0 <= i < |latest| && latest[i].wantUID != "" ==>
      latest[i].wantUID in born && born[latest[i].wantUID] == txID
  }

  /** Whatever is classified absent was not there when it was read. */
  ghost predicate ProvenGone(latest: seq<Sighting>, gone: set<Target>) {
    forall i :: 0 <= i < |latest| && ClassifyAbsence(latest[i]) == AbsenceAbsent ==> latest[i].target in gone
  }

  /** Every accepted delete so far struck an object of this transaction. */
  ghost predicate OnlyOurs(struck: seq<string>, born: map<string, string>, txID: string) {
    forall i :: 0 <= i < |struck| ==> struck[i] in born && born[struck[i]] == txID
  }

  /** Everything in the first `n` phases is settled. */
  ghost predicate SettledBelow(latest: seq<Sighting>, n: nat) {
    forall i :: 0 <= i < |latest| && PhaseRank(latest[i].target.phase) < n ==> Settled(latest[i])
  }

  /** Everything in an earlier phase has stopped holding this one. */
  ghost predicate EarlierSettled(latest: seq<Sighting>, phase: Phase) {
    SettledBelow(latest, PhaseRank(phase))
  }

  ghost predicate PhaseSettled(latest: seq<Sighting>, phase: Phase) {
    forall i :: 0 <= i < |latest| && latest[i].target.phase == phase ==> Settled(latest[i])
  }

  lemma OnePhaseMore(latest: seq<Sighting>, phase: Phase)
    requires EarlierSettled(latest, phase) && PhaseSettled(latest, phase)
    ensures SettledBelow(latest, PhaseRank(phase) + 1)
  {
    forall i | 0 <= i < |latest| && PhaseRank(latest[i].target.phase) == PhaseRank(phase)
      ensures Settled(latest[i])
    {
      assert latest[i].target.phase == phase;
    }
  }

  lemma SameTargetsTrans(a: seq<Sighting>, b: seq<Sighting>, c: seq<Sighting>, phase: Phase)
    requires SameTargets(a, b, phase) && SameTargets(b, c, phase)
    ensures SameTargets(a, c, phase)
  {
  }

  lemma OthersStaySettled(a: seq<Sighting>, b: seq<Sighting>, phase: Phase)
    requires SameTargets(a, b, phase) && EarlierSettled(a, phase)
    ensures EarlierSettled(b, phase)
  {
  }

  /** A sighting says what the last read of its target answered, against the UID the first one recorded. */
  predicate Reflects(o: Sighting, first: Got, last: Got, txID: string) {
    && o.wantUID == (if first.Found? && first.obj.stamp == txID then first.obj.uid else "")
    && o.failed == last.GetFailed? && o.found == last.Found?
    && (o.foreign <==> first.Found? && first.obj.stamp != txID) && (o.foreign ==> last == first)
    && (first.Found? ==> first.obj.uid != "")
    && (last.Found? ==>
          && o.uid == last.obj.uid
          && (if o.foreign then last.obj.stamp != txID else o.terminating == last.obj.terminating))
  }

  /**
    What the first and the last answer of the store come to.  Only an object first met under this transaction's
    stamp is ever ours; where the first read failed, an object met later cannot be told apart.
   */
  function VerdictOf(first: Got, last: Got, txID: string): Absence {
    match last
    case GetFailed => AbsenceUnknown
    case NotFound => AbsenceAbsent
    case Found(obj) =>
      if !first.Found? then AbsenceUnknown
      else if first.obj.stamp == txID && first.obj.uid == obj.uid then AbsencePresent
      else AbsenceForeign
  }

  lemma ReflectedVerdict(o: Sighting, first: Got, last: Got, txID: string)
    requires Reflects(o, first, last, txID)
    ensures ClassifyAbsence(o) == VerdictOf(first, last, txID)
  {
  }

  /** The residue is what the store answered: every entry under its verdict, nothing absent, everything else. */
  ghost predicate Told(out: seq<ResidueEntry>, targets: seq<Target>, first: Reads, last: Reads, txID: string) {
    && (forall t <- targets :: t in first && t in last)
    && (forall t <- targets :: StillNamed(t, out) <==> VerdictOf(first[t], last[t], txID) != AbsenceAbsent)
    && (forall e <- out ::
          && e.sighting.target in targets
          && e.absence == VerdictOf(first[e.sighting.target], last[e.sighting.target], txID))
  }

  lemma ResidueIsTold(latest: seq<Sighting>, targets: seq<Target>, first: Reads, last: Reads, out: seq<ResidueEntry>,
                      txID: string)
    requires Covers(latest, targets) && DistinctTargets(latest) && Mirrors(latest, first, last, txID)
    requires forall e :: e in out <==>
               e.sighting in latest && e.absence == ClassifyAbsence(e.sighting) && e.absence != AbsenceAbsent
    ensures Told(out, targets, first, last, txID)
  {
    forall i | 0 <= i < |latest|
      ensures ClassifyAbsence(latest[i]) == VerdictOf(first[latest[i].target], last[latest[i].target], txID)
    {
      ReflectedVerdict(latest[i], first[latest[i].target], last[latest[i].target], txID);
    }
    forall e | e in out
      ensures e.sighting.target in targets
      ensures e.absence == VerdictOf(first[e.sighting.target], last[e.sighting.target], txID)
    {
      var i :| 0 <= i < |latest| && latest[i] == e.sighting;
      assert latest[i].target == targets[i];
    }
    forall t | t in targets
      ensures t in first && t in last
      ensures StillNamed(t, out) <==> VerdictOf(first[t], last[t], txID) != AbsenceAbsent
    {
      var i :| 0 <= i < |targets| && targets[i] == t;
      assert latest[i].target == t && latest[i] in latest;
      if VerdictOf(first[t], last[t], txID) != AbsenceAbsent {
        assert ResidueEntry(latest[i], ClassifyAbsence(latest[i])) in out;
      }
    }
  }

  ghost predicate Mirrors(latest: seq<Sighting>, first: Reads, last: Reads, txID: string) {
    forall i :: 0 <= i < |latest| ==>
      && latest[i].target in first && latest[i].target in last
      && Reflects(latest[i], first[latest[i].target], last[latest[i].target], txID)
  }

  ghost predicate DistinctTargets(latest: seq<Sighting>) {
    forall i, k :: 0 <= i < k < |latest| ==> latest[i].target != latest[k].target
  }

  /** The last read of the target found nothing, or an object that is not the one this transaction created. */
  predicate NotOurs(t: Target, first: Reads, last: Reads, txID: string) {
    && t in first && t in last
    && (last[t].NotFound?
        || (last[t].Found? && (last[t].obj.stamp != txID || (first[t].Found? && last[t].obj.uid != first[t].obj.uid))))
  }

  /**
    The request was entitled by what the store had answered: the object was first read under this transaction's
    stamp and last read under the same UID and not terminating, and nothing of ours was last read at any target
    of an earlier phase.
   */
  ghost predicate Entitled(a: Ask, targets: seq<Target>, txID: string) {
    && a.target in a.first && a.first[a.target].Found?
    && a.first[a.target].obj.stamp == txID && a.first[a.target].obj.uid == a.uid
    && a.target in a.last && a.last[a.target].Found?
    && a.last[a.target].obj.uid == a.uid && !a.last[a.target].obj.terminating
    && forall t <- targets :: PhaseRank(t.phase) < PhaseRank(a.target.phase) ==> NotOurs(t, a.first, a.last, txID)
  }

  ghost predicate AllEntitled(asks: seq<Ask>, targets: seq<Target>, txID: string) {
    forall i :: 0 <= i < |asks| ==> asks[i].target in targets && Entitled(asks[i], targets, txID)
  }

  /** The requests never go back to an earlier phase, and have come no further than this one. */
  ghost predicate UpTo(asks: seq<Ask>, phase: Phase) {
    && (forall i, k :: 0 <= i < k < |asks| ==> PhaseRank(asks[i].target.phase) <= PhaseRank(asks[k].target.phase))
    && (forall i :: 0 <= i < |asks| ==> PhaseRank(asks[i].target.phase) <= PhaseRank(phase))
  }

  lemma UpToOneMore(asks: seq<Ask>, a: Ask, phase: Phase)
    requires UpTo(asks, phase) && a.target.phase == phase
    ensures UpTo(asks + [a], phase)
  {
  }

  /** What the executor sees of a present target entitles it to delete it. */
  lemma SightingEntitles(latest: seq<Sighting>, i: nat, first: Reads, last: Reads, targets: seq<Target>, txID: string)
    requires i < |latest| && Mirrors(latest, first, last, txID) && Covers(latest, targets)
    requires ClassifyAbsence(latest[i]) == AbsencePresent && !latest[i].terminating
    requires EarlierSettled(latest, latest[i].target.phase)
    ensures latest[i].target in targets
    ensures Entitled(Ask(latest[i].target, latest[i].wantUID, first, last), targets, txID)
  {
    assert latest[i].target == targets[i];
    forall t | t in targets && PhaseRank(t.phase) < PhaseRank(latest[i].target.phase)
      ensures NotOurs(t, first, last, txID)
    {
      var k :| 0 <= k < |targets| && targets[k] == t;
      assert Settled(latest[k]) && Reflects(latest[k], first[t], last[t], txID);
    }
  }

  /** The sightings are of the same targets under the same recorded UIDs, and those of other phases are the same. */
  ghost predicate SameTargets(before: seq<Sighting>, after: seq<Sighting>, phase: Phase) {
    && |before| == |after|
    && (forall i :: 0 <= i < |before| ==>
          && after[i].target == before[i].target && after[i].wantUID == before[i].wantUID
          && (before[i].target.phase != phase ==> after[i] == before[i]))
  }

  /** On a calm store a sighting is plainly true: nothing there, somebody else's, or ours and ready to delete. */
  predicate Plain(o: Sighting, objects: map<Target, Obj>, txID: string) {
    match ClassifyAbsence(o)
    case AbsenceUnknown => false
    case AbsenceAbsent => o.target !in objects
    case AbsenceForeign => o.target in objects && objects[o.target].stamp != txID
    case AbsencePresent => o.target in objects && objects[o.target].uid == o.wantUID && !o.terminating
  }

  /** Objects have only been taken away. */
  ghost predicate Shrinks(before: map<Target, Obj>, after: map<Target, Obj>) {
    forall t :: t in after ==> t in before && after[t] == before[t]
  }

  lemma ShrinksTrans(a: map<Target, Obj>, b: map<Target, Obj>, c: map<Target, Obj>)
    ensures Shrinks(a, b) && Shrinks(b, c) ==> Shrinks(a, c)
  {
  }

  ghost predicate AllPlain(latest: seq<Sighting>, objects: map<Target, Obj>, txID: string) {
    forall i :: 0 <= i < |latest| ==> Plain(latest[i], objects, txID)
  }

  /** After a calm sweep of deletes: what was ours in the phase is gone, the rest is as plain as it was. */
  predicate SweptOne(o: Sighting, phase: Phase, objects: map<Target, Obj>, txID: string) {
    if o.target.phase == phase && ClassifyAbsence(o) == AbsencePresent then o.target !in objects
    else Plain(o, objects, txID)
  }

  ghost predicate Swept(latest: seq<Sighting>, phase: Phase, n: nat, objects: map<Target, Obj>, txID: string) {
    forall i :: 0 <= i < |latest| ==>
      if i < n then SweptOne(latest[i], phase, objects, txID) else Plain(latest[i], objects, txID)
  }

  /** Everything the executor may rely on about its view of the targets. */
  ghost predicate Sees(st: ObjectStore, latest: seq<Sighting>, targets: seq<Target>, txID: string)
    reads st
  {
    && st.Valid() && Covers(latest, targets) && DistinctTargets(latest)
    && Ours(latest, st.born, txID) && OnlyOurs(st.struck, st.born, txID) && ProvenGone(latest, st.gone)
    && Mirrors(latest, st.first, st.last, txID)
    && AllEntitled(st.asks, targets, txID)
  }

  /** One Delete request for a target seen present. */
  method Strike(st: ObjectStore, latest: array<Sighting>, i: nat, ghost targets: seq<Target>, txID: string)
    requires i < latest.Length && Sees(st, latest[..], targets, txID) && UpTo(st.asks, latest[i].target.phase)
    requires ClassifyAbsence(latest[i]) == AbsencePresent && !latest[i].terminating
    requires EarlierSettled(latest[..], latest[i].target.phase)
    modifies st`objects, st`script, st`born, st`struck, st`asks
    ensures Sees(st, latest[..], targets, txID) && st.Since(old(st.born), old(st.gone))
    ensures UpTo(st.asks, latest[i].target.phase)
    ensures old(st.script) == [] && Plain(latest[i], old(st.objects), txID) ==>
              st.Calm(old(st.objects) - {latest[i].target})
  {
    var o := latest[i];
    assert latest[..][i] == o;
    SightingEntitles(latest[..], i, st.first, st.last, targets, txID);
    UpToOneMore(st.asks, Ask(o.target, o.wantUID, st.first, st.last), o.target.phase);
    st.Delete(o.target, o.wantUID);
  }

  /** The delete sweep of one round. */
  method StrikePresent(st: ObjectStore, latest: array<Sighting>, phase: Phase, ghost targets: seq<Target>,
                       txID: string)
    requires Sees(st, latest[..], targets, txID) && UpTo(st.asks, phase) && EarlierSettled(latest[..], phase)
    modifies st`objects, st`script, st`born, st`struck, st`asks
    ensures Sees(st, latest[..], targets, txID) && st.Since(old(st.born), old(st.gone)) && UpTo(st.asks, phase)
    ensures old(st.script) == [] && AllPlain(latest[..], old(st.objects), txID) ==>
              && st.script == [] && Swept(latest[..], phase, latest.Length, st.objects, txID)
              && Shrinks(old(st.objects), st.objects)
  {
    ghost var calm := st.script == [] && AllPlain(latest[..], st.objects, txID);
    for i := 0 to latest.Length
      invariant Sees(st, latest[..], targets, txID) && st.Since(old(st.born), old(st.gone)) && UpTo(st.asks, phase)
      invariant calm ==> st.script == [] && Swept(latest[..], phase, i, st.objects, txID)
      invariant calm ==> Shrinks(old(st.objects), st.objects)
    {
      var o := latest[i];
      ghost var was := st.objects;
      assert latest[..][i] == o;
      if o.target.phase == phase && ClassifyAbsence(o) == AbsencePresent && !o.terminating {
        Strike(st, latest, i, targets, txID);
        if calm {
          SweptOneMore(latest[..], phase, i, was, txID);
        }
      }
    }
  }

  /** Taking one target of ours away leaves every other sighting as it was. */
  lemma SweptOneMore(latest: seq<Sighting>, phase: Phase, i: nat, objects: map<Target, Obj>, txID: string)
    requires i < |latest| && DistinctTargets(latest) && Swept(latest, phase, i, objects, txID)
    requires latest[i].target.phase == phase && ClassifyAbsence(latest[i]) == AbsencePresent
    ensures Swept(latest, phase, i + 1, objects - {latest[i].target}, txID)
  {
    var rest := objects - {latest[i].target};
    forall k | 0 <= k < |latest|
      ensures if k < i + 1 then SweptOne(latest[k], phase, rest, txID) else Plain(latest[k], rest, txID)
    {
      assert k != i ==> latest[k].target != latest[i].target;
    }
  }

  /** `observeTarget`: one re-read, judged against the UID recovery recorded. */
  method ObserveTarget(st: ObjectStore, t: Target, wantUID: string, ghost txID: string) returns (o: Sighting)
    requires st.Valid()
    modifies st`objects, st`script, st`born, st`gone, st`first, st`last
    ensures st.Valid() && st.Since(old(st.born), old(st.gone))
    ensures o.target == t && o.wantUID == wantUID && !o.foreign
    ensures t in st.last && st.last == old(st.last)[t := st.last[t]]
    ensures t in old(st.first) ==> st.first == old(st.first)
    ensures o.failed == st.last[t].GetFailed? && o.found == st.last[t].Found?
    ensures ClassifyAbsence(o) == AbsenceAbsent <==> st.last[t].NotFound?
    ensures ClassifyAbsence(o) == AbsencePresent <==> st.last[t].Found? && st.last[t].obj.uid == wantUID
    ensures ClassifyAbsence(o) == AbsenceForeign <==>
              wantUID != "" && st.last[t].Found? && st.last[t].obj.uid != wantUID
    ensures st.last[t].Found? ==> o.uid == st.last[t].obj.uid && o.terminating == st.last[t].obj.terminating
    ensures ClassifyAbsence(o) == AbsenceAbsent ==> t !in st.objects && t in st.gone
    ensures ClassifyAbsence(o) == AbsencePresent ==> t in st.objects && st.objects[t].uid == wantUID != ""
    ensures ClassifyAbsence(o) == AbsenceForeign ==> t in st.objects && st.objects[t].uid != wantUID
    ensures old(st.script) == [] ==> st.Calm(old(st.objects)) && (t !in st.objects ==> Plain(o, st.objects, txID))
  {
    var got := st.Get(t);
    match got
    case GetFailed => o := Sighting(t, false, "", false, true, wantUID, false);
    case NotFound => o := Sighting(t, false, "", false, false, wantUID, false);
    case Found(obj) => o := Sighting(t, true, obj.uid, obj.terminating, false, wantUID, false);
  }

  /** One target read again and its observation replaced. */
  method ReadAgain(st: ObjectStore, latest: array<Sighting>, i: nat, ghost targets: seq<Target>, txID: string)
    requires i < latest.Length && Sees(st, latest[..], targets, txID) && !Settled(latest[i])
    modifies st`objects, st`script, st`born, st`gone, st`first, st`last, latest
    ensures Sees(st, latest[..], targets, txID) && st.Since(old(st.born), old(st.gone))
    ensures SameTargets(old(latest[..]), latest[..], old(latest[i]).target.phase)
    ensures forall k :: 0 <= k < latest.Length && k != i ==> latest[k] == old(latest[k])
    ensures old(st.script) == [] ==>
              && st.Calm(old(st.objects))
              && (old(latest[i]).target !in st.objects ==> Plain(latest[i], st.objects, txID))
  {
    ghost var was := latest[..];
    assert was[i] == latest[i];
    UnsettledIsNotForeign(latest[i], st.first[latest[i].target], st.last[latest[i].target], txID);
    var o := ObserveTarget(st, latest[i].target, latest[i].wantUID, txID);
    latest[i] := o;
    assert latest[..] == was[i := o];
    StillMirrors(was, i, o, old(st.first), old(st.last), st.last, txID);
  }

  lemma UnsettledIsNotForeign(o: Sighting, first: Got, last: Got, txID: string)
    requires Reflects(o, first, last, txID) && !Settled(o)
    ensures !o.foreign
  {
  }

  /** Reading one target changes what is known of that target alone. */
  lemma StillMirrors(latest: seq<Sighting>, i: nat, o: Sighting, first: Reads, last: Reads, last': Reads, txID: string)
    requires i < |latest| && DistinctTargets(latest) && Mirrors(latest, first, last, txID)
    requires o.target == latest[i].target && o.wantUID == latest[i].wantUID && !o.foreign && !latest[i].foreign
    requires o.target in last' && last' == last[o.target := last'[o.target]]
    requires o.failed == last'[o.target].GetFailed? && o.found == last'[o.target].Found?
    requires last'[o.target].Found? ==>
               o.uid == last'[o.target].obj.uid && o.terminating == last'[o.target].obj.terminating
    ensures Mirrors(latest[i := o], first, last', txID)
  {
  }

  /** In a calm read sweep: the first `n` sightings are plain and, in the phase, settled; the rest are swept. */
  ghost predicate Reread(latest: seq<Sighting>, phase: Phase, n: nat, objects: map<Target, Obj>, txID: string) {
    forall i :: 0 <= i < |latest| ==>
      if i < n then Plain(latest[i], objects, txID) && (latest[i].target.phase == phase ==> Settled(latest[i]))
      else SweptOne(latest[i], phase, objects, txID)
  }

  /** The read sweep of one round, updating the observations in place. */
  method ReadUnsettled(st: ObjectStore, latest: array<Sighting>, phase: Phase, ghost targets: seq<Target>, txID: string)
    requires Sees(st, latest[..], targets, txID)
    modifies st`objects, st`script, st`born, st`gone, st`first, st`last, latest
    ensures Sees(st, latest[..], targets, txID) && st.Since(old(st.born), old(st.gone))
    ensures SameTargets(old(latest[..]), latest[..], phase)
    ensures old(st.script) == [] && Swept(old(latest[..]), phase, latest.Length, old(st.objects), txID) ==>
              && st.Calm(old(st.objects))
              && AllPlain(latest[..], st.objects, txID) && PhaseSettled(latest[..], phase)
  {
    ghost var calm := st.script == [] && Swept(latest[..], phase, latest.Length, st.objects, txID);
    for i := 0 to latest.Length
      invariant Sees(st, latest[..], targets, txID) && st.Since(old(st.born), old(st.gone))
      invariant SameTargets(old(latest[..]), latest[..], phase)
      invariant calm ==> st.Calm(old(st.objects)) && Reread(latest[..], phase, i, st.objects, txID)
    {
      assert latest[..][i] == latest[i];
      if latest[i].target.phase == phase && !Settled(latest[i]) {
        ReadAgain(st, latest, i, targets, txID);
      }
    }
  }

  /** One round: the delete sweep, the read sweep, and whether the phase has settled. */
  method Round(st: ObjectStore, latest: array<Sighting>, phase: Phase, ghost targets: seq<Target>, txID: string)
    returns (settled: bool)
    requires Sees(st, latest[..], targets, txID) && UpTo(st.asks, phase) && EarlierSettled(latest[..], phase)
    modifies st, latest
    ensures Sees(st, latest[..], targets, txID) && st.Since(old(st.born), old(st.gone)) && UpTo(st.asks, phase)
    ensures SameTargets(old(latest[..]), latest[..], phase) && EarlierSettled(latest[..], phase)
    ensures settled ==> PhaseSettled(latest[..], phase)
    ensures old(st.script) == [] && AllPlain(old(latest[..]), old(st.objects), txID) ==>
              && settled && st.script == [] && AllPlain(latest[..], st.objects, txID)
              && Shrinks(old(st.objects), st.objects)
  {
    StrikePresent(st, latest, phase, targets, txID);
    ReadUnsettled(st, latest, phase, targets, txID);
    settled := PhaseDone(latest, phase);
    OthersStaySettled(old(latest[..]), latest[..], phase);
  }

  /** `settlePhase`: delete, then read, until the phase settles or the budget of polls is spent. */
  method SettlePhase(st: ObjectStore, latest: array<Sighting>, phase: Phase, budget: nat, ghost targets: seq<Target>,
                     txID: string)
    returns (settled: bool, left: nat)
    requires Sees(st, latest[..], targets, txID) && UpTo(st.asks, phase) && EarlierSettled(latest[..], phase)
    modifies st, latest
    ensures Sees(st, latest[..], targets, txID) && st.Since(old(st.born), old(st.gone)) && UpTo(st.asks, phase)
    ensures SameTargets(old(latest[..]), latest[..], phase)
    ensures settled ==> SettledBelow(latest[..], PhaseRank(phase) + 1)
    ensures !settled ==> left == 0
    ensures old(st.script) == [] && AllPlain(old(latest[..]), old(st.objects), txID) ==>
              && settled && st.script == [] && AllPlain(latest[..], st.objects, txID)
              && Shrinks(old(st.objects), st.objects)
  {
    left := budget;
    ghost var calm := st.script == [] && AllPlain(latest[..], st.objects, txID);
    while true
      invariant Sees(st, latest[..], targets, txID) && st.Since(old(st.born), old(st.gone)) && UpTo(st.asks, phase)
      invariant SameTargets(old(latest[..]), latest[..], phase) && EarlierSettled(latest[..], phase)
      invariant calm ==> st.script == [] && AllPlain(latest[..], st.objects, txID)
      invariant calm ==> Shrinks(old(st.objects), st.objects)
      decreases left
    {
      ghost var was := latest[..];
      settled := Round(st, latest, phase, targets, txID);
      SameTargetsTrans(old(latest[..]), was, latest[..], phase);
      if settled {
        OnePhaseMore(latest[..], phase);
      }
      if settled || left == 0 {
        return;
      }
      left := left - 1;
    }
  }

  method PhaseDone(latest: array<Sighting>, phase: Phase) returns (done: bool)
    ensures done <==> PhaseSettled(latest[..], phase)
  {
    for i := 0 to latest.Length
      invariant forall k :: 0 <= k < i && latest[k].target.phase == phase ==> Settled(latest[k])
    {
      if latest[i].target.phase == phase && !Settled(latest[i]) {
        return false;
      }
    }
    done := true;
  }

  /** An object of this transaction that is already terminating. */
  predicate Dying(t: Target, objects: map<Target, Obj>, txID: string) {
    t in objects && objects[t].stamp == txID && objects[t].terminating
  }

  /** One read of recovery: a live object under another stamp is foreign and its UID is not recorded. */
  method RecoverTarget(st: ObjectStore, t: Target, txID: string) returns (o: Sighting)
    requires st.Valid()
    modifies st`objects, st`script, st`born, st`gone, st`first, st`last
    ensures st.Valid() && st.Since(old(st.born), old(st.gone))
    ensures o.target == t && (o.wantUID != "" ==> o.wantUID in st.born && st.born[o.wantUID] == txID)
    ensures t in st.last && st.last == old(st.last)[t := st.last[t]]
    ensures t !in old(st.first) ==> st.first == old(st.first)[t := st.last[t]]
    ensures Reflects(o, st.last[t], st.last[t], txID) && ClassifyAbsence(o) == VerdictOf(st.last[t], st.last[t], txID)
    ensures ClassifyAbsence(o) == AbsenceAbsent ==> t !in st.objects && t in st.gone
    ensures ClassifyAbsence(o) == AbsencePresent ==> t in st.objects && st.objects[t].stamp == txID
    ensures ClassifyAbsence(o) == AbsenceForeign ==> t in st.objects && st.objects[t].stamp != txID
    ensures old(st.script) == [] ==>
              st.Calm(old(st.objects)) && (!Dying(t, st.objects, txID) ==> Plain(o, st.objects, txID))
  {
    var got := st.Get(t);
    match got
    case NotFound => o := Sighting(t, false, "", false, false, "", false);
    case GetFailed => o := Sighting(t, false, "", false, true, "", false);
    case Found(obj) =>
      o := if obj.stamp != txID then Sighting(t, true, obj.uid, false, false, "", true)
           else Sighting(t, true, obj.uid, obj.terminating, false, obj.uid, false);
  }

  /**
    `recoverTargets`: every target is observed exactly once, in order, and a UID is recorded only for an
    object that carries this transaction's own stamp.
   */
  method RecoverTargets(st: ObjectStore, s: Seed, txID: string) returns (latest: Option<seq<Sighting>>)
    requires st.Valid()
    modifies st
    ensures st.Valid() && st.Since(old(st.born), {}) && st.asks == [] && st.struck == []
    ensures latest.Some? <==> txID == s.txID && TargetsOf(s).Some?
    ensures latest.Some? ==> Sees(st, latest.value, TargetsOf(s).value, txID)
    ensures latest.Some? && old(st.script) == []
            && (forall t <- TargetsOf(s).value :: !Dying(t, old(st.objects), txID)) ==>
              st.Calm(old(st.objects)) && AllPlain(latest.value, st.objects, txID)
  {
    st.Begin();
    if txID != s.txID {
      return None;
    }
    var targets := Enumerate(s);
    if targets.None? {
      return None;
    }
    var out := RecoverEach(st, targets.value, txID);
    assert DistinctTargets(out);
    latest := Some(out);
  }

  /** A new target read once: what is known of the others stands. */
  lemma MirrorsOneMore(out: seq<Sighting>, o: Sighting, first: Reads, last: Reads, got: Got, txID: string)
    requires Mirrors(out, first, last, txID) && o.target !in first && Reflects(o, got, got, txID)
    ensures Mirrors(out + [o], first[o.target := got], last[o.target := got], txID)
  {
  }

  /** The targets recovered so far. */
  ghost predicate Recovered(st: ObjectStore, out: seq<Sighting>, targets: seq<Target>, txID: string)
    reads st
  {
    && st.Valid() && Covers(out, targets) && Ours(out, st.born, txID) && ProvenGone(out, st.gone)
    && Mirrors(out, st.first, st.last, txID) && forall t :: t in st.first ==> t in targets
  }

  method RecoverNext(st: ObjectStore, t: Target, txID: string, ghost targets: seq<Target>, out: seq<Sighting>)
    returns (next: seq<Sighting>)
    requires Recovered(st, out, targets, txID) && t !in targets
    modifies st`objects, st`script, st`born, st`gone, st`first, st`last
    ensures Recovered(st, next, targets + [t], txID) && st.Since(old(st.born), old(st.gone))
    ensures old(st.script) == [] ==> st.Calm(old(st.objects))
    ensures old(st.script) == [] && AllPlain(out, old(st.objects), txID) && !Dying(t, old(st.objects), txID) ==>
              AllPlain(next, st.objects, txID)
  {
    var o := RecoverTarget(st, t, txID);
    MirrorsOneMore(out, o, old(st.first), old(st.last), st.last[t], txID);
    next := out + [o];
  }

  method RecoverEach(st: ObjectStore, targets: seq<Target>, txID: string) returns (out: seq<Sighting>)
    requires st.Valid() && st.first == map[]
    requires forall i, k :: 0 <= i < k < |targets| ==> targets[i] != targets[k]
    modifies st`objects, st`script, st`born, st`gone, st`first, st`last
    ensures Recovered(st, out, targets, txID) && st.Since(old(st.born), old(st.gone))
    ensures old(st.script) == [] ==> st.Calm(old(st.objects))
    ensures old(st.script) == [] && (forall t <- targets :: !Dying(t, old(st.objects), txID)) ==>
              AllPlain(out, st.objects, txID)
  {
    out := [];
    ghost var calm := st.script == [] && forall t <- targets :: !Dying(t, st.objects, txID);
    for i := 0 to |targets|
      invariant Recovered(st, out, targets[..i], txID) && st.Since(old(st.born), old(st.gone))
      invariant old(st.script) == [] ==> st.Calm(old(st.objects))
      invariant calm ==> AllPlain(out, st.objects, txID)
    {
      assert targets[i] in targets && targets[..i + 1] == targets[..i] + [targets[i]];
      out := RecoverNext(st, targets[i], txID, targets[..i], out);
    }
    assert targets[..|targets|] == targets;
  }

  /** One sighting per target, in the targets' order. */
  ghost predicate Covers(latest: seq<Sighting>, targets: seq<Target>) {
    |latest| == |targets| && forall i :: 0 <= i < |targets| ==> latest[i].target == targets[i]
  }

  predicate StillNamed(t: Target, residue: seq<ResidueEntry>) {
    exists e :: e in residue && e.sighting.target == t
  }

  /** A target without a residue entry was read absent. */
  lemma AllAccountedFor(latest: seq<Sighting>, targets: seq<Target>, gone: set<Target>, out: seq<ResidueEntry>)
    requires Covers(latest, targets) && ProvenGone(latest, gone)
    requires forall o :: o in latest && ClassifyAbsence(o) != AbsenceAbsent ==>
               ResidueEntry(o, ClassifyAbsence(o)) in out
    ensures forall t :: t in targets ==> t in gone || StillNamed(t, out)
  {
    forall t | t in targets ensures t in gone || StillNamed(t, out) {
      var i :| 0 <= i < |targets| && targets[i] == t;
      assert latest[i] in latest;
      if ClassifyAbsence(latest[i]) != AbsenceAbsent {
        assert ResidueEntry(latest[i], ClassifyAbsence(latest[i])) in out;
      }
    }
  }

  /**
    `deleteTargets`.  Every accepted delete struck an object this very transaction created; every request the
    store received was for an object it had first answered under this transaction's stamp and last answered
    present and not terminating, when nothing of ours was last answered at any target of an earlier phase; the
    requests never go back a phase; and a target that is not in the residue was read absent by this very call.
   */
  method DeleteTargets(st: ObjectStore, s: Seed, txID: string, budget: nat) returns (r: Option<seq<ResidueEntry>>)
    requires st.Valid()
    modifies st
    ensures st.Valid() && st.Since(old(st.born), {})
    ensures OnlyOurs(st.struck, st.born, txID)
    ensures r.Some? <==> txID == s.txID && TargetsOf(s).Some?
    ensures if r.Some? then AllEntitled(st.asks, TargetsOf(s).value, txID) else st.asks == []
    ensures UpTo(st.asks, PhaseResourceFlavor)
    ensures r.Some? ==> forall e :: e in r.value ==>
              && e.sighting.target in TargetsOf(s).value
              && e.absence == ClassifyAbsence(e.sighting) && e.absence != AbsenceAbsent
    ensures r.Some? ==> forall t :: t in TargetsOf(s).value ==> t in st.gone || StillNamed(t, r.value)
    ensures r.Some? ==> Told(r.value, TargetsOf(s).value, st.first, st.last, txID)
    ensures r.Some? && old(st.script) == [] && (forall t <- TargetsOf(s).value :: !Dying(t, old(st.objects), txID)) ==>
              && (forall t <- TargetsOf(s).value :: t in st.objects ==> st.objects[t].stamp != txID)
              && (forall e <- r.value ::
                    e.absence == AbsenceForeign && Anothers(e.sighting.target, old(st.objects), txID))
  {
    var recovered := RecoverTargets(st, s, txID);
    if recovered.None? {
      return None;
    }
    ghost var targets := TargetsOf(s).value;
    var latest := new Sighting[|recovered.value|](i requires 0 <= i < |recovered.value| => recovered.value[i]);
    assert latest[..] == recovered.value;
    SettleAll(st, latest, targets, budget, txID);
    var out := Residual(latest[..]);
    r := Some(out);
    AllAccountedFor(latest[..], targets, st.gone, out);
    ResidueIsTold(latest[..], targets, st.first, st.last, out, txID);
    CalmLeavesNothing(latest[..], targets, st.objects, out, txID);
  }

  /** Somebody else's object is at the target. */
  predicate Anothers(t: Target, objects: map<Target, Obj>, txID: string) {
    t in objects && objects[t].stamp != txID
  }

  /** Settled and plain sightings leave nothing of ours, and a residue of what is not. */
  lemma CalmLeavesNothing(latest: seq<Sighting>, targets: seq<Target>, objects: map<Target, Obj>,
                          out: seq<ResidueEntry>, txID: string)
    requires Covers(latest, targets)
    requires forall e :: e in out ==> e.sighting in latest && e.absence == ClassifyAbsence(e.sighting) != AbsenceAbsent
    ensures AllPlain(latest, objects, txID) && SettledBelow(latest, 3) ==>
              && (forall t <- targets :: t in objects ==> objects[t].stamp != txID)
              && (forall e <- out :: e.absence == AbsenceForeign && Anothers(e.sighting.target, objects, txID))
  {
    if AllPlain(latest, objects, txID) && SettledBelow(latest, 3) {
      forall t | t in targets && t in objects ensures objects[t].stamp != txID {
        var i :| 0 <= i < |targets| && targets[i] == t;
        assert Plain(latest[i], objects, txID) && Settled(latest[i]);
      }
    }
  }

  /** The phases in the order they are settled. */
  function PhaseAt(p: nat): Phase {
    if p == 0 then PhaseNamespace else if p == 1 then PhaseClusterQueue else PhaseResourceFlavor
  }

  lemma UpToLater(asks: seq<Ask>, p: nat)
    requires UpTo(asks, PhaseAt(p))
    ensures UpTo(asks, PhaseAt(p + 1)) && UpTo(asks, PhaseResourceFlavor)
  {
  }

  /** The phases in order, until one does not settle. */
  method SettleAll(st: ObjectStore, latest: array<Sighting>, ghost targets: seq<Target>, budget: nat, txID: string)
    requires Sees(st, latest[..], targets, txID) && st.asks == []
    modifies st, latest
    ensures Sees(st, latest[..], targets, txID) && st.Since(old(st.born), {})
    ensures UpTo(st.asks, PhaseResourceFlavor)
    ensures old(st.script) == [] && AllPlain(old(latest[..]), old(st.objects), txID) ==>
              && AllPlain(latest[..], st.objects, txID) && SettledBelow(latest[..], 3)
              && Shrinks(old(st.objects), st.objects)
  {
    ghost var calm := st.script == [] && AllPlain(latest[..], st.objects, txID);
    ghost var births := st.born;
    var left, settled, p := budget, true, 0;
    while p < 3 && settled
      invariant 0 <= p <= 3 && Sees(st, latest[..], targets, txID) && st.Since(births, {})
      invariant UpTo(st.asks, PhaseAt(p)) && (settled ==> SettledBelow(latest[..], p))
      invariant calm ==> settled && st.script == [] && AllPlain(latest[..], st.objects, txID)
      invariant calm ==> Shrinks(old(st.objects), st.objects)
    {
      ghost var was := st.objects;
      settled, left := SettlePhase(st, latest, PhaseAt(p), left, targets, txID);
      ShrinksTrans(old(st.objects), was, st.objects);
      UpToLater(st.asks, p);
      p := p + 1;
    }
    UpToLater(st.asks, p);
  }
}
