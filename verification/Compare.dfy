/**
  Comparing arms, from cmd/queuelabrun/compare.go and internal/queuelab/resolution.go: pooled resolution
  floors, arm means, and the findings a difference may be quoted as. Figures are reals.
 */
module Compare {
  import opened Common
  import Interleave

  datatype Measurement = Measurement(
    wasted: real,
    ownerWaitNs: Option<int>,
    duty: Option<real>,
    resolvedToNs: Option<int>)

  datatype Record = Record(
    arm: string,
    dose: string,
    admissible: bool,
    deviceWork: bool,
    measurement: Option<Measurement>,
    startedAt: Option<int>)

  const SECOND: real := 1000000000.0

  /** Truncation towards zero, as Go converts a float to an integer. */
  function SecondsToNs(v: real): int {
    if v >= 0.0 then (v * SECOND).Floor else -((-v * SECOND).Floor)
  }

  function ResolvesAgainst(magnitudeNs: int, floorNs: int): bool {
    (if magnitudeNs < 0 then -magnitudeNs else magnitudeNs) > floorNs
  }

  function Abs(x: real): real {
    if x < 0.0 then -x else x
  }

  // --------------------------------------------------------------------- means

  function Total(xs: seq<real>): real {
    if xs == [] then 0.0 else Total(xs[..|xs| - 1]) + xs[|xs| - 1]
  }

  function Mean(xs: seq<real>): real
    requires xs != []
  {
    Total(xs) / (|xs| as real)
  }

  /** The figures are each within `e` of the true values. */
  predicate Within(xs: seq<real>, truths: seq<real>, e: real) {
    |xs| == |truths| && forall i :: 0 <= i < |xs| ==> Abs(xs[i] - truths[i]) <= e
  }

  ghost function Repeated(e: real, n: nat): real {
    if n == 0 then 0.0 else Repeated(e, n - 1) + e
  }

  lemma {:induction false} TotalWithin(xs: seq<real>, truths: seq<real>, e: real)
    requires Within(xs, truths, e)
    ensures -Repeated(e, |xs|) <= Total(xs) - Total(truths) <= Repeated(e, |xs|)
  {
    if xs != [] {
      var n := |xs| - 1;
      TotalWithin(xs[..n], truths[..n], e);
      assert Abs(xs[n] - truths[n]) <= e;
    }
  }

  lemma {:induction false} RepeatedIsProduct(e: real, n: nat)
    ensures Repeated(e, n) == e * (n as real)
  {
    if n > 0 {
      RepeatedIsProduct(e, n - 1);
    }
  }

  /** Errors in one arm do not add up in its mean: the coarsest run bounds it. */
  lemma MeanWithin(xs: seq<real>, truths: seq<real>, e: real)
    requires xs != [] && Within(xs, truths, e)
    ensures Abs(Mean(xs) - Mean(truths)) <= e
  {
    TotalWithin(xs, truths, e);
    SharedOut(Total(xs), Total(truths), e, |xs|);
  }

  lemma SharedOut(x: real, y: real, e: real, n: nat)
    requires n > 0 && -Repeated(e, n) <= x - y <= Repeated(e, n)
    ensures -e <= x / (n as real) - y / (n as real) <= e
  {
    RepeatedIsProduct(e, n);
    Divides(x - y, e, n as real);
    Distributes(x, y, n as real);
  }

  lemma Divides(d: real, e: real, n: real)
    requires n > 0.0 && -(e * n) <= d <= e * n
    ensures -e <= d / n <= e
  {
  }

  lemma Distributes(x: real, y: real, n: real)
    requires n > 0.0
    ensures (x - y) / n == x / n - y / n
  {
  }

  // -------------------------------------------------------------- pooled floor

  /** The coarsest floor of a set of runs, when every run has one and it is not zero. */
  ghost predicate Pools(ms: seq<Measurement>, worst: int, bounded: bool) {
    && (bounded <==> && (forall m <- ms :: m.resolvedToNs.Some?)
                     && (exists m <- ms :: m.resolvedToNs.Some? && m.resolvedToNs.value > 0))
    && (bounded ==> worst > 0 && (exists m <- ms :: m.resolvedToNs == Some(worst)))
    && (bounded ==> forall m <- ms :: m.resolvedToNs.value <= worst)
    && (!bounded ==> worst == 0)
  }

  method PooledFloorNs(ms: seq<Measurement>) returns (worst: int, bounded: bool)
    ensures Pools(ms, worst, bounded)
  {
    worst := 0;
    for i := 0 to |ms|
      invariant worst >= 0
      invariant forall k :: 0 <= k < i ==> ms[k].resolvedToNs.Some? && ms[k].resolvedToNs.value <= worst
      invariant worst > 0 ==> exists k :: 0 <= k < i && ms[k].resolvedToNs == Some(worst)
    {
      if ms[i].resolvedToNs.None? {
        return 0, false;
      }
      var f := ms[i].resolvedToNs.value;
      if f > worst {
        worst := f;
      }
    }
    bounded := worst > 0;
  }

  // --------------------------------------------------------------- arm summary

  datatype Spread = Spread(runs: nat, mean: real, min: real, max: real)

  datatype Summary = Summary(
    arm: string, n: nat, duty: Option<real>, waste: Spread, wait: Spread, floor: real, bounded: bool)

  function WastesOf(ms: seq<Measurement>): seq<real> {
    if ms == [] then [] else WastesOf(ms[..|ms| - 1]) + [ms[|ms| - 1].wasted]
  }

  /** The owner waits of the runs whose owner came back, in seconds. */
  function WaitsOf(ms: seq<Measurement>): seq<real> {
    if ms == [] then []
    else
      var rest, last := WaitsOf(ms[..|ms| - 1]), ms[|ms| - 1].ownerWaitNs;
      if last.None? then rest else rest + [(last.value as real) / SECOND]
  }

  /** The count, mean and exact range of some figures; all zero when there are none. */
  ghost predicate Spreads(s: Spread, xs: seq<real>) {
    && s.runs == |xs|
    && (xs == [] ==> s == Spread(0, 0.0, 0.0, 0.0))
    && (xs != [] ==> s.mean == Mean(xs) && s.min in xs && s.max in xs)
    && forall x <- xs :: s.min <= x <= s.max
  }

  ghost predicate Summarises(s: Summary, arm: string, ms: seq<Measurement>) {
    && s.arm == arm && s.n == |ms| && |ms| > 0 && s.duty == ms[0].duty
    && Spreads(s.waste, WastesOf(ms)) && Spreads(s.wait, WaitsOf(ms))
    && (exists worst :: Pools(ms, worst, s.bounded) && s.floor == (worst as real) / SECOND)
  }

  lemma {:induction false} WastesAt(ms: seq<Measurement>)
    ensures |WastesOf(ms)| == |ms|
    ensures forall i :: 0 <= i < |ms| ==> WastesOf(ms)[i] == ms[i].wasted
  {
    if ms != [] {
      WastesAt(ms[..|ms| - 1]);
    }
  }

  /** The first loop of `summariseArm`. */
  method SpreadOfWaste(ms: seq<Measurement>) returns (s: Spread)
    requires ms != []
    ensures Spreads(s, WastesOf(ms))
  {
    var sum, min, max := 0.0, ms[0].wasted, ms[0].wasted;
    for i := 0 to |ms|
      invariant |WastesOf(ms[..i])| == i && sum == Total(WastesOf(ms[..i]))
      invariant i > 0 ==> min in WastesOf(ms[..i]) && max in WastesOf(ms[..i])
      invariant i == 0 ==> min == max == ms[0].wasted
      invariant forall x <- WastesOf(ms[..i]) :: min <= x <= max
    {
      assert ms[..i + 1][..i] == ms[..i];
      var w := ms[i].wasted;
      assert WastesOf(ms[..i + 1]) == WastesOf(ms[..i]) + [w];
      sum := sum + w;
      if w < min {
        min := w;
      }
      if w > max {
        max := w;
      }
    }
    assert ms[..|ms|] == ms;
    s := Spread(|ms|, sum / (|ms| as real), min, max);
  }

  /** The second loop: runs whose owner never came back are skipped and not counted. */
  method SpreadOfWait(ms: seq<Measurement>) returns (s: Spread)
    ensures Spreads(s, WaitsOf(ms))
  {
    var runs, sum, min, max := 0, 0.0, 0.0, 0.0;
    for i := 0 to |ms|
      invariant runs == |WaitsOf(ms[..i])| && sum == Total(WaitsOf(ms[..i]))
      invariant runs == 0 ==> min == max == 0.0
      invariant runs > 0 ==> min in WaitsOf(ms[..i]) && max in WaitsOf(ms[..i])
      invariant forall x <- WaitsOf(ms[..i]) :: min <= x <= max
    {
      assert ms[..i + 1][..i] == ms[..i];
      if ms[i].ownerWaitNs.Some? {
        var w := (ms[i].ownerWaitNs.value as real) / SECOND;
        assert WaitsOf(ms[..i + 1]) == WaitsOf(ms[..i]) + [w];
        if runs == 0 {
          min, max := w, w;
        }
        if w < min {
          min := w;
        }
        if w > max {
          max := w;
        }
        sum := sum + w;
        runs := runs + 1;
      }
    }
    assert ms[..|ms|] == ms;
    s := Spread(runs, if runs > 0 then sum / (runs as real) else 0.0, min, max);
  }

  method SummariseArm(arm: string, ms: seq<Measurement>) returns (s: Summary)
    requires ms != []
    ensures Summarises(s, arm, ms)
  {
    var waste := SpreadOfWaste(ms);
    var wait := SpreadOfWait(ms);
    var worst, bounded := PooledFloorNs(ms);
    s := Summary(arm, |ms|, ms[0].duty, waste, wait, (worst as real) / SECOND, bounded);
  }

  // ------------------------------------------------------------------ findings

  datatype Quantity = WastedGPUSeconds | OwnerAdmitToReady

  datatype Statement = Unbounded | InsideFloor | Quotable(confounded: bool) | SurvivorMean | NotComputed

  datatype Finding = Finding(
    quantity: Quantity, armA: string, armB: string, valueA: real, valueB: real, difference: real,
    resolved: bool, statement: Statement)

  /** The resolution of a difference is the sum of the two arms' floors. */
  function DifferenceFloor(a: Summary, b: Summary): Option<real> {
    if !a.bounded || !b.bounded then None else Some(a.floor + b.floor)
  }

  function Resolved(x: real, y: real, floor: Option<real>): bool {
    floor.Some? && ResolvesAgainst(SecondsToNs(Abs(x - y)), SecondsToNs(floor.value))
  }

  function Wording(floor: Option<real>, resolved: bool, interleaved: bool): Statement {
    if floor.None? then Unbounded else if !resolved then InsideFloor else Quotable(!interleaved)
  }

  function CompareWaste(a: Summary, b: Summary, interleaved: bool): Finding {
    var floor := DifferenceFloor(a, b);
    var resolved := Resolved(a.waste.mean, b.waste.mean, floor);
    Finding(WastedGPUSeconds, a.arm, b.arm, a.waste.mean, b.waste.mean, Abs(a.waste.mean - b.waste.mean),
            resolved, Wording(floor, resolved, interleaved))
  }

  function CompareOwnerWait(a: Summary, b: Summary, interleaved: bool): Finding {
    var floor := DifferenceFloor(a, b);
    if a.wait.runs == 0 || b.wait.runs == 0
    then Finding(OwnerAdmitToReady, a.arm, b.arm, 0.0, 0.0, 0.0, false, NotComputed)
    else
      var difference := Abs(a.wait.mean - b.wait.mean);
      if a.wait.runs < a.n || b.wait.runs < b.n
      then Finding(OwnerAdmitToReady, a.arm, b.arm, a.wait.mean, b.wait.mean, difference, false, SurvivorMean)
      else
        var resolved := Resolved(a.wait.mean, b.wait.mean, floor);
        Finding(OwnerAdmitToReady, a.arm, b.arm, a.wait.mean, b.wait.mean, difference,
                resolved, Wording(floor, resolved, interleaved))
  }

  // ----------------------------------------------------- soundness of a finding

  lemma TruncationIsMonotone(x: real, y: real)
    requires x >= 0.0 && y >= 0.0 && SecondsToNs(x) > SecondsToNs(y)
    ensures x > y
  {
    if x <= y {
      Scales(x, y);
    }
  }

  lemma Scales(x: real, y: real)
    requires x <= y
    ensures x * SECOND <= y * SECOND
  {
  }

  /** What the arms truly did: one true value per run, each within that run's own recorded floor. */
  ghost predicate TrueOf(xs: seq<real>, truths: seq<real>, ms: seq<Measurement>) {
    && |xs| == |truths| == |ms|
    && forall i :: 0 <= i < |ms| && ms[i].resolvedToNs.Some? ==>
                     Abs(xs[i] - truths[i]) <= (ms[i].resolvedToNs.value as real) / SECOND
  }

  lemma Coarsens(f: int, worst: int)
    requires f <= worst
    ensures (f as real) / SECOND <= (worst as real) / SECOND
  {
  }

  /** A bounded arm's mean is within the arm's floor of the true mean. */
  lemma ArmMeanWithinFloor(s: Summary, arm: string, ms: seq<Measurement>, xs: seq<real>, truths: seq<real>)
    requires Summarises(s, arm, ms) && s.bounded && TrueOf(xs, truths, ms)
    ensures Abs(Mean(xs) - Mean(truths)) <= s.floor && s.floor > 0.0
  {
    var worst :| Pools(ms, worst, s.bounded) && s.floor == (worst as real) / SECOND;
    forall i | 0 <= i < |ms| ensures Abs(xs[i] - truths[i]) <= s.floor {
      assert ms[i] in ms;
      Coarsens(ms[i].resolvedToNs.value, worst);
    }
    MeanWithin(xs, truths, s.floor);
  }

  /** Two means whose errors are within their floors are ordered as reported once the sum is exceeded. */
  lemma ResolvedMeansApart(x: real, y: real, trueX: real, trueY: real, e: real, d: real)
    requires e > 0.0 && d > 0.0 && Abs(x - trueX) <= e && Abs(y - trueY) <= d
    requires Resolved(x, y, Some(e + d))
    ensures if x > y then trueX > trueY else trueX < trueY
  {
    TruncationIsMonotone(Abs(x - y), e + d);
  }

  /** No survivor mean is compared: every run restored its owner, so every true wait is in the mean. */
  lemma {:induction false} AllRestored(ms: seq<Measurement>)
    ensures |WaitsOf(ms)| <= |ms|
    ensures |WaitsOf(ms)| == |ms| <==> (forall i :: 0 <= i < |ms| ==> ms[i].ownerWaitNs.Some?)
    ensures |WaitsOf(ms)| == |ms| ==>
              forall i :: 0 <= i < |ms| ==> WaitsOf(ms)[i] == (ms[i].ownerWaitNs.value as real) / SECOND
  {
    if ms != [] {
      var n := |ms| - 1;
      AllRestored(ms[..n]);
      assert forall i :: 0 <= i < n ==> ms[..n][i] == ms[i];
    }
  }

  /** The true arm means differ, in the order the finding reports. */
  ghost predicate TrulyApart(f: Finding, trueA: seq<real>, trueB: seq<real>)
    requires trueA != [] && trueB != []
  {
    if f.valueA > f.valueB then Mean(trueA) > Mean(trueB) else Mean(trueA) < Mean(trueB)
  }

  /**
    Resolution soundness: if every run's discarded seconds are within that run's own floor of the truth, a
    difference marked resolved is a true difference between the arms, in the reported order.
   */
  lemma ResolvedWasteIsReal(a: Summary, b: Summary, armA: string, armB: string, msA: seq<Measurement>,
                            msB: seq<Measurement>, trueA: seq<real>, trueB: seq<real>, interleaved: bool)
    requires Summarises(a, armA, msA) && Summarises(b, armB, msB)
    requires TrueOf(WastesOf(msA), trueA, msA) && TrueOf(WastesOf(msB), trueB, msB)
    requires CompareWaste(a, b, interleaved).resolved
    ensures TrulyApart(CompareWaste(a, b, interleaved), trueA, trueB)
  {
    ArmMeanWithinFloor(a, armA, msA, WastesOf(msA), trueA);
    ArmMeanWithinFloor(b, armB, msB, WastesOf(msB), trueB);
    ResolvedMeansApart(a.waste.mean, b.waste.mean, Mean(trueA), Mean(trueB), a.floor, b.floor);
  }

  /** The same for the owner's wait, which also needs that no run was left out of either mean. */
  lemma ResolvedWaitIsReal(a: Summary, b: Summary, armA: string, armB: string, msA: seq<Measurement>,
                           msB: seq<Measurement>, trueA: seq<real>, trueB: seq<real>, interleaved: bool)
    requires Summarises(a, armA, msA) && Summarises(b, armB, msB)
    requires CompareOwnerWait(a, b, interleaved).resolved
    ensures |WaitsOf(msA)| == |msA| && |WaitsOf(msB)| == |msB|
    ensures TrueOf(WaitsOf(msA), trueA, msA) && TrueOf(WaitsOf(msB), trueB, msB) ==>
              TrulyApart(CompareOwnerWait(a, b, interleaved), trueA, trueB)
  {
    AllRestored(msA);
    AllRestored(msB);
    if TrueOf(WaitsOf(msA), trueA, msA) && TrueOf(WaitsOf(msB), trueB, msB) {
      ArmMeanWithinFloor(a, armA, msA, WaitsOf(msA), trueA);
      ArmMeanWithinFloor(b, armB, msB, WaitsOf(msB), trueB);
      ResolvedMeansApart(a.wait.mean, b.wait.mean, Mean(trueA), Mean(trueB), a.floor, b.floor);
    }
  }

  lemma TruncationOfWhole(n: nat)
    ensures SecondsToNs((n as real) / SECOND) == n
  {
    assert ((n as real) / SECOND) * SECOND == n as real;
  }

  /** What "resolved" amounts to: one whole nanosecond past the sum of the two floors, and never less. */
  lemma ResolvedExactly(x: real, y: real, floorA: nat, floorB: nat)
    ensures Resolved(x, y, Some((floorA as real) / SECOND + (floorB as real) / SECOND))
            <==> Abs(x - y) * SECOND >= ((floorA + floorB + 1) as real)
  {
    var sum := floorA + floorB;
    assert (floorA as real) / SECOND + (floorB as real) / SECOND == (sum as real) / SECOND;
    TruncationOfWhole(sum);
    assert SecondsToNs(Abs(x - y)) == (Abs(x - y) * SECOND).Floor;
  }

  /** Which statement a finding carries: what could not be bounded, what was not resolved, what may be quoted. */
  ghost predicate Stated(f: Finding, bounded: bool, apart: bool, interleaved: bool) {
    && (f.resolved <==> bounded && apart)
    && (f.statement == Unbounded <==> !bounded)
    && (f.statement == InsideFloor <==> bounded && !apart)
    && (f.statement == Quotable(false) <==> bounded && apart && interleaved)
    && (f.statement == Quotable(true) <==> bounded && apart && !interleaved)
  }

  /** The figures lie at least one whole nanosecond further apart than the two coarsest floors together. */
  ghost predicate Apart(x: real, y: real, msA: seq<Measurement>, msB: seq<Measurement>) {
    exists p, q :: Pools(msA, p, true) && Pools(msB, q, true) && Abs(x - y) * SECOND >= ((p + q + 1) as real)
  }

  lemma PoolsOnce(ms: seq<Measurement>, p: int, q: int)
    requires Pools(ms, p, true) && Pools(ms, q, true)
    ensures p == q
  {
  }

  lemma ResolvedWhenApart(a: Summary, b: Summary, armA: string, armB: string, msA: seq<Measurement>,
                          msB: seq<Measurement>, x: real, y: real)
    requires Summarises(a, armA, msA) && Summarises(b, armB, msB)
    ensures DifferenceFloor(a, b).Some? <==> a.bounded && b.bounded
    ensures Resolved(x, y, DifferenceFloor(a, b)) <==> a.bounded && b.bounded && Apart(x, y, msA, msB)
  {
    var p :| Pools(msA, p, a.bounded) && a.floor == (p as real) / SECOND;
    var q :| Pools(msB, q, b.bounded) && b.floor == (q as real) / SECOND;
    if a.bounded && b.bounded {
      ResolvedExactly(x, y, p, q);
      if p', q' :| Pools(msA, p', true) && Pools(msB, q', true) && Abs(x - y) * SECOND >= ((p' + q' + 1) as real) {
        PoolsOnce(msA, p, p');
        PoolsOnce(msB, q, q');
      }
    }
  }

  /** The wording follows from whether the floor is bounded and the figures are apart. */
  lemma WordingStates(f: Finding, a: Summary, b: Summary, x: real, y: real, apart: bool, interleaved: bool)
    requires f.resolved == Resolved(x, y, DifferenceFloor(a, b))
    requires f.statement == Wording(DifferenceFloor(a, b), f.resolved, interleaved)
    requires Resolved(x, y, DifferenceFloor(a, b)) <==> a.bounded && b.bounded && apart
    ensures Stated(f, a.bounded && b.bounded, apart, interleaved)
  {
  }

  lemma SummarySays(s: Summary, arm: string, ms: seq<Measurement>)
    requires Summarises(s, arm, ms)
    ensures s.arm == arm && s.n == |ms| == |WastesOf(ms)| && s.wait.runs == |WaitsOf(ms)| <= |ms|
    ensures s.waste.mean == Mean(WastesOf(ms)) && (WaitsOf(ms) != [] ==> s.wait.mean == Mean(WaitsOf(ms)))
  {
    WastesAt(ms);
    AllRestored(ms);
  }

  /** The finding on the waste, of the two summaries. */
  ghost predicate WasteStated(f: Finding, a: Summary, b: Summary, apart: bool, interleaved: bool) {
    && f.quantity == WastedGPUSeconds && f.armA == a.arm && f.armB == b.arm
    && f.valueA == a.waste.mean && f.valueB == b.waste.mean && f.difference == Abs(a.waste.mean - b.waste.mean)
    && Stated(f, a.bounded && b.bounded, apart, interleaved)
  }

  lemma WasteFindingStates(a: Summary, b: Summary, apart: bool, interleaved: bool)
    requires Resolved(a.waste.mean, b.waste.mean, DifferenceFloor(a, b)) <==> a.bounded && b.bounded && apart
    ensures WasteStated(CompareWaste(a, b, interleaved), a, b, apart, interleaved)
  {
    WordingStates(CompareWaste(a, b, interleaved), a, b, a.waste.mean, b.waste.mean, apart, interleaved);
  }

  /** What the finding on the waste says of the two arms' runs. */
  lemma WasteFindingSays(a: Summary, b: Summary, armA: string, armB: string, msA: seq<Measurement>,
                         msB: seq<Measurement>, interleaved: bool)
    requires Summarises(a, armA, msA) && Summarises(b, armB, msB)
    ensures |WastesOf(msA)| == |msA| && |WastesOf(msB)| == |msB| && a.arm == armA && b.arm == armB
    ensures a.waste.mean == Mean(WastesOf(msA)) && b.waste.mean == Mean(WastesOf(msB))
    ensures WasteStated(CompareWaste(a, b, interleaved), a, b, Apart(a.waste.mean, b.waste.mean, msA, msB),
                        interleaved)
  {
    SummarySays(a, armA, msA);
    SummarySays(b, armB, msB);
    ResolvedWhenApart(a, b, armA, armB, msA, msB, a.waste.mean, b.waste.mean);
    WasteFindingStates(a, b, Apart(a.waste.mean, b.waste.mean, msA, msB), interleaved);
  }

  /** The finding on the wait, of the two summaries: every restored owner counts, and all of them must be. */
  ghost predicate WaitStated(f: Finding, a: Summary, b: Summary, apart: bool, interleaved: bool) {
    && f.quantity == OwnerAdmitToReady && f.armA == a.arm && f.armB == b.arm
    && (f.statement == NotComputed <==> a.wait.runs == 0 || b.wait.runs == 0)
    && (f.statement == SurvivorMean <==>
          a.wait.runs > 0 && b.wait.runs > 0 && (a.wait.runs < a.n || b.wait.runs < b.n))
    && (f.statement == NotComputed || f.statement == SurvivorMean ==> !f.resolved)
    && (f.statement != NotComputed ==>
          f.valueA == a.wait.mean && f.valueB == b.wait.mean && f.difference == Abs(a.wait.mean - b.wait.mean))
    && (f.statement != NotComputed && f.statement != SurvivorMean ==>
          Stated(f, a.bounded && b.bounded, apart, interleaved))
  }

  lemma WaitFindingStates(a: Summary, b: Summary, apart: bool, interleaved: bool)
    requires Resolved(a.wait.mean, b.wait.mean, DifferenceFloor(a, b)) <==> a.bounded && b.bounded && apart
    ensures WaitStated(CompareOwnerWait(a, b, interleaved), a, b, apart, interleaved)
  {
    if a.wait.runs != 0 && b.wait.runs != 0 && a.wait.runs >= a.n && b.wait.runs >= b.n {
      WordingStates(CompareOwnerWait(a, b, interleaved), a, b, a.wait.mean, b.wait.mean, apart, interleaved);
    }
  }

  /**
    What the finding on the owner's wait says: nothing where an arm has no owner back, no resolution where an
    arm has only some, and otherwise what the waste finding would say, of the mean of every restored wait.
   */
  lemma WaitFindingSays(a: Summary, b: Summary, armA: string, armB: string, msA: seq<Measurement>,
                        msB: seq<Measurement>, interleaved: bool)
    requires Summarises(a, armA, msA) && Summarises(b, armB, msB)
    ensures a.wait.runs == |WaitsOf(msA)| && b.wait.runs == |WaitsOf(msB)| && a.n == |msA| && b.n == |msB|
    ensures WaitsOf(msA) != [] ==> a.wait.mean == Mean(WaitsOf(msA))
    ensures WaitsOf(msB) != [] ==> b.wait.mean == Mean(WaitsOf(msB))
    ensures WaitStated(CompareOwnerWait(a, b, interleaved), a, b, Apart(a.wait.mean, b.wait.mean, msA, msB),
                       interleaved)
  {
    SummarySays(a, armA, msA);
    SummarySays(b, armB, msB);
    ResolvedWhenApart(a, b, armA, armB, msA, msB, a.wait.mean, b.wait.mean);
    WaitFindingStates(a, b, Apart(a.wait.mean, b.wait.mean, msA, msB), interleaved);
  }

  // ---------------------------------------------------------- comparing records

  datatype Refusal = TooFew | NotAdmissible | NoMeasurement | MixedDose | OneArm | MixedDuty

  datatype Comparison = Comparison(
    bounded: bool, worstFloor: real, interleaved: bool, deviceWork: bool, arms: seq<Summary>, findings: seq<Finding>)

  predicate Usable(recs: seq<Record>) {
    forall r <- recs :: r.admissible && r.measurement.Some? && r.dose == recs[0].dose
  }

  predicate OneDutyPerArm(recs: seq<Record>) {
    forall r <- recs, q <- recs ::
      r.measurement.Some? && q.measurement.Some? && r.arm == q.arm ==>
        r.measurement.value.duty == q.measurement.value.duty
  }

  /** The record sets a comparison is made from; every other set is refused whole. */
  predicate Comparable(recs: seq<Record>) {
    |recs| >= 2 && Usable(recs) && OneDutyPerArm(recs) && exists r <- recs :: r.arm != recs[0].arm
  }

  /** One arm's measurements, in the order the records were given. */
  function Of(recs: seq<Record>, arm: string): seq<Measurement> {
    if recs == [] then []
    else
      var rest, last := Of(recs[..|recs| - 1], arm), recs[|recs| - 1];
      if last.arm == arm && last.measurement.Some? then rest + [last.measurement.value] else rest
  }

  lemma {:induction false} OfIsMembership(recs: seq<Record>, arm: string, m: Measurement)
    ensures m in Of(recs, arm) <==> exists r <- recs :: r.arm == arm && r.measurement == Some(m)
  {
    if recs != [] {
      var rest, last := recs[..|recs| - 1], recs[|recs| - 1];
      OfIsMembership(rest, arm, m);
      assert recs == rest + [last];
      assert last in recs && forall r <- recs :: r in rest || r == last;
    }
  }

  lemma OfSome(recs: seq<Record>, r: Record)
    requires r in recs && r.measurement.Some?
    ensures r.measurement.value in Of(recs, r.arm)
  {
    OfIsMembership(recs, r.arm, r.measurement.value);
  }

  predicate UsableBeside(r: Record, first: Record) {
    r.admissible && r.measurement.Some? && r.dose == first.dose
  }

  /** The first record that cannot be used is refused for the first thing that is wrong with it. */
  predicate RefusedAt(recs: seq<Record>, i: int, why: Refusal) {
    && 0 <= i < |recs| && (forall k :: 0 <= k < i ==> UsableBeside(recs[k], recs[0]))
    && why == (if !recs[i].admissible then NotAdmissible
               else if recs[i].measurement.None? then NoMeasurement else MixedDose)
    && !UsableBeside(recs[i], recs[0])
  }

  method CheckUsable(recs: seq<Record>) returns (refused: Option<Refusal>)
    requires recs != []
    ensures refused.None? <==> Usable(recs)
    ensures refused.Some? ==> exists i :: RefusedAt(recs, i, refused.value)
  {
    for i := 0 to |recs|
      invariant forall k :: 0 <= k < i ==> UsableBeside(recs[k], recs[0])
    {
      assert recs[i] in recs;
      if !recs[i].admissible {
        assert RefusedAt(recs, i, NotAdmissible);
        return Some(NotAdmissible);
      }
      if recs[i].measurement.None? {
        assert RefusedAt(recs, i, NoMeasurement);
        return Some(NoMeasurement);
      }
      if recs[i].dose != recs[0].dose {
        assert RefusedAt(recs, i, MixedDose);
        return Some(MixedDose);
      }
    }
    refused := None;
  }

  predicate Distinct(names: seq<string>) {
    forall i, j :: 0 <= i < j < |names| ==> names[i] != names[j]
  }

  ghost predicate Groups(names: seq<string>, byArm: map<string, seq<Measurement>>, recs: seq<Record>) {
    && Distinct(names) && (forall a :: a in names <==> a in byArm)
    && (forall a :: a in byArm <==> Of(recs, a) != [])
    && (forall a <- byArm :: byArm[a] == Of(recs, a))
  }

  method AddRecord(names: seq<string>, byArm: map<string, seq<Measurement>>, r: Record, ghost recs: seq<Record>)
    returns (names': seq<string>, byArm': map<string, seq<Measurement>>)
    requires Groups(names, byArm, recs) && r.measurement.Some?
    ensures Groups(names', byArm', recs + [r])
  {
    assert (recs + [r])[..|recs|] == recs;
    assert forall a :: Of(recs + [r], a) == if a == r.arm then Of(recs, a) + [r.measurement.value] else Of(recs, a);
    if r.arm in byArm {
      names', byArm' := names, byArm[r.arm := byArm[r.arm] + [r.measurement.value]];
    } else {
      names', byArm' := names + [r.arm], byArm[r.arm := [r.measurement.value]];
    }
  }

  /** The records by arm, and the arms. */
  method GroupByArm(recs: seq<Record>) returns (names: seq<string>, byArm: map<string, seq<Measurement>>)
    requires forall r <- recs :: r.measurement.Some?
    ensures Groups(names, byArm, recs)
  {
    names, byArm := [], map[];
    for i := 0 to |recs|
      invariant Groups(names, byArm, recs[..i])
    {
      names, byArm := AddRecord(names, byArm, recs[i], recs[..i]);
      assert recs[..i + 1] == recs[..i] + [recs[i]];
    }
    assert recs[..|recs|] == recs;
  }

  method CheckDuty(ms: seq<Measurement>) returns (same: bool)
    requires ms != []
    ensures same <==> forall m <- ms, q <- ms :: m.duty == q.duty
  {
    for i := 1 to |ms|
      invariant forall k :: 0 <= k < i ==> ms[k].duty == ms[0].duty
    {
      if ms[0].duty != ms[i].duty {
        assert ms[0] in ms && ms[i] in ms;
        return false;
      }
    }
    same := true;
  }

  /** Grouped records have one duty per arm exactly when each group does. */
  lemma DutyByArm(recs: seq<Record>, names: seq<string>, byArm: map<string, seq<Measurement>>)
    requires Usable(recs) && Groups(names, byArm, recs)
    ensures OneDutyPerArm(recs) <==> forall a <- byArm :: forall m <- byArm[a], q <- byArm[a] :: m.duty == q.duty
  {
    if OneDutyPerArm(recs) {
      forall a, m, q | a in byArm && m in byArm[a] && q in byArm[a] ensures m.duty == q.duty {
        OfIsMembership(recs, a, m);
        OfIsMembership(recs, a, q);
      }
    } else {
      var r, q :| r in recs && q in recs && r.arm == q.arm && r.measurement.value.duty != q.measurement.value.duty;
      OfSome(recs, r);
      OfSome(recs, q);
      assert r.arm in byArm;
    }
  }

  lemma ArmNamed(recs: seq<Record>, names: seq<string>, byArm: map<string, seq<Measurement>>, r: Record)
    requires Usable(recs) && Groups(names, byArm, recs) && r in recs
    ensures r.arm in names
  {
    OfSome(recs, r);
  }

  /** An arm with a measurement has a record. */
  lemma {:induction false} RecordOf(recs: seq<Record>, arm: string) returns (r: Record)
    requires Of(recs, arm) != []
    ensures r in recs && r.arm == arm
  {
    var rest, last := recs[..|recs| - 1], recs[|recs| - 1];
    if last.arm == arm {
      r := last;
    } else {
      r := RecordOf(rest, arm);
    }
  }

  lemma SecondArm(recs: seq<Record>, names: seq<string>, byArm: map<string, seq<Measurement>>) returns (r: Record)
    requires recs != [] && Groups(names, byArm, recs) && |names| >= 2
    ensures r in recs && r.arm != recs[0].arm
  {
    var a := if names[0] == recs[0].arm then names[1] else names[0];
    assert a in names && a in byArm;
    r := RecordOf(recs, a);
  }

  lemma OnlyArm(recs: seq<Record>, names: seq<string>, byArm: map<string, seq<Measurement>>, r: Record)
    requires Usable(recs) && Groups(names, byArm, recs) && |names| < 2 && r in recs
    ensures r.arm == recs[0].arm
  {
    ArmNamed(recs, names, byArm, recs[0]);
    ArmNamed(recs, names, byArm, r);
    OneName(names, r.arm, recs[0].arm);
  }

  lemma OneName(names: seq<string>, a: string, b: string)
    requires |names| < 2 && a in names && b in names
    ensures a == b
  {
  }

  /** Two arms in the map are two arms among the records. */
  lemma TwoArms(recs: seq<Record>, names: seq<string>, byArm: map<string, seq<Measurement>>)
    requires recs != [] && Usable(recs) && Groups(names, byArm, recs)
    ensures |names| >= 2 <==> exists r <- recs :: r.arm != recs[0].arm
  {
    if |names| >= 2 {
      var r := SecondArm(recs, names, byArm);
    } else if r :| r in recs && r.arm != recs[0].arm {
      OnlyArm(recs, names, byArm, r);
    }
  }

  method CheckDuties(names: seq<string>, byArm: map<string, seq<Measurement>>) returns (same: bool)
    requires forall a <- byArm :: byArm[a] != []
    requires forall a :: a in names <==> a in byArm
    ensures same <==> forall a <- byArm :: forall m <- byArm[a], q <- byArm[a] :: m.duty == q.duty
  {
    for i := 0 to |names|
      invariant forall k :: 0 <= k < i ==> forall m <- byArm[names[k]], q <- byArm[names[k]] :: m.duty == q.duty
    {
      assert names[i] in byArm;
      same := CheckDuty(byArm[names[i]]);
      if !same {
        return;
      }
    }
    same := true;
  }

  /** The arms, each summarising exactly the records that are its own. */
  ghost predicate Describes(arms: seq<Summary>, recs: seq<Record>) {
    && (forall i, j :: 0 <= i < j < |arms| ==> arms[i].arm != arms[j].arm)
    && (forall s <- arms :: Summarises(s, s.arm, Of(recs, s.arm)))
    && (forall r <- recs :: exists s <- arms :: s.arm == r.arm)
  }

  method SummariseAll(names: seq<string>, byArm: map<string, seq<Measurement>>, ghost recs: seq<Record>)
    returns (arms: seq<Summary>)
    requires Usable(recs) && Groups(names, byArm, recs)
    ensures Describes(arms, recs) && |arms| == |names|
  {
    arms := [];
    for i := 0 to |names|
      invariant |arms| == i
      invariant forall k :: 0 <= k < i ==> arms[k].arm == names[k]
      invariant forall k :: 0 <= k < i ==> Summarises(arms[k], names[k], Of(recs, names[k]))
    {
      assert names[i] in byArm;
      var s := SummariseArm(names[i], byArm[names[i]]);
      arms := arms + [s];
    }
    forall r | r in recs ensures exists s <- arms :: s.arm == r.arm {
      ArmNamed(recs, names, byArm, r);
      var k :| 0 <= k < |names| && names[k] == r.arm;
      assert arms[k] in arms;
    }
  }

  /** The findings of arm `i` against the arms before `j` that follow it. */
  function FindingsFrom(arms: seq<Summary>, interleaved: bool, i: nat, j: nat): seq<Finding>
    requires i < j <= |arms|
  {
    if j == i + 1 then []
    else FindingsFrom(arms, interleaved, i, j - 1) +
         [CompareWaste(arms[i], arms[j - 1], interleaved), CompareOwnerWait(arms[i], arms[j - 1], interleaved)]
  }

  function FindingsOf(arms: seq<Summary>, interleaved: bool, n: nat): seq<Finding>
    requires n <= |arms|
  {
    if n == 0 then [] else FindingsOf(arms, interleaved, n - 1) + FindingsFrom(arms, interleaved, n - 1, |arms|)
  }

  /** The nested loops over the pairs of arms. */
  method AllFindings(arms: seq<Summary>, interleaved: bool) returns (findings: seq<Finding>)
    ensures findings == FindingsOf(arms, interleaved, |arms|)
  {
    findings := [];
    for i := 0 to |arms|
      invariant findings == FindingsOf(arms, interleaved, i)
    {
      ghost var before := findings;
      for j := i + 1 to |arms|
        invariant findings == before + FindingsFrom(arms, interleaved, i, j)
      {
        findings := findings + [CompareWaste(arms[i], arms[j], interleaved)];
        findings := findings + [CompareOwnerWait(arms[i], arms[j], interleaved)];
      }
    }
  }

  predicate Compares(f: Finding, a: Summary, b: Summary, interleaved: bool) {
    f == CompareWaste(a, b, interleaved) || f == CompareOwnerWait(a, b, interleaved)
  }

  lemma {:induction false} FindingsFromPairs(arms: seq<Summary>, interleaved: bool, i: nat, j: nat, f: Finding)
    requires i < j <= |arms|
    ensures f in FindingsFrom(arms, interleaved, i, j)
            <==> exists k :: i < k < j && Compares(f, arms[i], arms[k], interleaved)
  {
    if i + 1 < j {
      FindingsFromPairs(arms, interleaved, i, j - 1, f);
      InTwoMore(FindingsFrom(arms, interleaved, i, j - 1), CompareWaste(arms[i], arms[j - 1], interleaved),
                CompareOwnerWait(arms[i], arms[j - 1], interleaved), f);
    }
  }

  lemma InTwoMore(a: seq<Finding>, w: Finding, o: Finding, f: Finding)
    ensures f in a + [w, o] <==> f in a || f == w || f == o
  {
  }

  predicate Reports(arms: seq<Summary>, interleaved: bool, i: int, k: int, f: Finding) {
    0 <= i < k < |arms| && Compares(f, arms[i], arms[k], interleaved)
  }

  lemma {:induction false} FindingIsReported(arms: seq<Summary>, interleaved: bool, n: nat, f: Finding)
    returns (i: int, k: int)
    requires n <= |arms| && f in FindingsOf(arms, interleaved, n)
    ensures i < n && Reports(arms, interleaved, i, k, f)
  {
    if f in FindingsOf(arms, interleaved, n - 1) {
      i, k := FindingIsReported(arms, interleaved, n - 1, f);
    } else {
      FindingsFromReports(arms, interleaved, n - 1, f);
      i := n - 1;
      k :| Reports(arms, interleaved, i, k, f);
    }
  }

  lemma {:induction false} ReportedIsFinding(arms: seq<Summary>, interleaved: bool, n: nat, i: int, k: int, f: Finding)
    requires i < n <= |arms| && Reports(arms, interleaved, i, k, f)
    ensures f in FindingsOf(arms, interleaved, n)
  {
    if i < n - 1 {
      ReportedIsFinding(arms, interleaved, n - 1, i, k, f);
    } else {
      FindingsFromReports(arms, interleaved, i, f);
    }
    InEither(FindingsOf(arms, interleaved, n - 1), FindingsFrom(arms, interleaved, n - 1, |arms|), f);
  }

  lemma InEither(a: seq<Finding>, b: seq<Finding>, f: Finding)
    ensures f in a + b <==> f in a || f in b
  {
  }

  /** Every pair of arms is compared on both quantities, and nothing else is reported. */
  lemma FindingsArePairs(arms: seq<Summary>, interleaved: bool, f: Finding)
    ensures f in FindingsOf(arms, interleaved, |arms|) <==> exists i, k :: Reports(arms, interleaved, i, k, f)
  {
    if f in FindingsOf(arms, interleaved, |arms|) {
      var i, k := FindingIsReported(arms, interleaved, |arms|, f);
    }
    if i, k :| Reports(arms, interleaved, i, k, f) {
      ReportedIsFinding(arms, interleaved, |arms|, i, k, f);
    }
  }

  lemma FindingsFromReports(arms: seq<Summary>, interleaved: bool, i: nat, f: Finding)
    requires i < |arms|
    ensures f in FindingsFrom(arms, interleaved, i, |arms|) <==> exists k :: Reports(arms, interleaved, i, k, f)
  {
    FindingsFromPairs(arms, interleaved, i, |arms|, f);
    if k :| i < k < |arms| && Compares(f, arms[i], arms[k], interleaved) {
      assert Reports(arms, interleaved, i, k, f);
    }
  }

  function RunsOf(recs: seq<Record>): seq<Interleave.Run> {
    seq(|recs|, i requires 0 <= i < |recs| => Interleave.Run(recs[i].startedAt, recs[i].arm))
  }

  function MeasurementsOf(recs: seq<Record>): seq<Measurement>
    requires forall r <- recs :: r.measurement.Some?
  {
    seq(|recs|, i requires 0 <= i < |recs| => assert recs[i] in recs; recs[i].measurement.value)
  }

  method PooledDeviceEvidence(recs: seq<Record>) returns (observed: bool)
    ensures observed <==> forall r <- recs :: r.deviceWork
  {
    for i := 0 to |recs|
      invariant forall k :: 0 <= k < i ==> recs[k].deviceWork
    {
      if !recs[i].deviceWork {
        assert recs[i] in recs;
        return false;
      }
    }
    observed := true;
  }

  /** The coarsest floor of the whole record set, in seconds. */
  ghost predicate FloorIs(recs: seq<Record>, floor: real, bounded: bool) {
    && (forall r <- recs :: r.measurement.Some?)
    && exists worst :: Pools(MeasurementsOf(recs), worst, bounded) && floor == (worst as real) / SECOND
  }

  method WorstRunFloor(recs: seq<Record>) returns (floor: real, bounded: bool)
    requires forall r <- recs :: r.measurement.Some?
    ensures FloorIs(recs, floor, bounded)
  {
    var worst: int;
    worst, bounded := PooledFloorNs(MeasurementsOf(recs));
    floor := (worst as real) / SECOND;
  }

  ghost predicate InterleavedAs(recs: seq<Record>, interleaved: bool) {
    Interleave.Parseable(RunsOf(recs)) && Interleave.DistinctTimes(RunsOf(recs)) ==>
      (interleaved <==> Interleave.Revisited(RunsOf(recs)))
  }

  method ArmsInterleave(recs: seq<Record>) returns (interleaved: bool)
    ensures InterleavedAs(recs, interleaved)
  {
    interleaved := Interleave.ArmsInterleaveBy(RunsOf(recs));
  }

  /** A comparison that says of the records what each of its parts is for. */
  ghost predicate Builds(c: Comparison, recs: seq<Record>) {
    && Describes(c.arms, recs)
    && c.findings == FindingsOf(c.arms, c.interleaved, |c.arms|)
    && FloorIs(recs, c.worstFloor, c.bounded)
    && (c.deviceWork <==> forall r <- recs :: r.deviceWork)
    && InterleavedAs(recs, c.interleaved)
  }

  /** The arms and the findings over them. */
  method ArmsAndFindings(recs: seq<Record>, names: seq<string>, byArm: map<string, seq<Measurement>>, il: bool)
    returns (arms: seq<Summary>, findings: seq<Finding>)
    requires Usable(recs) && Groups(names, byArm, recs)
    ensures Describes(arms, recs) && |arms| == |names| && findings == FindingsOf(arms, il, |arms|)
  {
    arms := SummariseAll(names, byArm, recs);
    findings := AllFindings(arms, il);
  }

  method BuildComparison(recs: seq<Record>, names: seq<string>, byArm: map<string, seq<Measurement>>)
    returns (c: Comparison)
    requires Usable(recs) && Groups(names, byArm, recs)
    ensures Builds(c, recs) && |c.arms| == |names|
  {
    var floor, bounded := WorstRunFloor(recs);
    var interleaved := ArmsInterleave(recs);
    var deviceWork := PooledDeviceEvidence(recs);
    var arms, findings := ArmsAndFindings(recs, names, byArm, interleaved);
    c := Comparison(bounded, floor, interleaved, deviceWork, arms, findings);
  }

  /** A record set is compared exactly when it is comparable; otherwise it is refused, never narrowed. */
  /** Why these records are refused: the gates in order, the first that fails names the refusal. */
  ghost predicate RefusedFor(recs: seq<Record>, why: Refusal) {
    if |recs| < 2 then why == TooFew
    else if !Usable(recs) then exists i :: RefusedAt(recs, i, why)
    else if forall r <- recs :: r.arm == recs[0].arm then why == OneArm
    else why == MixedDuty && !OneDutyPerArm(recs)
  }

  method CompareRecords(recs: seq<Record>) returns (r: Result<Comparison, Refusal>)
    ensures r.Ok? <==> Comparable(recs)
    ensures r.Ok? ==> |r.value.arms| >= 2 && Builds(r.value, recs)
    ensures r.Err? ==> RefusedFor(recs, r.error)
  {
    if |recs| < 2 {
      return Err(TooFew);
    }
    var refused := CheckUsable(recs);
    if refused.Some? {
      return Err(refused.value);
    }
    var names, byArm := GroupByArm(recs);
    TwoArms(recs, names, byArm);
    if |names| < 2 {
      return Err(OneArm);
    }
    var same := CheckDuties(names, byArm);
    DutyByArm(recs, names, byArm);
    if !same {
      return Err(MixedDuty);
    }
    var c := BuildComparison(recs, names, byArm);
    r := Ok(c);
  }

  // ---------------------------------------------- soundness of a whole comparison

  /** The true values of one arm's runs, in the order of its measurements. */
  function TruthsOf(recs: seq<Record>, truths: seq<real>, arm: string): seq<real>
    requires |recs| == |truths|
  {
    if recs == [] then []
    else
      var n := |recs| - 1;
      var rest := TruthsOf(recs[..n], truths[..n], arm);
      if recs[n].arm == arm && recs[n].measurement.Some? then rest + [truths[n]] else rest
  }

  predicate WasteWithin(m: Measurement, truth: real) {
    m.resolvedToNs.Some? ==> Abs(m.wasted - truth) <= (m.resolvedToNs.value as real) / SECOND
  }

  ghost predicate WithinOwnFloors(recs: seq<Record>, truths: seq<real>) {
    && |recs| == |truths|
    && forall i :: 0 <= i < |recs| && recs[i].measurement.Some? ==> WasteWithin(recs[i].measurement.value, truths[i])
  }

  lemma {:induction false} ArmTruths(recs: seq<Record>, truths: seq<real>, arm: string)
    requires WithinOwnFloors(recs, truths)
    ensures TrueOf(WastesOf(Of(recs, arm)), TruthsOf(recs, truths, arm), Of(recs, arm))
  {
    WastesAt(Of(recs, arm));
    if recs != [] {
      var n := |recs| - 1;
      var rest := Of(recs[..n], arm);
      ArmTruths(recs[..n], truths[..n], arm);
      WastesAt(rest);
    }
  }

  /**
    Whatever the records are, if each run's figure is within its own floor of what truly happened, then every
    resolved finding about discarded work orders the arms as they truly are.
   */
  lemma ComparisonIsSound(recs: seq<Record>, truths: seq<real>, c: Comparison, f: Finding)
    requires Describes(c.arms, recs) && c.findings == FindingsOf(c.arms, c.interleaved, |c.arms|)
    requires WithinOwnFloors(recs, truths)
    ensures f in c.findings && f.quantity == WastedGPUSeconds && f.resolved ==>
              && TruthsOf(recs, truths, f.armA) != [] && TruthsOf(recs, truths, f.armB) != []
              && TrulyApart(f, TruthsOf(recs, truths, f.armA), TruthsOf(recs, truths, f.armB))
  {
    if f in c.findings && f.quantity == WastedGPUSeconds && f.resolved {
      var a, b := ComparedPair(c, f);
      PairIsSound(recs, truths, a, b, c.interleaved);
    }
  }

  lemma ComparedPair(c: Comparison, f: Finding) returns (a: Summary, b: Summary)
    requires c.findings == FindingsOf(c.arms, c.interleaved, |c.arms|) && f in c.findings
    requires f.quantity == WastedGPUSeconds
    ensures a in c.arms && b in c.arms && f == CompareWaste(a, b, c.interleaved)
  {
    var i, j := FindingIsReported(c.arms, c.interleaved, |c.arms|, f);
    a, b := c.arms[i], c.arms[j];
  }

  lemma PairIsSound(recs: seq<Record>, truths: seq<real>, a: Summary, b: Summary, interleaved: bool)
    requires Summarises(a, a.arm, Of(recs, a.arm)) && Summarises(b, b.arm, Of(recs, b.arm))
    requires WithinOwnFloors(recs, truths) && CompareWaste(a, b, interleaved).resolved
    ensures TruthsOf(recs, truths, a.arm) != [] && TruthsOf(recs, truths, b.arm) != []
    ensures TrulyApart(CompareWaste(a, b, interleaved), TruthsOf(recs, truths, a.arm), TruthsOf(recs, truths, b.arm))
  {
    ArmTruths(recs, truths, a.arm);
    ArmTruths(recs, truths, b.arm);
    ResolvedWasteIsReal(a, b, a.arm, b.arm, Of(recs, a.arm), Of(recs, b.arm),
                        TruthsOf(recs, truths, a.arm), TruthsOf(recs, truths, b.arm), interleaved);
  }

  ghost predicate WaitsWithinOwnFloors(recs: seq<Record>, truths: seq<real>) {
    && |recs| == |truths|
    && forall i :: 0 <= i < |recs| && recs[i].measurement.Some? ==> WaitWithin(recs[i].measurement.value, truths[i])
  }

  predicate WaitWithin(m: Measurement, truth: real) {
    m.ownerWaitNs.Some? && m.resolvedToNs.Some? ==>
      Abs((m.ownerWaitNs.value as real) / SECOND - truth) <= (m.resolvedToNs.value as real) / SECOND
  }

  lemma {:induction false} ArmWaitTruths(recs: seq<Record>, truths: seq<real>, arm: string)
    requires WaitsWithinOwnFloors(recs, truths)
    ensures |TruthsOf(recs, truths, arm)| == |Of(recs, arm)|
    ensures forall i :: 0 <= i < |Of(recs, arm)| ==> WaitWithin(Of(recs, arm)[i], TruthsOf(recs, truths, arm)[i])
  {
    if recs != [] {
      var n := |recs| - 1;
      ArmWaitTruths(recs[..n], truths[..n], arm);
    }
  }

  lemma AllWaitsTrue(recs: seq<Record>, truths: seq<real>, arm: string)
    requires WaitsWithinOwnFloors(recs, truths) && |WaitsOf(Of(recs, arm))| == |Of(recs, arm)|
    ensures TrueOf(WaitsOf(Of(recs, arm)), TruthsOf(recs, truths, arm), Of(recs, arm))
  {
    ArmWaitTruths(recs, truths, arm);
    WaitsAreTrue(Of(recs, arm), TruthsOf(recs, truths, arm));
  }

  lemma WaitsAreTrue(ms: seq<Measurement>, truths: seq<real>)
    requires |truths| == |ms| == |WaitsOf(ms)| && forall i :: 0 <= i < |ms| ==> WaitWithin(ms[i], truths[i])
    ensures TrueOf(WaitsOf(ms), truths, ms)
  {
    AllRestored(ms);
    forall i | 0 <= i < |ms| && ms[i].resolvedToNs.Some?
      ensures Abs(WaitsOf(ms)[i] - truths[i]) <= (ms[i].resolvedToNs.value as real) / SECOND
    {
      assert WaitWithin(ms[i], truths[i]);
    }
  }

  /** Two arms whose waits are resolved: no survivor mean is, and what is resolved is true. */
  lemma WaitPairIsSound(recs: seq<Record>, truths: seq<real>, a: Summary, b: Summary, interleaved: bool)
    requires Summarises(a, a.arm, Of(recs, a.arm)) && Summarises(b, b.arm, Of(recs, b.arm))
    requires WaitsWithinOwnFloors(recs, truths)
    ensures CompareOwnerWait(a, b, interleaved).resolved ==>
              && TruthsOf(recs, truths, a.arm) != [] && TruthsOf(recs, truths, b.arm) != []
              && TrulyApart(CompareOwnerWait(a, b, interleaved),
                            TruthsOf(recs, truths, a.arm), TruthsOf(recs, truths, b.arm))
  {
    if CompareOwnerWait(a, b, interleaved).resolved {
      var trueA, trueB := TruthsOf(recs, truths, a.arm), TruthsOf(recs, truths, b.arm);
      ResolvedWaitIsReal(a, b, a.arm, b.arm, Of(recs, a.arm), Of(recs, b.arm), trueA, trueB, interleaved);
      AllWaitsTrue(recs, truths, a.arm);
      AllWaitsTrue(recs, truths, b.arm);
    }
  }

  lemma WaitFindingIsSound(recs: seq<Record>, truths: seq<real>, a: Summary, b: Summary, interleaved: bool, f: Finding)
    requires Summarises(a, a.arm, Of(recs, a.arm)) && Summarises(b, b.arm, Of(recs, b.arm))
    requires WaitsWithinOwnFloors(recs, truths)
    requires f == CompareOwnerWait(a, b, interleaved) && f.resolved
    ensures TruthsOf(recs, truths, f.armA) != [] && TruthsOf(recs, truths, f.armB) != []
    ensures TrulyApart(f, TruthsOf(recs, truths, f.armA), TruthsOf(recs, truths, f.armB))
  {
    WaitPairIsSound(recs, truths, a, b, interleaved);
  }

  lemma ComparedWaitPair(c: Comparison, f: Finding) returns (a: Summary, b: Summary)
    requires c.findings == FindingsOf(c.arms, c.interleaved, |c.arms|) && f in c.findings
    requires f.quantity == OwnerAdmitToReady
    ensures a in c.arms && b in c.arms && f == CompareOwnerWait(a, b, c.interleaved)
  {
    var i, j := FindingIsReported(c.arms, c.interleaved, |c.arms|, f);
    a, b := c.arms[i], c.arms[j];
  }

  /**
    The same of the owner's waits: every resolved finding of a comparison is over arms in which every run
    restored its owner, and orders the arms as they truly are.
   */
  lemma WaitComparisonIsSound(recs: seq<Record>, truths: seq<real>, c: Comparison, f: Finding)
    requires Describes(c.arms, recs) && c.findings == FindingsOf(c.arms, c.interleaved, |c.arms|)
    requires WaitsWithinOwnFloors(recs, truths)
    ensures f in c.findings && f.quantity == OwnerAdmitToReady && f.resolved ==>
              && TruthsOf(recs, truths, f.armA) != [] && TruthsOf(recs, truths, f.armB) != []
              && TrulyApart(f, TruthsOf(recs, truths, f.armA), TruthsOf(recs, truths, f.armB))
  {
    if f in c.findings && f.quantity == OwnerAdmitToReady && f.resolved {
      var a, b := ComparedWaitPair(c, f);
      WaitFindingIsSound(recs, truths, a, b, c.interleaved, f);
    }
  }
}
