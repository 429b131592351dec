/**
  Whether an acquired worker is a machine the run may measure on, from cmd/queuelabrun/qualify.go: how many
  devices the run needs, who already holds devices, and the exact-capacity gate.
 */
module Qualify {
  import opened Common

  // ------------------------------------------------------------ what a run needs

  datatype Quota = Quota(resource: string, nominal: int)
  datatype FlavorQuotas = FlavorQuotas(flavor: string, resources: seq<Quota>)
  datatype Queue = Queue(groups: seq<seq<FlavorQuotas>>)
  datatype Fixtures = Fixtures(flavor: Option<string>, queues: seq<Option<Queue>>)

  const GPU := "nvidia.com/gpu"

  datatype BoundBy = QuotaSum | LargestRow
  datatype Requirement = Requirement(total: int, boundBy: BoundBy)
  datatype SizingError = NoFlavor | NothingRequested

  function OfResources(rs: seq<Quota>): int {
    if rs == [] then 0
    else OfResources(rs[..|rs| - 1]) + (if rs[|rs| - 1].resource == GPU then rs[|rs| - 1].nominal else 0)
  }

  function OfFlavors(fs: seq<FlavorQuotas>, flavor: string): int {
    if fs == [] then 0
    else OfFlavors(fs[..|fs| - 1], flavor) +
         (if fs[|fs| - 1].flavor == flavor then OfResources(fs[|fs| - 1].resources) else 0)
  }

  function OfGroups(gs: seq<seq<FlavorQuotas>>, flavor: string): int {
    if gs == [] then 0 else OfGroups(gs[..|gs| - 1], flavor) + OfFlavors(gs[|gs| - 1], flavor)
  }

  /** The device quota of all the queues on one flavor. */
  function OfQueues(qs: seq<Option<Queue>>, flavor: string): int {
    if qs == [] then 0
    else OfQueues(qs[..|qs| - 1], flavor) +
         (if qs[|qs| - 1].Some? then OfGroups(qs[|qs| - 1].value.groups, flavor) else 0)
  }

  method SumResources(rs: seq<Quota>) returns (sum: int)
    ensures sum == OfResources(rs)
  {
    sum := 0;
    for i := 0 to |rs|
      invariant sum == OfResources(rs[..i])
    {
      assert rs[..i + 1][..i] == rs[..i];
      if rs[i].resource == GPU {
        sum := sum + rs[i].nominal;
      }
    }
    assert rs[..|rs|] == rs;
  }

  method SumFlavors(fs: seq<FlavorQuotas>, flavor: string) returns (sum: int)
    ensures sum == OfFlavors(fs, flavor)
  {
    sum := 0;
    for i := 0 to |fs|
      invariant sum == OfFlavors(fs[..i], flavor)
    {
      assert fs[..i + 1][..i] == fs[..i];
      if fs[i].flavor == flavor {
        var s := SumResources(fs[i].resources);
        sum := sum + s;
      }
    }
    assert fs[..|fs|] == fs;
  }

  method SumQueues(qs: seq<Option<Queue>>, flavor: string) returns (sum: int)
    ensures sum == OfQueues(qs, flavor)
  {
    sum := 0;
    for i := 0 to |qs|
      invariant sum == OfQueues(qs[..i], flavor)
    {
      assert qs[..i + 1][..i] == qs[..i];
      if qs[i].Some? {
        var gs, before := qs[i].value.groups, sum;
        for k := 0 to |gs|
          invariant sum == before + OfGroups(gs[..k], flavor)
        {
          assert gs[..k + 1][..k] == gs[..k];
          var s := SumFlavors(gs[k], flavor);
          sum := sum + s;
        }
        assert gs[..|gs|] == gs;
      }
    }
    assert qs[..|qs|] == qs;
  }

  /** The least count that is at least one, the quota sum, and every row of the trace. */
  ghost predicate Needs(total: int, fixtures: Fixtures, rows: seq<nat>)
    requires fixtures.flavor.Some?
  {
    var sum := OfQueues(fixtures.queues, fixtures.flavor.value);
    && total >= 1 && total >= sum
    && (forall n <- rows :: total >= n)
    && (total == sum || total in rows)
  }

  /** `requiredGPU`: the larger of the two lower bounds, the sum on a tie; refused when neither asks for any. */
  method RequiredGPU(fixtures: Option<Fixtures>, rows: seq<nat>) returns (r: Result<Requirement, SizingError>)
    ensures r == Err(NoFlavor) <==> fixtures.None? || fixtures.value.flavor.None?
    ensures r == Err(NothingRequested) <==>
              && fixtures.Some? && fixtures.value.flavor.Some?
              && OfQueues(fixtures.value.queues, fixtures.value.flavor.value) < 1 && forall n <- rows :: n == 0
    ensures r.Ok? ==> fixtures.Some? && fixtures.value.flavor.Some? && Needs(r.value.total, fixtures.value, rows)
    ensures r.Ok? ==> (r.value.boundBy == QuotaSum <==>
                         r.value.total == OfQueues(fixtures.value.queues, fixtures.value.flavor.value))
  {
    if fixtures.None? || fixtures.value.flavor.None? {
      return Err(NoFlavor);
    }
    var sum := SumQueues(fixtures.value.queues, fixtures.value.flavor.value);
    var largest := 0;
    for i := 0 to |rows|
      invariant forall k :: 0 <= k < i ==> rows[k] <= largest
      invariant largest > 0 ==> largest in rows[..i]
    {
      if rows[i] > largest {
        largest := rows[i];
      }
    }
    assert rows[..|rows|] == rows;
    var req := if largest > sum then Requirement(largest, LargestRow) else Requirement(sum, QuotaSum);
    r := if req.total < 1 then Err(NothingRequested) else Ok(req);
  }

  // --------------------------------------------------------------- what a Pod holds

  /** One container's device counts, where it names them. */
  datatype Container = Container(request: Option<int>, limit: Option<int>, restartable: bool)

  datatype Phase = Pending | Running | Succeeded | Failed | Unknown

  datatype Pod = Pod(
    name: string, node: string, phase: Phase, terminating: bool, occupier: bool,
    containers: seq<Container>, initContainers: seq<Container>)

  /** The request, or the limit it defaults to. */
  function GpuOf(c: Container): int {
    if c.request.Some? then c.request.value else if c.limit.Some? then c.limit.value else 0
  }

  function SumOf(cs: seq<Container>): int {
    if cs == [] then 0 else SumOf(cs[..|cs| - 1]) + GpuOf(cs[|cs| - 1])
  }

  /** The container asks for a device: by its request, or by its limit where it names no request. */
  predicate Asks(c: Container) {
    || (c.request.Some? && c.request.value > 0)
    || (c.request.None? && c.limit.Some? && c.limit.value > 0)
  }

  predicate NonNegative(cs: seq<Container>) {
    forall c <- cs ::
      && (c.request.Some? ==> c.request.value >= 0)
      && (c.request.None? && c.limit.Some? ==> c.limit.value >= 0)
  }

  /** The container names this count, by its request or by the limit a missing request defaults to. */
  predicate Names(c: Container, n: int) {
    c.request == Some(n) || (c.request.None? && c.limit == Some(n))
  }

  /** A container adds the count it names beside the others, an init container replaces a smaller one. */
  lemma CountedAsNamed(cs: seq<Container>, c: Container, n: int)
    requires Names(c, n)
    ensures SumOf(cs + [c]) == SumOf(cs) + n
    ensures LargestOf(cs + [c]) == if n > LargestOf(cs) then n else LargestOf(cs)
  {
    assert (cs + [c])[..|cs|] == cs;
  }

  /** One that names none adds nothing. */
  lemma UncountedUnlessNamed(cs: seq<Container>, c: Container)
    requires c.request.None? && c.limit.None?
    ensures SumOf(cs + [c]) == SumOf(cs) && LargestOf(cs + [c]) == LargestOf(cs)
  {
    assert (cs + [c])[..|cs|] == cs;
    LargestPositive(cs);
  }

  function LargestOf(cs: seq<Container>): int {
    if cs == [] then 0
    else
      var rest, last := LargestOf(cs[..|cs| - 1]), GpuOf(cs[|cs| - 1]);
      if last > rest then last else rest
  }

  function Requested(p: Pod): int {
    var sum, largest := SumOf(p.containers), LargestOf(p.initContainers);
    if largest > sum then largest else sum
  }

  method PodGPURequest(p: Pod) returns (n: int)
    ensures n == Requested(p)
  {
    var regular, largest := 0, 0;
    for i := 0 to |p.containers|
      invariant regular == SumOf(p.containers[..i])
    {
      assert p.containers[..i + 1][..i] == p.containers[..i];
      regular := regular + GpuOf(p.containers[i]);
    }
    assert p.containers[..|p.containers|] == p.containers;
    for i := 0 to |p.initContainers|
      invariant largest == LargestOf(p.initContainers[..i])
    {
      assert p.initContainers[..i + 1][..i] == p.initContainers[..i];
      var v := GpuOf(p.initContainers[i]);
      if v > largest {
        largest := v;
      }
    }
    assert p.initContainers[..|p.initContainers|] == p.initContainers;
    n := if largest > regular then largest else regular;
  }

  lemma {:induction false} SumPositive(cs: seq<Container>)
    requires NonNegative(cs)
    ensures SumOf(cs) >= 0
    ensures SumOf(cs) > 0 <==> exists c <- cs :: Asks(c)
  {
    if cs != [] {
      var rest, last := cs[..|cs| - 1], cs[|cs| - 1];
      SumPositive(rest);
      assert cs == rest + [last] && last in cs;
    }
  }

  lemma {:induction false} LargestPositive(cs: seq<Container>)
    ensures LargestOf(cs) >= 0
    ensures LargestOf(cs) > 0 <==> exists c <- cs :: Asks(c)
    ensures forall c <- cs :: GpuOf(c) <= LargestOf(cs)
  {
    if cs != [] {
      var rest, last := cs[..|cs| - 1], cs[|cs| - 1];
      LargestPositive(rest);
      assert cs == rest + [last] && last in cs;
    }
  }

  /** A Pod's request is positive exactly when some container or init container asks for a device. */
  lemma RequestedExactlyWhenAsked(p: Pod)
    requires NonNegative(p.containers)
    ensures Requested(p) >= 0
    ensures Requested(p) > 0 <==> (exists c <- p.containers :: Asks(c)) || (exists c <- p.initContainers :: Asks(c))
  {
    SumPositive(p.containers);
    LargestPositive(p.initContainers);
  }

  // -------------------------------------------------- restartable init containers

  /** The devices of the restartable init containers, which keep running beside the regular ones. */
  function Sidecars(cs: seq<Container>): int {
    if cs == [] then 0
    else Sidecars(cs[..|cs| - 1]) + (if cs[|cs| - 1].restartable then GpuOf(cs[|cs| - 1]) else 0)
  }

  /** The most an init step needs: itself and the restartable ones started before it. */
  function InitPeak(cs: seq<Container>): int {
    if cs == [] then 0
    else
      var rest, step := cs[..|cs| - 1], Sidecars(cs[..|cs| - 1]) + GpuOf(cs[|cs| - 1]);
      if step > InitPeak(rest) then step else InitPeak(rest)
  }

  /** What the scheduler reserves for a Pod, restartable init containers included. */
  function Reserved(p: Pod): int {
    var running := SumOf(p.containers) + Sidecars(p.initContainers);
    if InitPeak(p.initContainers) > running then InitPeak(p.initContainers) else running
  }

  predicate NoSidecarAsks(cs: seq<Container>) {
    forall c <- cs :: c.restartable ==> GpuOf(c) == 0
  }

  lemma {:induction false} InitBounds(cs: seq<Container>)
    requires NonNegative(cs)
    ensures Sidecars(cs) >= 0 && InitPeak(cs) >= LargestOf(cs)
    ensures LargestOf(cs) == 0 ==> Sidecars(cs) == 0 && InitPeak(cs) == 0
    ensures NoSidecarAsks(cs) ==> Sidecars(cs) == 0 && InitPeak(cs) == LargestOf(cs)
  {
    if cs != [] {
      var rest, last := cs[..|cs| - 1], cs[|cs| - 1];
      InitBounds(rest);
      LargestPositive(rest);
      assert cs == rest + [last] && last in cs;
    }
  }

  /**
    The count never exceeds what is reserved, is zero exactly when nothing is, and is exact for Pods whose
    restartable init containers ask for nothing.
   */
  lemma RequestedAgainstReserved(p: Pod)
    requires NonNegative(p.containers) && NonNegative(p.initContainers)
    ensures Requested(p) <= Reserved(p)
    ensures Requested(p) == 0 <==> Reserved(p) == 0
    ensures NoSidecarAsks(p.initContainers) ==> Requested(p) == Reserved(p)
  {
    InitBounds(p.initContainers);
    SumPositive(p.containers);
    LargestPositive(p.initContainers);
  }

  /** No init step, with the restartable ones started before it, needs more than the largest alone. */
  predicate StepsWithin(cs: seq<Container>, n: int) {
    forall i :: 0 <= i < |cs| ==> Sidecars(cs[..i]) + GpuOf(cs[i]) <= n
  }

  /** What a Pod's spec has to look like for the count to be exact. */
  predicate CountedInFull(p: Pod) {
    || NoSidecarAsks(p.initContainers)
    || (&& SumOf(p.containers) + Sidecars(p.initContainers) <= LargestOf(p.initContainers)
        && StepsWithin(p.initContainers, LargestOf(p.initContainers)))
  }

  lemma {:induction false} PeakWithin(cs: seq<Container>, n: int)
    requires n >= 0
    ensures InitPeak(cs) <= n <==> StepsWithin(cs, n)
  {
    if cs != [] {
      var rest := cs[..|cs| - 1];
      PeakWithin(rest, n);
      assert forall i :: 0 <= i < |rest| ==> rest[..i] == cs[..i] && rest[i] == cs[i];
    }
  }

  lemma {:induction false} SidecarsPositive(cs: seq<Container>)
    requires NonNegative(cs)
    ensures Sidecars(cs) >= 0
    ensures Sidecars(cs) == 0 <==> NoSidecarAsks(cs)
  {
    if cs != [] {
      var rest, last := cs[..|cs| - 1], cs[|cs| - 1];
      assert cs == rest + [last] && last in cs;
      SidecarsPositive(rest);
    }
  }

  /**
    Exactly which Pods are counted in full: those whose restartable init containers ask for nothing, and
    those in which one init container alone outweighs everything that ever runs beside a restartable one.
   */
  lemma CountedInFullExactly(p: Pod)
    requires NonNegative(p.containers) && NonNegative(p.initContainers)
    ensures Requested(p) == Reserved(p) <==> CountedInFull(p)
  {
    InitBounds(p.initContainers);
    SidecarsPositive(p.initContainers);
    LargestPositive(p.initContainers);
    PeakWithin(p.initContainers, LargestOf(p.initContainers));
  }

  /** An occupier of one device beside a restartable init container that asks for another. */
  const SIDECAR_POD := Pod("occupier", "worker", Running, false, true,
                           [Container(Some(1), None, false)], [Container(Some(1), None, true)])

  /** A restartable init container that asks for a device can be missed from the count. */
  lemma SidecarIsUndercounted()
    ensures NonNegative(SIDECAR_POD.containers) && NonNegative(SIDECAR_POD.initContainers)
    ensures Requested(SIDECAR_POD) == 1 && Reserved(SIDECAR_POD) == 2
  {
    var p := SIDECAR_POD;
    assert p.containers[..0] == [] && p.initContainers[..0] == [];
    assert SumOf(p.containers) == SumOf([]) + 1;
    assert Sidecars(p.initContainers) == Sidecars([]) + 1;
    assert LargestOf([]) == 0 && InitPeak([]) == 0;
    assert InitPeak(p.initContainers) == 1;
  }

  // ----------------------------------------------------------- who holds devices

  datatype Consumer = Consumer(name: string, phase: Phase, terminating: bool, gpus: int)

  predicate HoldsDevices(p: Pod) {
    p.phase != Succeeded && p.phase != Failed
  }

  function AsConsumer(p: Pod): Consumer {
    Consumer(p.name, p.phase, p.terminating, Requested(p))
  }

  /** A Pod that competes for the node's devices. */
  predicate Competes(p: Pod, node: string) {
    p.node == node && HoldsDevices(p) && Requested(p) != 0 && !p.occupier
  }

  /** Said of its fields alone: an unfinished Pod on the Node, not our own, in which some container asks. */
  predicate TakesDevice(p: Pod, node: string) {
    && p.node == node && p.phase != Succeeded && p.phase != Failed && !p.occupier
    && ((exists c <- p.containers :: Asks(c)) || (exists c <- p.initContainers :: Asks(c)))
  }

  lemma CompetesExactly(pods: seq<Pod>, node: string)
    requires forall p <- pods :: NonNegative(p.containers)
    ensures forall p <- pods :: Competes(p, node) <==> TakesDevice(p, node)
  {
    forall p | p in pods ensures Competes(p, node) <==> TakesDevice(p, node) {
      RequestedExactlyWhenAsked(p);
    }
  }

  function ConsumersOn(pods: seq<Pod>, node: string): seq<Consumer> {
    if pods == [] then []
    else
      var rest, last := ConsumersOn(pods[..|pods| - 1], node), pods[|pods| - 1];
      if Competes(last, node) then rest + [AsConsumer(last)] else rest
  }

  function ConsumersOff(pods: seq<Pod>, node: string): seq<Consumer> {
    if pods == [] then []
    else
      var rest, last := ConsumersOff(pods[..|pods| - 1], node), pods[|pods| - 1];
      if last.node != node && HoldsDevices(last) && Requested(last) != 0 then rest + [AsConsumer(last)] else rest
  }

  function DevicesOf(cs: seq<Consumer>): int {
    if cs == [] then 0 else DevicesOf(cs[..|cs| - 1]) + cs[|cs| - 1].gpus
  }

  /** Everything requested by the Pods that still hold devices, on the node or off it. */
  function HeldOn(pods: seq<Pod>, node: string): int {
    if pods == [] then 0
    else
      var last := pods[|pods| - 1];
      HeldOn(pods[..|pods| - 1], node) + (if last.node == node && HoldsDevices(last) then Requested(last) else 0)
  }

  function HeldAnywhere(pods: seq<Pod>): int {
    if pods == [] then 0
    else HeldAnywhere(pods[..|pods| - 1]) + (if HoldsDevices(pods[|pods| - 1]) then Requested(pods[|pods| - 1]) else 0)
  }

  function CountOn(pods: seq<Pod>, node: string): nat {
    if pods == [] then 0 else CountOn(pods[..|pods| - 1], node) + (if pods[|pods| - 1].node == node then 1 else 0)
  }

  lemma DevicesOneMore(cs: seq<Consumer>, c: Consumer)
    ensures DevicesOf(cs + [c]) == DevicesOf(cs) + c.gpus
  {
    assert (cs + [c])[..|cs|] == cs;
  }

  /** `gpuConsumersOn`: occupiers and consumers together account for everything held on the node. */
  method GpuConsumersOn(pods: seq<Pod>, node: string) returns (consumers: seq<Consumer>, onNode: nat, occupied: int)
    ensures consumers == ConsumersOn(pods, node) && onNode == CountOn(pods, node)
    ensures occupied + DevicesOf(consumers) == HeldOn(pods, node)
    ensures (forall p <- pods :: !p.occupier) ==> occupied == 0
  {
    consumers, onNode, occupied := [], 0, 0;
    for i := 0 to |pods|
      invariant consumers == ConsumersOn(pods[..i], node) && onNode == CountOn(pods[..i], node)
      invariant occupied + DevicesOf(consumers) == HeldOn(pods[..i], node)
      invariant (forall p <- pods[..i] :: !p.occupier) ==> occupied == 0
    {
      assert pods[..i + 1][..i] == pods[..i];
      var p := pods[i];
      if p.node != node {
        continue;
      }
      onNode := onNode + 1;
      if !HoldsDevices(p) {
        continue;
      }
      var n := PodGPURequest(p);
      if n == 0 {
        continue;
      }
      if p.occupier {
        assert p in pods[..i + 1];
        occupied := occupied + n;
        continue;
      }
      DevicesOneMore(consumers, AsConsumer(p));
      consumers := consumers + [Consumer(p.name, p.phase, p.terminating, n)];
    }
    assert pods[..|pods|] == pods;
  }

  method GpuConsumersOffNode(pods: seq<Pod>, node: string) returns (consumers: seq<Consumer>)
    ensures consumers == ConsumersOff(pods, node)
  {
    consumers := [];
    for i := 0 to |pods|
      invariant consumers == ConsumersOff(pods[..i], node)
    {
      assert pods[..i + 1][..i] == pods[..i];
      var p := pods[i];
      if p.node == node || !HoldsDevices(p) {
        continue;
      }
      var n := PodGPURequest(p);
      if n != 0 {
        consumers := consumers + [Consumer(p.name, p.phase, p.terminating, n)];
      }
    }
    assert pods[..|pods|] == pods;
  }

  /** On the node and off it together is everything held in the cluster. */
  lemma {:induction false} OnAndOffIsEverything(pods: seq<Pod>, node: string)
    ensures HeldOn(pods, node) + DevicesOf(ConsumersOff(pods, node)) == HeldAnywhere(pods)
  {
    if pods != [] {
      var rest, last := pods[..|pods| - 1], pods[|pods| - 1];
      OnAndOffIsEverything(rest, node);
      DevicesOneMore(ConsumersOff(rest, node), AsConsumer(last));
    }
  }

  /** The consumer list is empty exactly when no Pod competes. */
  lemma {:induction false} NoConsumersExactlyWhenNoneCompetes(pods: seq<Pod>, node: string)
    ensures ConsumersOn(pods, node) == [] <==> forall p <- pods :: !Competes(p, node)
  {
    if pods != [] {
      var rest, last := pods[..|pods| - 1], pods[|pods| - 1];
      NoConsumersExactlyWhenNoneCompetes(rest, node);
      assert pods == rest + [last] && last in pods;
    }
  }

  /** What the scheduler has reserved on the node. */
  function ReservedOn(pods: seq<Pod>, node: string): int {
    if pods == [] then 0
    else
      var last := pods[|pods| - 1];
      ReservedOn(pods[..|pods| - 1], node) + (if last.node == node && HoldsDevices(last) then Reserved(last) else 0)
  }

  /** The gate's count is what is reserved exactly when every unfinished Pod on the node is counted in full. */
  lemma {:induction false} HeldIsReservedExactly(pods: seq<Pod>, node: string)
    requires forall p <- pods :: NonNegative(p.containers) && NonNegative(p.initContainers)
    ensures HeldOn(pods, node) <= ReservedOn(pods, node)
    ensures HeldOn(pods, node) == ReservedOn(pods, node) <==>
              forall p <- pods :: p.node == node && HoldsDevices(p) ==> CountedInFull(p)
  {
    if pods != [] {
      var rest, last := pods[..|pods| - 1], pods[|pods| - 1];
      assert pods == rest + [last] && last in pods;
      HeldIsReservedExactly(rest, node);
      RequestedAgainstReserved(last);
      CountedInFullExactly(last);
    }
  }

  // ---------------------------------------------------------------- the verdict

  datatype Node = Node(name: string, allocatable: int, conditions: seq<Condition>, unschedulable: bool)
  datatype Condition = Condition(kind: string, isTrue: bool)

  datatype Failure = NotReady | Cordoned | TooFew | TooMany | HeldByOthers | CanaryRefused

  datatype Qualification = Qualification(
    allocatable: int, occupied: int, required: int, ready: bool, schedulable: bool, podsOnNode: nat,
    consumers: seq<Consumer>, elsewhere: seq<Consumer>)

  /** The first Ready condition decides; none at all is not ready. */
  function ReadyIn(cs: seq<Condition>): bool {
    cs != [] && (if cs[0].kind == "Ready" then cs[0].isTrue else ReadyIn(cs[1..]))
  }

  method NodeReady(n: Node) returns (ready: bool)
    ensures ready == ReadyIn(n.conditions)
  {
    for i := 0 to |n.conditions|
      invariant ReadyIn(n.conditions) == ReadyIn(n.conditions[i..])
    {
      assert n.conditions[i..][1..] == n.conditions[i + 1..];
      if n.conditions[i].kind == "Ready" {
        return n.conditions[i].isTrue;
      }
    }
    ready := false;
  }

  /** A machine to measure on: what is left after every request on it is exactly what the run needs. */
  predicate Measurable(n: Node, pods: seq<Pod>, required: int, canary: bool) {
    && ReadyIn(n.conditions) && !n.unschedulable && canary
    && (forall p <- pods :: !Competes(p, n.name))
    && n.allocatable - HeldOn(pods, n.name) == required
  }

  /** A measurable machine has exactly the room it seems to have when, and only when, no Pod is undercounted. */
  lemma RoomIsRealExactly(n: Node, pods: seq<Pod>, required: int, canary: bool)
    requires forall p <- pods :: NonNegative(p.containers) && NonNegative(p.initContainers)
    requires Measurable(n, pods, required, canary)
    ensures n.allocatable - ReservedOn(pods, n.name) <= required
    ensures n.allocatable - ReservedOn(pods, n.name) == required <==>
              forall p <- pods :: p.node == n.name && HoldsDevices(p) ==> CountedInFull(p)
  {
    HeldIsReservedExactly(pods, n.name);
  }

  /** And the verdict with it: a Node with two devices qualifies for a run of one, and none is left for it. */
  lemma UndercountQualifies()
    ensures var n := Node("worker", 2, [Condition("Ready", true)], false);
            && Measurable(n, [SIDECAR_POD], 1, true)
            && n.allocatable - ReservedOn([SIDECAR_POD], n.name) == 0
  {
    var pods := [SIDECAR_POD];
    SidecarIsUndercounted();
    assert pods[..0] == [];
    assert HeldOn(pods, "worker") == HeldOn([], "worker") + 1;
    assert ReservedOn(pods, "worker") == ReservedOn([], "worker") + 2;
  }

  function FailuresOf(q: Qualification, canary: bool): seq<Failure> {
    (if !q.ready then [NotReady] else [])
    + (if !q.schedulable then [Cordoned] else [])
    + (if q.allocatable - q.occupied < q.required then [TooFew]
       else if q.allocatable - q.occupied > q.required then [TooMany] else [])
    + (if q.consumers != [] then [HeldByOthers] else [])
    + (if !canary then [CanaryRefused] else [])
  }

  lemma EachFailureIsReported(q: Qualification, canary: bool)
    ensures NotReady in FailuresOf(q, canary) <==> !q.ready
    ensures Cordoned in FailuresOf(q, canary) <==> !q.schedulable
    ensures TooFew in FailuresOf(q, canary) <==> q.allocatable - q.occupied < q.required
    ensures TooMany in FailuresOf(q, canary) <==> q.allocatable - q.occupied > q.required
    ensures HeldByOthers in FailuresOf(q, canary) <==> q.consumers != []
    ensures CanaryRefused in FailuresOf(q, canary) <==> !canary
  {
  }

  /** When each failure is due, of the Node and the Pods as they were given. */
  predicate Deserves(f: Failure, n: Node, pods: seq<Pod>, room: int, required: int, canary: bool) {
    match f
    case NotReady => !ReadyIn(n.conditions)
    case Cordoned => n.unschedulable
    case TooFew => room < required
    case TooMany => room > required
    case HeldByOthers => exists p <- pods :: Competes(p, n.name)
    case CanaryRefused => !canary
  }

  /** Each failure is reported exactly when it is due, and none of them exactly for a measurable machine. */
  lemma FailuresAreDue(q: Qualification, n: Node, pods: seq<Pod>, required: int, canary: bool)
    requires q.allocatable == n.allocatable && q.required == required && q.ready == ReadyIn(n.conditions)
    requires q.schedulable == !n.unschedulable && q.consumers == ConsumersOn(pods, n.name)
    ensures forall f :: f in FailuresOf(q, canary) <==>
                        Deserves(f, n, pods, n.allocatable - q.occupied, required, canary)
  {
    EachFailureIsReported(q, canary);
    NoConsumersExactlyWhenNoneCompetes(pods, n.name);
    forall f ensures f in FailuresOf(q, canary) <==>
                     Deserves(f, n, pods, n.allocatable - q.occupied, required, canary) {
      match f
      case NotReady =>
      case Cordoned =>
      case TooFew =>
      case TooMany =>
      case HeldByOthers =>
      case CanaryRefused =>
    }
  }

  lemma NoFailureExactlyWhenMeasurable(q: Qualification, n: Node, pods: seq<Pod>, required: int, canary: bool)
    requires q.allocatable == n.allocatable && q.required == required && q.ready == ReadyIn(n.conditions)
    requires q.schedulable == !n.unschedulable && q.consumers == ConsumersOn(pods, n.name)
    requires q.occupied + DevicesOf(q.consumers) == HeldOn(pods, n.name)
    ensures FailuresOf(q, canary) == [] <==> Measurable(n, pods, required, canary)
  {
    NoConsumersExactlyWhenNoneCompetes(pods, n.name);
  }

  /** What the checks look at, and that it accounts for every device held on the node and off it. */
  method Observe(n: Node, pods: seq<Pod>, req: Requirement) returns (q: Qualification)
    ensures q.allocatable == n.allocatable && q.required == req.total && q.podsOnNode == CountOn(pods, n.name)
    ensures q.ready == ReadyIn(n.conditions) && q.schedulable == !n.unschedulable
    ensures q.consumers == ConsumersOn(pods, n.name) && q.elsewhere == ConsumersOff(pods, n.name)
    ensures q.occupied + DevicesOf(q.consumers) == HeldOn(pods, n.name)
    ensures q.occupied + DevicesOf(q.consumers) + DevicesOf(q.elsewhere) == HeldAnywhere(pods)
  {
    var consumers, onNode, occupied := GpuConsumersOn(pods, n.name);
    var elsewhere := GpuConsumersOffNode(pods, n.name);
    var ready := NodeReady(n);
    q := Qualification(n.allocatable, occupied, req.total, ready, !n.unschedulable, onNode, consumers, elsewhere);
    OnAndOffIsEverything(pods, n.name);
  }

  /** `qualify`: every failing condition is reported, and none exactly when the machine is measurable. */
  method QualifyWorker(n: Node, pods: seq<Pod>, req: Requirement, canary: bool)
    returns (q: Qualification, failed: seq<Failure>)
    ensures failed == FailuresOf(q, canary)
    ensures failed == [] <==> Measurable(n, pods, req.total, canary)
    ensures forall f :: f in failed <==> Deserves(f, n, pods, n.allocatable - q.occupied, req.total, canary)
    ensures (forall p <- pods :: NonNegative(p.containers)) ==>
              (HeldByOthers in failed <==> exists p <- pods :: TakesDevice(p, n.name))
    ensures q.occupied + DevicesOf(q.consumers) == HeldOn(pods, n.name)
  {
    q := Observe(n, pods, req);
    failed := FailuresOf(q, canary);
    FailuresAreDue(q, n, pods, req.total, canary);
    NoFailureExactlyWhenMeasurable(q, n, pods, req.total, canary);
    if forall p <- pods :: NonNegative(p.containers) {
      CompetesExactly(pods, n.name);
    }
  }

  lemma NeedsIsUnique(t: int, u: int, fixtures: Fixtures, rows: seq<nat>)
    requires fixtures.flavor.Some? && Needs(t, fixtures, rows) && Needs(u, fixtures, rows)
    ensures t == u
  {
  }

  /** Sizing and the gate together: a qualified worker has exactly enough room left for the run. */
  method SizeAndQualify(fixtures: Option<Fixtures>, rows: seq<nat>, n: Node, pods: seq<Pod>, canary: bool)
    returns (qualified: bool)
    ensures qualified <==>
              && fixtures.Some? && fixtures.value.flavor.Some?
              && Needs(n.allocatable - HeldOn(pods, n.name), fixtures.value, rows)
              && Measurable(n, pods, n.allocatable - HeldOn(pods, n.name), canary)
  {
    var r := RequiredGPU(fixtures, rows);
    if r.Err? {
      assert r == Err(NoFlavor) || r == Err(NothingRequested) by {
        match r.error case NoFlavor => case NothingRequested =>
      }
      return false;
    }
    var q, failed := QualifyWorker(n, pods, r.value, canary);
    qualified := failed == [];
    if Needs(n.allocatable - HeldOn(pods, n.name), fixtures.value, rows) {
      NeedsIsUnique(r.value.total, n.allocatable - HeldOn(pods, n.name), fixtures.value, rows);
    }
  }
}
