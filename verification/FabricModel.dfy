/** The shared-fabric scheduler of project AT-6.

    Four initiators feed one non-preemptive server through one pending list.
    A policy picks the next record: round robin, or one of two fixed priority
    orders; a token gap may hold back the NPU-like initiator.
 */
module FabricModel {
  import opened SimTime

  const INITIATORS: nat := 4
  const CPU: nat := 0
  const NPU: nat := 1
  const DMA: nat := 2
  const ISP: nat := 3

  /** Every policy name other than the first two shares the latency order. */
  datatype Policy = RoundRobin | CappedPriority | LatencyPriority

  datatype CaseSpec = CaseSpec(policy: Policy, tokenGap: real, queueCapacity: nat, starvationThreshold: real)

  /** `service` is the service time the case assigns to the record; the fields
      after it are written by the scheduler. */
  datatype Record = Record(
    requestId: nat,
    initiator: nat,
    issue: real,
    service: real,
    depthOnArrival: nat,
    start: real,
    end: real,
    queueDelay: real,
    serviceDelay: real,
    latency: real,
    starved: bool)

  /** Records arrive sorted by issue time, as the sort that builds them leaves them. */
  predicate InputValid(records: seq<Record>) {
    && (forall i :: 0 <= i < |records| ==>
          records[i].initiator < INITIATORS && records[i].issue >= 0.0 && records[i].service >= 0.0)
    && (forall i, j :: 0 <= i <= j < |records| ==> records[i].issue <= records[j].issue)
  }

  /** `served` remembers the order of service; its length is the completed count. */
  datatype Fabric = Fabric(
    records: seq<Record>,
    pending: seq<nat>,
    next: nat,
    time: real,
    token: real,
    lastTurn: nat,
    queuePeak: nat,
    served: seq<nat>)

  predicate Shape(f: Fabric) {
    && f.next <= |f.records|
    && f.lastTurn < INITIATORS
    && (forall q :: 0 <= q < |f.pending| ==> f.pending[q] < |f.records|)
  }

  predicate TokenReady(spec: CaseSpec, initiator: nat, time: real, token: real) {
    spec.tokenGap <= 0.0 || initiator != NPU || time >= token
  }

  // ---- Selection ----

  /** The first pending position of the initiator, from `pos` on, or the length. */
  function PositionFrom(spec: CaseSpec, f: Fabric, initiator: nat, pos: nat): (p: nat)
    requires Shape(f) && pos <= |f.pending|
    ensures p <= |f.pending|
    decreases |f.pending| - pos
  {
    if pos == |f.pending| then pos
    else if f.records[f.pending[pos]].initiator == initiator && TokenReady(spec, initiator, f.time, f.token) then pos
    else PositionFrom(spec, f, initiator, pos + 1)
  }

  /** Tries the initiators of `order` one after the other. */
  function SelectInOrder(spec: CaseSpec, f: Fabric, order: seq<nat>): (p: nat)
    requires Shape(f)
    ensures p <= |f.pending|
  {
    if |order| == 0 then |f.pending|
    else
      var p := PositionFrom(spec, f, order[0], 0);
      if p < |f.pending| then p else SelectInOrder(spec, f, order[1..])
  }

  /** The order in which the policy tries the initiators. */
  function TryOrder(policy: Policy, lastTurn: nat): (order: seq<nat>)
    ensures |order| == INITIATORS
  {
    match policy
    case RoundRobin => [(lastTurn + 1) % INITIATORS, (lastTurn + 2) % INITIATORS,
                        (lastTurn + 3) % INITIATORS, (lastTurn + 4) % INITIATORS]
    case CappedPriority => [0, 3, 2, 1]
    case LatencyPriority => [0, 3, 1, 2]
  }

  function Select(spec: CaseSpec, f: Fabric): (p: nat)
    requires Shape(f)
    ensures p <= |f.pending|
  {
    SelectInOrder(spec, f, TryOrder(spec.policy, f.lastTurn))
  }

  // ---- The steps of the loop ----

  function EnqueueNext(f: Fabric): Fabric
    requires f.next < |f.records|
  {
    f.(records := f.records[f.next := f.records[f.next].(depthOnArrival := |f.pending|)],
       pending := f.pending + [f.next],
       queuePeak := NatMax(f.queuePeak, |f.pending| + 1),
       next := f.next + 1)
  }

  predicate NextIsReady(f: Fabric) {
    f.next < |f.records| && f.records[f.next].issue <= f.time
  }

  function EnqueueReady(f: Fabric): Fabric
    requires f.next <= |f.records|
    decreases |f.records| - f.next
  {
    if NextIsReady(f) then EnqueueReady(EnqueueNext(f)) else f
  }

  function ServedRecord(spec: CaseSpec, r: Record, time: real): Record {
    var start := Max(time, r.issue);
    var delay := start - r.issue;
    r.(start := start,
       queueDelay := delay,
       serviceDelay := r.service,
       end := start + r.service,
       latency := start + r.service - r.issue,
       starved := delay > spec.starvationThreshold || r.depthOnArrival >= spec.queueCapacity)
  }

  function Serve(spec: CaseSpec, f: Fabric, pos: nat): Fabric
    requires Shape(f) && pos < |f.pending|
  {
    var c := f.pending[pos];
    var r := ServedRecord(spec, f.records[c], f.time);
    f.(records := f.records[c := r],
       pending := f.pending[..pos] + f.pending[pos + 1..],
       token := if spec.tokenGap > 0.0 && r.initiator == NPU then r.start + spec.tokenGap else f.token,
       lastTurn := if spec.policy == RoundRobin then r.initiator else f.lastTurn,
       time := r.end,
       queuePeak := NatMax(f.queuePeak, |f.pending| - 1),
       served := f.served + [c])
  }

  /** Where a stalled scheduler wakes up. */
  function WakeUp(f: Fabric): real
    requires f.next <= |f.records|
  {
    Max(f.time, if f.next < |f.records| then Min(f.token, f.records[f.next].issue) else f.token)
  }

  /** The enqueueing half of an iteration; an idle server first jumps to the
      next issue time. */
  function Refill(f: Fabric): Fabric
    requires f.next <= |f.records|
  {
    var g := EnqueueReady(f);
    if |g.pending| == 0 && g.next < |g.records|
    then EnqueueReady(g.(time := Max(g.time, g.records[g.next].issue)))
    else g
  }

  datatype Step = Abandon(left: Fabric) | Go(next: Fabric)

  function Decide(spec: CaseSpec, g: Fabric): Step
    requires Shape(g)
  {
    if |g.pending| == 0 && g.next >= |g.records| then Abandon(g)
    else
      var pos := Select(spec, g);
      if pos >= |g.pending| then Go(g.(time := WakeUp(g))) else Go(Serve(spec, g, pos))
  }

  function Init(records: seq<Record>): Fabric {
    Fabric(records, [], 0, 0.0, 0.0, INITIATORS - 1, 0, [])
  }
}
