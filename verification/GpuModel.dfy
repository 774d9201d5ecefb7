/** The GPU-like throughput simulator of project AT-7.

    Lanes issue requests under a per-lane limit, a global limit and a queue
    limit into one FIFO that feeds one memory.  This module holds the simulator
    as functions from state to state, one per closure of the event loop;
    `GpuRun` holds the mutable form and proves it against these.
 */
module GpuModel {
  import opened SimTime

  const LANE_STAGGER: real := 0.55
  const HOP: real := 0.001

  datatype CaseSpec = CaseSpec(
    numLanes: nat,
    requestsPerLane: nat,
    laneLimit: nat,
    globalLimit: nat,
    burstLength: nat,
    computeGap: real,
    intraBurstGap: real,
    requestSize: nat,
    memoryServiceTime: real,
    bandwidth: real,
    queueCapacity: nat,
    hidingWindow: nat)

  /** The service delay of every request, without its jitter. */
  function BaseService(spec: CaseSpec): real
    requires spec.bandwidth > 0.0
  {
    spec.memoryServiceTime + spec.requestSize as real / spec.bandwidth
  }

  predicate GapsValid(spec: CaseSpec) {
    spec.computeGap >= 0.0 && spec.intraBurstGap >= 0.0
  }

  /** What the timing parameters of every case satisfy: since the jitter starts at
      zero, the last clause says that every service takes time. */
  predicate TimingValid(spec: CaseSpec) {
    && GapsValid(spec)
    && spec.bandwidth > 0.0
    && BaseService(spec) > 0.0
  }

  predicate LimitsPositive(spec: CaseSpec) {
    spec.laneLimit >= 1 && spec.globalLimit >= 1 && spec.queueCapacity >= 1
  }

  function TotalRequests(spec: CaseSpec): nat {
    spec.numLanes * spec.requestsPerLane
  }

  datatype Lane = Lane(
    generated: nat,
    outstanding: nat,
    nextReady: real,
    blockedSince: Option<real>,
    stallEvents: nat,
    blockedStall: real)

  datatype Request = Request(
    requestId: nat,
    laneId: nat,
    sequenceIndex: nat,
    sizeBytes: nat,
    issue: real,
    serviceStart: real,
    serviceEnd: real,
    queueDelay: real,
    serviceDelay: real,
    latency: real,
    hidden: real,
    exposed: real,
    depthOnArrival: nat,
    outstandingAfterIssue: nat)

  datatype Sim = Sim(
    lanes: seq<Lane>,
    records: seq<Request>,
    queue: seq<nat>,
    current: Option<nat>,
    globalOutstanding: nat,
    completed: nat,
    nextRequestId: nat,
    time: real,
    queueArea: real,
    outstandingArea: real,
    queuePeak: nat,
    peakOutstanding: nat)

  /** Every stored index is in range. */
  predicate Shape(s: Sim) {
    && (s.current.Some? ==> s.current.value < |s.records|)
    && (forall i :: 0 <= i < |s.queue| ==> s.queue[i] < |s.records|)
    && (forall i :: 0 <= i < |s.records| ==> s.records[i].laneId < |s.lanes|)
  }

  // ---- Timing of one request ----

  /** The score is computed in 32-bit unsigned arithmetic. */
  function ServiceJitter(laneId: nat, sequenceIndex: nat): real {
    var width := 0x1_0000_0000;
    (((laneId * 13) % width + (sequenceIndex * 7) % width) % width % 6) as real * 0.18
  }

  function ServiceDelay(spec: CaseSpec, r: Request): real
    requires spec.bandwidth > 0.0
  {
    spec.memoryServiceTime + r.sizeBytes as real / spec.bandwidth + ServiceJitter(r.laneId, r.sequenceIndex)
  }

  lemma ServiceDelayPositive(spec: CaseSpec, r: Request)
    requires TimingValid(spec) && r.sizeBytes == spec.requestSize
    ensures ServiceDelay(spec, r) > 0.0
  {
    assert ServiceDelay(spec, r) == BaseService(spec) + ServiceJitter(r.laneId, r.sequenceIndex);
  }

  /** The gap that follows a lane's n-th request, counting from one. */
  function Gap(spec: CaseSpec, n: nat): real {
    if n % (if spec.burstLength < 1 then 1 else spec.burstLength) == 0
    then spec.computeGap else spec.intraBurstGap
  }

  function LaneOffset(laneId: nat): real {
    laneId as real * LANE_STAGGER
  }

  /** How much of a request's latency counts as hidden: fixed shares of its
      service and queue delay that grow with the outstanding depth. */
  function HiddenLatency(spec: CaseSpec, r: Request): real {
    var window := if spec.hidingWindow < 1 then 1 else spec.hidingWindow;
    var ratio := Min(1.0, r.outstandingAfterIssue as real / window as real);
    var serviceShare := Min(0.88, 0.20 + 0.68 * ratio);
    var queueShare := 0.35 * ratio * (if r.depthOnArrival > (7 * spec.queueCapacity + 9) / 10 then 0.45 else 1.0);
    Min(r.latency, r.serviceDelay * serviceShare + r.queueDelay * queueShare)
  }

  // ---- Lane predicates and stall bookkeeping ----

  predicate LaneReady(spec: CaseSpec, lane: Lane, time: real) {
    lane.generated < spec.requestsPerLane && lane.nextReady <= time
  }

  predicate CanIssue(spec: CaseSpec, lane: Lane, globalOutstanding: nat, depth: nat, time: real) {
    && LaneReady(spec, lane, time)
    && lane.outstanding < spec.laneLimit
    && globalOutstanding < spec.globalLimit
    && depth < spec.queueCapacity
  }

  function MarkBlocked(lane: Lane, time: real): Lane {
    if lane.blockedSince.None?
    then lane.(blockedSince := Some(time), stallEvents := lane.stallEvents + 1)
    else lane
  }

  function CloseBlocked(lane: Lane, time: real): Lane {
    if lane.blockedSince.Some?
    then lane.(blockedStall := lane.blockedStall + Max(0.0, time - lane.blockedSince.value), blockedSince := None)
    else lane
  }

  // ---- The closures of the event loop ----

  predicate CompletionDue(s: Sim)
    requires Shape(s)
  {
    s.current.Some? && s.records[s.current.value].serviceEnd <= s.time
  }

  predicate Underflow(s: Sim)
    requires Shape(s) && s.current.Some?
  {
    s.lanes[s.records[s.current.value].laneId].outstanding == 0 || s.globalOutstanding == 0
  }

  function CompletedRecord(spec: CaseSpec, r: Request): Request {
    var r1 := r.(latency := r.serviceEnd - r.issue);
    var hidden := HiddenLatency(spec, r1);
    r1.(hidden := hidden, exposed := Max(0.0, r1.latency - hidden))
  }

  function Complete(spec: CaseSpec, s: Sim): (t: Sim)
    requires Shape(s) && s.current.Some? && !Underflow(s)
    ensures Shape(t)
  {
    var c := s.current.value;
    var l := s.records[c].laneId;
    s.(records := s.records[c := CompletedRecord(spec, s.records[c])],
       lanes := s.lanes[l := s.lanes[l].(outstanding := s.lanes[l].outstanding - 1)],
       globalOutstanding := s.globalOutstanding - 1,
       completed := s.completed + 1,
       current := None)
  }

  predicate StartDue(s: Sim) {
    s.current.None? && |s.queue| > 0
  }

  function StartedRecord(spec: CaseSpec, r: Request, time: real): Request
    requires spec.bandwidth > 0.0
  {
    r.(serviceStart := time,
       queueDelay := time - r.issue,
       serviceDelay := ServiceDelay(spec, r),
       serviceEnd := time + ServiceDelay(spec, r))
  }

  /** One call of the closure changes the state at most once: afterwards the
      memory is busy or the queue is empty. */
  function StartIfIdle(spec: CaseSpec, s: Sim): (t: Sim)
    requires spec.bandwidth > 0.0 && Shape(s)
    ensures Shape(t) && !StartDue(t)
  {
    if StartDue(s) then
      var c := s.queue[0];
      s.(queue := s.queue[1..],
         records := s.records[c := StartedRecord(spec, s.records[c], s.time)],
         current := Some(c))
    else
      s
  }

  datatype Drained = Drained(sim: Sim) | Underflowed

  /** The loop that completes every request that is due, restarting the memory
      after each. */
  function DrainCompletions(spec: CaseSpec, s: Sim): (d: Drained)
    requires spec.bandwidth > 0.0 && Shape(s)
    ensures d.Drained? ==> Shape(d.sim)
    decreases |s.queue| + (if s.current.Some? then 1 else 0)
  {
    if !CompletionDue(s) then Drained(s)
    else if Underflow(s) then Underflowed
    else DrainCompletions(spec, StartIfIdle(spec, Complete(spec, s)))
  }

  function IssuedLane(spec: CaseSpec, lane: Lane, time: real): Lane {
    var l1 := CloseBlocked(lane, time);
    l1.(generated := lane.generated + 1,
        outstanding := lane.outstanding + 1,
        nextReady := time + Gap(spec, lane.generated + 1))
  }

  function NewRecord(spec: CaseSpec, s: Sim, l: nat): Request
    requires l < |s.lanes|
  {
    Request(s.nextRequestId, l, s.lanes[l].generated, spec.requestSize, s.time,
            0.0, 0.0, 0.0, 0.0, 0.0, 0.0, 0.0, |s.queue|, s.globalOutstanding + 1)
  }

  function IssueLane(spec: CaseSpec, s: Sim, l: nat): (t: Sim)
    requires Shape(s) && l < |s.lanes|
    ensures Shape(t)
  {
    s.(records := s.records + [NewRecord(spec, s, l)],
       queue := s.queue + [|s.records|],
       lanes := s.lanes[l := IssuedLane(spec, s.lanes[l], s.time)],
       globalOutstanding := s.globalOutstanding + 1,
       nextRequestId := s.nextRequestId + 1,
       queuePeak := NatMax(s.queuePeak, |s.queue| + 1),
       peakOutstanding := NatMax(s.peakOutstanding, s.globalOutstanding + 1))
  }

  predicate LaneCanIssue(spec: CaseSpec, s: Sim, l: nat)
    requires l < |s.lanes|
  {
    CanIssue(spec, s.lanes[l], s.globalOutstanding, |s.queue|, s.time)
  }

  /** The requests the lanes still have to generate. */
  function Ungenerated(spec: CaseSpec, lanes: seq<Lane>): nat {
    if |lanes| == 0 then 0
    else
      var last := lanes[|lanes| - 1];
      Ungenerated(spec, lanes[..|lanes| - 1])
      + (if last.generated < spec.requestsPerLane then spec.requestsPerLane - last.generated else 0)
  }

  lemma UngeneratedUpdate(spec: CaseSpec, lanes: seq<Lane>, l: nat, lane: Lane)
    requires l < |lanes| && lanes[l].generated < spec.requestsPerLane
    requires lane.generated == lanes[l].generated + 1
    ensures Ungenerated(spec, lanes[l := lane]) == Ungenerated(spec, lanes) - 1
  {
    var n := |lanes| - 1;
    if l < n {
      assert lanes[l := lane][..n] == lanes[..n][l := lane];
      UngeneratedUpdate(spec, lanes[..n], l, lane);
    } else {
      assert lanes[l := lane][..n] == lanes[..n];
    }
  }

  /** One pass of the `for` over the lanes, from lane `l` on. */
  function IssuePass(spec: CaseSpec, s: Sim, l: nat, issued: bool): (r: (Sim, bool))
    requires Shape(s) && l <= |s.lanes|
    ensures Shape(r.0) && |r.0.lanes| == |s.lanes|
    ensures Ungenerated(spec, r.0.lanes) <= Ungenerated(spec, s.lanes)
    ensures r.1 && !issued ==> Ungenerated(spec, r.0.lanes) < Ungenerated(spec, s.lanes)
    decreases |s.lanes| - l
  {
    if l == |s.lanes| then (s, issued)
    else if LaneCanIssue(spec, s, l) then
      UngeneratedUpdate(spec, s.lanes, l, IssuedLane(spec, s.lanes[l], s.time));
      IssuePass(spec, IssueLane(spec, s, l), l + 1, true)
    else IssuePass(spec, s, l + 1, issued)
  }

  /** Passes are repeated until one issues nothing. */
  function IssueAll(spec: CaseSpec, s: Sim): (r: (Sim, bool))
    requires Shape(s)
    ensures Shape(r.0) && |r.0.lanes| == |s.lanes|
    decreases Ungenerated(spec, s.lanes)
  {
    var pass := IssuePass(spec, s, 0, false);
    if pass.1 then (IssueAll(spec, pass.0).0, true) else (pass.0, false)
  }

  function MarkIfBlocked(spec: CaseSpec, s: Sim, lane: Lane): Lane {
    if LaneReady(spec, lane, s.time) && !CanIssue(spec, lane, s.globalOutstanding, |s.queue|, s.time)
    then MarkBlocked(lane, s.time)
    else lane
  }

  function MarkBlockedLanes(spec: CaseSpec, s: Sim): (t: Sim)
    requires Shape(s)
    ensures Shape(t)
  {
    s.(lanes := seq(|s.lanes|, l requires 0 <= l < |s.lanes| => MarkIfBlocked(spec, s, s.lanes[l])))
  }

  function IssueReady(spec: CaseSpec, s: Sim): (r: (Sim, bool))
    requires Shape(s)
    ensures Shape(r.0)
  {
    var r := IssueAll(spec, s);
    (MarkBlockedLanes(spec, r.0), r.1)
  }

  // ---- Choosing the next event ----

  /** `None` stands for the infinity the search starts from. */
  function EarlierOf(next: Option<real>, time: real): Option<real> {
    if next.None? then Some(time) else Some(Min(next.value, time))
  }

  function NextOverLanes(spec: CaseSpec, s: Sim, l: nat, next: Option<real>): Option<real>
    requires l <= |s.lanes|
    decreases |s.lanes| - l
  {
    if l == |s.lanes| then next
    else
      var lane := s.lanes[l];
      var next' :=
        if lane.generated < spec.requestsPerLane then
          if lane.nextReady > s.time then EarlierOf(next, lane.nextReady)
          else if s.current.None? && |s.queue| == 0 && lane.outstanding == 0 then Some(s.time)
          else next
        else next;
      NextOverLanes(spec, s, l + 1, next')
  }

  function NextEvent(spec: CaseSpec, s: Sim): Option<real>
    requires Shape(s)
  {
    NextOverLanes(spec, s, 0,
                  if s.current.Some? then Some(s.records[s.current.value].serviceEnd) else None)
  }

  predicate AnyLaneHasWork(spec: CaseSpec, s: Sim) {
    exists l :: 0 <= l < |s.lanes| && (s.lanes[l].generated < spec.requestsPerLane || s.lanes[l].outstanding > 0)
  }

  function AdvanceTo(s: Sim, t: real): Sim {
    s.(queueArea := s.queueArea + |s.queue| as real * (t - s.time),
       outstandingArea := s.outstandingArea + s.globalOutstanding as real * (t - s.time),
       time := t)
  }

  // ---- One iteration, and the whole run ----

  datatype Failure = OutstandingUnderflow | NoNextEvent | NoProgress

  datatype Step =
    | Continue(next: Sim, hopped: bool)
    | Finish(final: Sim)
    | Throw(failure: Failure)

  /** The second half of an iteration: pick the next event and move to it. */
  function MoveOn(spec: CaseSpec, s: Sim, progress: bool): (r: Step)
    requires Shape(s)
    ensures r.Continue? ==> Shape(r.next)
  {
    if s.completed >= TotalRequests(spec) then Finish(s)
    else
      match NextEvent(spec, s)
      case None => if AnyLaneHasWork(spec, s) then Throw(NoNextEvent) else Finish(s)
      case Some(next) =>
        if next <= s.time then
          if !progress then Throw(NoProgress) else Continue(AdvanceTo(s, s.time + HOP), true)
        else
          Continue(AdvanceTo(s, next), false)
  }

  function Iterate(spec: CaseSpec, s: Sim): (r: Step)
    requires spec.bandwidth > 0.0 && Shape(s)
    ensures r.Continue? ==> Shape(r.next)
  {
    match DrainCompletions(spec, s)
    case Underflowed => Throw(OutstandingUnderflow)
    case Drained(a) =>
      var b := StartIfIdle(spec, a);
      var issue := IssueReady(spec, b);
      var d := StartIfIdle(spec, issue.0);
      MoveOn(spec, d, CompletionDue(s) || StartDue(a) || issue.1 || StartDue(issue.0))
  }

  function Init(spec: CaseSpec): (s: Sim)
    ensures Shape(s)
  {
    Sim(seq(spec.numLanes, l requires 0 <= l < spec.numLanes => Lane(0, 0, LaneOffset(l), None, 0, 0.0)),
        [], [], None, 0, 0, 1, 0.0, 0.0, 0.0, 0, 0)
  }
}
