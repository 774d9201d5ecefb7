/** What every step of the AT-7 event loop keeps.

    The invariant has four parts: the queue is the FIFO tail of the records,
    every service starts at the later of its issue and the previous end, the
    two areas are sums of finished delays and of the ages still running, and
    every lane's clock telescopes over its own issue times.
 */
module GpuInvariant {
  import opened SimTime
  import opened GpuModel

  // ---- Projections of the records ----

  function LaneIds(records: seq<Request>): (ids: seq<nat>)
    ensures |ids| == |records|
  {
    seq(|records|, i requires 0 <= i < |records| => records[i].laneId)
  }

  function Issues(records: seq<Request>): (xs: seq<real>)
    ensures |xs| == |records|
  {
    seq(|records|, i requires 0 <= i < |records| => records[i].issue)
  }

  function Latencies(records: seq<Request>): (xs: seq<real>)
    ensures |xs| == |records|
  {
    seq(|records|, i requires 0 <= i < |records| => records[i].latency)
  }

  function QueueDelays(records: seq<Request>): (xs: seq<real>)
    ensures |xs| == |records|
  {
    seq(|records|, i requires 0 <= i < |records| => records[i].queueDelay)
  }

  function ServiceDelays(records: seq<Request>): (xs: seq<real>)
    ensures |xs| == |records|
  {
    seq(|records|, i requires 0 <= i < |records| => records[i].serviceDelay)
  }

  // ---- Counting a lane's requests ----

  /** How many of the entries from `from` on belong to the lane. */
  function CountFrom(ids: seq<nat>, from: nat, lane: nat): nat
    requires from <= |ids|
    decreases |ids| - from
  {
    if from == |ids| then 0 else (if ids[from] == lane then 1 else 0) + CountFrom(ids, from + 1, lane)
  }

  lemma {:induction false} CountAppend(ids: seq<nat>, from: nat, lane: nat, id: nat)
    requires from <= |ids|
    ensures CountFrom(ids + [id], from, lane) == CountFrom(ids, from, lane) + (if id == lane then 1 else 0)
    decreases |ids| - from
  {
    if from < |ids| {
      CountAppend(ids, from + 1, lane, id);
    } else {
      assert CountFrom(ids + [id], from + 1, lane) == 0;
    }
  }

  /** The issue times of a lane's requests, in order. */
  function LaneIssues(ids: seq<nat>, issues: seq<real>, lane: nat): seq<real>
    requires |ids| == |issues|
  {
    if |ids| == 0 then []
    else
      var n := |ids| - 1;
      LaneIssues(ids[..n], issues[..n], lane) + (if ids[n] == lane then [issues[n]] else [])
  }

  lemma LaneIssuesAppend(ids: seq<nat>, issues: seq<real>, lane: nat, id: nat, t: real)
    requires |ids| == |issues|
    ensures LaneIssues(ids + [id], issues + [t], lane)
         == LaneIssues(ids, issues, lane) + (if id == lane then [t] else [])
  {
    assert (ids + [id])[..|ids|] == ids;
    assert (issues + [t])[..|ids|] == issues;
  }

  // ---- Ages still running ----

  /** The time the given requests have waited so far. */
  function Age(issues: seq<real>, time: real): real {
    if |issues| == 0 then 0.0 else (time - issues[0]) + Age(issues[1..], time)
  }

  lemma {:induction false} AgeAdvance(issues: seq<real>, n: nat, time: real, t: real)
    requires n == |issues|
    ensures Age(issues, t) == Age(issues, time) + n as real * (t - time)
  {
    if n == 0 {
    } else {
      AgeAdvance(issues[1..], n - 1, time, t);
      var delta := t - time;
      assert (n as real - 1.0) * delta == n as real * delta - delta;
    }
  }

  lemma {:induction false} AgeSnoc(issues: seq<real>, time: real)
    ensures Age(issues + [time], time) == Age(issues, time)
  {
    if |issues| > 0 {
      assert (issues + [time])[1..] == issues[1..] + [time];
      AgeSnoc(issues[1..], time);
    } else {
      assert (issues + [time])[1..] == [];
    }
  }

  // ---- Stall accounting of one lane ----

  function GapSum(spec: CaseSpec, n: nat): real {
    if n == 0 then 0.0 else GapSum(spec, n - 1) + Gap(spec, n)
  }

  /** When the lane's k-th request became ready: the stagger for the first, the
      previous issue plus its gap for the others. */
  function ReadyAt(spec: CaseSpec, lane: nat, issues: seq<real>, k: nat): real
    requires k <= |issues|
  {
    if k == 0 then LaneOffset(lane) else issues[k - 1] + Gap(spec, k)
  }

  /** How many of the lane's requests were issued later than they became ready. */
  function LateCount(spec: CaseSpec, lane: nat, issues: seq<real>): nat {
    if |issues| == 0 then 0
    else
      var n := |issues| - 1;
      LateCount(spec, lane, issues[..n])
      + (if issues[n] > ReadyAt(spec, lane, issues[..n], n) then 1 else 0)
  }

  /** None was issued before it was ready. */
  predicate NoneEarly(spec: CaseSpec, lane: nat, issues: seq<real>) {
    |issues| == 0
    || (var n := |issues| - 1;
        NoneEarly(spec, lane, issues[..n]) && issues[n] >= ReadyAt(spec, lane, issues[..n], n))
  }

  /** By how much, in total. */
  function LateTime(spec: CaseSpec, lane: nat, issues: seq<real>): real {
    if |issues| == 0 then 0.0
    else
      var n := |issues| - 1;
      LateTime(spec, lane, issues[..n]) + (issues[n] - ReadyAt(spec, lane, issues[..n], n))
  }

  // ---- The invariant ----

  function Started(s: Sim): nat {
    s.completed + (if s.current.Some? then 1 else 0)
  }

  /** The queue is exactly the records not yet started, in issue order. */
  predicate QueueInv(spec: CaseSpec, s: Sim) {
    && Shape(s)
    && Started(s) <= |s.records| <= TotalRequests(spec)
    && (s.current.Some? ==> s.current.value == s.completed)
    && |s.queue| == |s.records| - Started(s)
    && (forall i :: 0 <= i < |s.queue| ==> s.queue[i] == Started(s) + i)
    && s.globalOutstanding == |s.records| - s.completed
    && s.nextRequestId == |s.records| + 1
    && |s.queue| <= s.queuePeak
    && s.globalOutstanding <= s.peakOutstanding
    && (|s.records| == 0 ==> s.queuePeak == 0 && s.peakOutstanding == 0)
    && (|s.records| > 0 ==>
          s.queuePeak <= spec.queueCapacity && s.peakOutstanding <= spec.globalLimit && LimitsPositive(spec))
  }

  /** The end of the service before record `i`. */
  function PreviousEnd(records: seq<Request>, i: nat): real
    requires i <= |records|
  {
    if i == 0 then 0.0 else records[i - 1].serviceEnd
  }

  predicate ServedCorrectly(spec: CaseSpec, records: seq<Request>, i: nat)
    requires i < |records| && spec.bandwidth > 0.0
  {
    var r := records[i];
    && r.serviceStart == Max(r.issue, PreviousEnd(records, i))
    && r.serviceDelay == ServiceDelay(spec, r)
    && r.serviceEnd == r.serviceStart + r.serviceDelay
    && r.queueDelay == r.serviceStart - r.issue
  }

  predicate FinishedCorrectly(spec: CaseSpec, r: Request) {
    && r.latency == r.serviceEnd - r.issue
    && r.hidden == HiddenLatency(spec, r)
    && r.hidden + r.exposed == r.latency
  }

  predicate TimingInv(spec: CaseSpec, s: Sim)
    requires QueueInv(spec, s) && TimingValid(spec)
  {
    && s.time >= 0.0
    && (forall i :: 0 <= i < |s.records| ==>
          && s.records[i].requestId == i + 1 && s.records[i].sizeBytes == spec.requestSize
          && 0.0 <= s.records[i].issue <= s.time)
    && (forall i, j :: 0 <= i <= j < |s.records| ==> s.records[i].issue <= s.records[j].issue)
    && (forall i :: 0 <= i < Started(s) ==> ServedCorrectly(spec, s.records, i))
    && (forall i :: 0 <= i < s.completed ==> FinishedCorrectly(spec, s.records[i]))
    && PreviousEnd(s.records, s.completed) <= s.time
    && (s.current.Some? ==> s.records[s.completed].serviceStart <= s.time <= s.records[s.completed].serviceEnd)
    && (StartDue(s) ==> s.time == Max(s.records[s.completed].issue, PreviousEnd(s.records, s.completed)))
  }

  /** Little's law with the requests still in flight: each area is the sum of
      the delays already finished and of the ages of those still running. */
  predicate AreaInv(s: Sim)
    requires Started(s) <= |s.records|
  {
    && s.outstandingArea == Sum(Latencies(s.records)[..s.completed]) + Age(Issues(s.records)[s.completed..], s.time)
    && s.queueArea == Sum(QueueDelays(s.records)[..Started(s)]) + Age(Issues(s.records)[Started(s)..], s.time)
  }

  predicate LaneInv(spec: CaseSpec, s: Sim, l: nat)
    requires QueueInv(spec, s) && l < |s.lanes|
  {
    var lane := s.lanes[l];
    var issues := LaneIssues(LaneIds(s.records), Issues(s.records), l);
    && lane.generated == |issues| <= spec.requestsPerLane
    && lane.outstanding == CountFrom(LaneIds(s.records), s.completed, l) <= spec.laneLimit
    && LaneClock(spec, l, lane, issues, s.time)
  }

  /** The lane's clock: blocked lanes have been ready since they were blocked,
      others are not overdue, and the stall totals are those of its issue times. */
  predicate LaneClock(spec: CaseSpec, l: nat, lane: Lane, issues: seq<real>, time: real)
    requires lane.generated == |issues|
  {
    && lane.nextReady == ReadyAt(spec, l, issues, |issues|)
    && lane.nextReady == LaneOffset(l) + GapSum(spec, |issues|) + lane.blockedStall
    && lane.blockedStall == LateTime(spec, l, issues)
    && NoneEarly(spec, l, issues)
    && lane.stallEvents == LateCount(spec, l, issues) + (if lane.blockedSince.Some? then 1 else 0)
    && (lane.blockedSince.Some? ==>
          lane.generated < spec.requestsPerLane && lane.blockedSince.value == lane.nextReady <= time)
    && (lane.blockedSince.None? && lane.generated < spec.requestsPerLane ==> time <= lane.nextReady)
  }

  function SumGenerated(lanes: seq<Lane>): nat {
    if |lanes| == 0 then 0 else SumGenerated(lanes[..|lanes| - 1]) + lanes[|lanes| - 1].generated
  }

  predicate LanesInv(spec: CaseSpec, s: Sim)
    requires QueueInv(spec, s)
  {
    && |s.lanes| == spec.numLanes
    && SumGenerated(s.lanes) == |s.records|
    && (forall l :: 0 <= l < |s.lanes| ==> LaneInv(spec, s, l))
  }

  predicate Inv(spec: CaseSpec, s: Sim) {
    && TimingValid(spec)
    && QueueInv(spec, s)
    && TimingInv(spec, s)
    && AreaInv(s)
    && LanesInv(spec, s)
  }

  // ---- Sums over lanes ----

  lemma {:induction false} SumGeneratedUpdate(lanes: seq<Lane>, l: nat, lane: Lane)
    requires l < |lanes|
    ensures SumGenerated(lanes[l := lane]) == SumGenerated(lanes) - lanes[l].generated + lane.generated
  {
    var n := |lanes| - 1;
    if l < n {
      assert lanes[l := lane][..n] == lanes[..n][l := lane];
      SumGeneratedUpdate(lanes[..n], l, lane);
    } else {
      assert lanes[l := lane][..n] == lanes[..n];
    }
  }

  lemma {:induction false} SumGeneratedSame(xs: seq<Lane>, ys: seq<Lane>)
    requires |xs| == |ys|
    requires forall l :: 0 <= l < |xs| ==> xs[l].generated == ys[l].generated
    ensures SumGenerated(xs) == SumGenerated(ys)
  {
    if |xs| == 0 {
    } else {
      SumGeneratedSame(xs[..|xs| - 1], ys[..|ys| - 1]);
    }
  }

  lemma {:induction false} SumGeneratedBound(lanes: seq<Lane>, n: nat)
    requires forall l :: 0 <= l < |lanes| ==> lanes[l].generated <= n
    ensures SumGenerated(lanes) <= |lanes| * n
    ensures SumGenerated(lanes) == |lanes| * n <==> forall l :: 0 <= l < |lanes| ==> lanes[l].generated == n
  {
    if |lanes| == 0 {
    } else {
      var m := |lanes| - 1;
      SumGeneratedBound(lanes[..m], n);
      assert |lanes| * n == |lanes[..m]| * n + n;
      assert forall l :: 0 <= l < m ==> lanes[..m][l] == lanes[l];
      assert (forall l :: 0 <= l < |lanes| ==> lanes[l].generated == n)
          <==> lanes[m].generated == n && (forall l :: 0 <= l < m ==> lanes[..m][l].generated == n);
    }
  }

  // ---- Init ----

  lemma InitKeeps(spec: CaseSpec)
    requires TimingValid(spec)
    ensures Inv(spec, Init(spec))
  {
    var s := Init(spec);
    SumGeneratedZero(s.lanes);
    assert Issues(s.records)[0..] == [];
    forall l | 0 <= l < |s.lanes| ensures LaneInv(spec, s, l) {
      assert LaneOffset(l) >= 0.0;
    }
  }

  lemma SumGeneratedZero(lanes: seq<Lane>)
    requires forall l :: 0 <= l < |lanes| ==> lanes[l].generated == 0
    ensures SumGenerated(lanes) == 0
  {
    SumGeneratedBound(lanes, 0);
  }

  // ---- Completing ----

  lemma CompleteKeeps(spec: CaseSpec, s: Sim)
    requires Inv(spec, s) && CompletionDue(s)
    ensures !Underflow(s)
    ensures Inv(spec, Complete(spec, s))
  {
    var l := s.records[s.completed].laneId;
    assert CountFrom(LaneIds(s.records), s.completed, l) >= 1;
    assert LaneInv(spec, s, l);
    var t := Complete(spec, s);
    assert QueueInv(spec, t);
    CompleteKeepsTiming(spec, s);
    CompleteKeepsArea(spec, s);
    hide TimingInv, AreaInv;
    forall k | 0 <= k < |t.lanes| ensures LaneInv(spec, t, k) {
      CompleteKeepsLane(spec, s, k);
    }
    SumGeneratedSame(s.lanes, t.lanes);
  }

  lemma CompleteKeepsLane(spec: CaseSpec, s: Sim, k: nat)
    requires QueueInv(spec, s) && CompletionDue(s) && !Underflow(s)
    requires k < |s.lanes| && LaneInv(spec, s, k)
    requires QueueInv(spec, Complete(spec, s))
    ensures LaneInv(spec, Complete(spec, s), k)
  {
    var t := Complete(spec, s);
    assert LaneIds(t.records) == LaneIds(s.records);
    assert Issues(t.records) == Issues(s.records);
  }

  lemma CompleteKeepsTiming(spec: CaseSpec, s: Sim)
    requires Inv(spec, s) && CompletionDue(s) && !Underflow(s)
    requires QueueInv(spec, Complete(spec, s))
    ensures TimingInv(spec, Complete(spec, s))
  {
    var c := s.completed;
    var t := Complete(spec, s);
    assert ServedCorrectly(spec, s.records, c);
    ServiceDelayPositive(spec, s.records[c]);
    CompletedIsFinished(spec, s.records[c]);
    hide HiddenLatency, ServiceDelay, TotalRequests, LimitsPositive, AreaInv, LanesInv, CompletedRecord;
    CompletedIsServed(spec, s.records[c]);
    forall i | 0 <= i < Started(t) ensures ServedCorrectly(spec, t.records, i) {
      assert ServedCorrectly(spec, s.records, i);
    }
    assert FinishedCorrectly(spec, t.records[c]);
    forall i | 0 <= i < t.completed ensures FinishedCorrectly(spec, t.records[i]) {
      if i < c { assert FinishedCorrectly(spec, s.records[i]); }
    }
  }

  lemma CompletedIsFinished(spec: CaseSpec, r: Request)
    ensures FinishedCorrectly(spec, CompletedRecord(spec, r))
  {
  }

  /** Completion writes the latencies only. */
  lemma CompletedIsServed(spec: CaseSpec, r: Request)
    requires spec.bandwidth > 0.0
    ensures var q := CompletedRecord(spec, r);
            && q.requestId == r.requestId && q.sizeBytes == r.sizeBytes && q.laneId == r.laneId
            && q.sequenceIndex == r.sequenceIndex && q.issue == r.issue
            && q.serviceStart == r.serviceStart && q.serviceEnd == r.serviceEnd
            && q.queueDelay == r.queueDelay && q.serviceDelay == r.serviceDelay
            && q.depthOnArrival == r.depthOnArrival && q.outstandingAfterIssue == r.outstandingAfterIssue
            && ServiceDelay(spec, q) == ServiceDelay(spec, r)
  {
    hide HiddenLatency;
  }

  lemma CompleteKeepsArea(spec: CaseSpec, s: Sim)
    requires Inv(spec, s) && CompletionDue(s) && !Underflow(s)
    requires QueueInv(spec, Complete(spec, s))
    ensures AreaInv(Complete(spec, s))
  {
    var c := s.completed;
    var t := Complete(spec, s);
    assert Issues(t.records) == Issues(s.records);
    assert QueueDelays(t.records) == QueueDelays(s.records);
    assert Latencies(t.records)[..c] == Latencies(s.records)[..c];
    SumTake(Latencies(t.records), c);
    assert Issues(s.records)[c..][1..] == Issues(s.records)[c + 1..];
    assert t.records[c].latency == s.time - s.records[c].issue;
  }

  // ---- Starting ----

  /** Starting touches only the record it starts. */
  predicate OnlyStarted(s: Sim, t: Sim) {
    && t.time == s.time && t.completed == s.completed && t.lanes == s.lanes
    && s.completed <= |s.records| == |t.records|
    && t.records[..s.completed] == s.records[..s.completed]
    && (if StartDue(s) then t.current.Some? else t == s)
  }

  lemma StartKeeps(spec: CaseSpec, s: Sim)
    requires Inv(spec, s)
    ensures Inv(spec, StartIfIdle(spec, s)) && OnlyStarted(s, StartIfIdle(spec, s))
    ensures StartDue(s) ==> !CompletionDue(StartIfIdle(spec, s))
  {
    if StartDue(s) {
      var t := StartIfIdle(spec, s);
      StartKeepsTiming(spec, s);
      StartKeepsArea(spec, s);
      assert LaneIds(t.records) == LaneIds(s.records);
      assert Issues(t.records) == Issues(s.records);
      hide TimingInv, AreaInv, ServiceDelay, LaneClock, CountFrom, LaneIssues, SumGenerated;
      forall l | 0 <= l < |t.lanes| ensures LaneInv(spec, t, l) {
        assert LaneInv(spec, s, l);
      }
    }
  }

  lemma StartKeepsTiming(spec: CaseSpec, s: Sim)
    requires Inv(spec, s) && StartDue(s)
    ensures var t := StartIfIdle(spec, s);
            QueueInv(spec, t) && TimingInv(spec, t) && OnlyStarted(s, t) && !CompletionDue(t)
  {
    hide AreaInv, LanesInv;
    var c := s.completed;
    var t := StartIfIdle(spec, s);
    ServiceDelayPositive(spec, s.records[c]);
    hide ServiceDelay, TotalRequests, LimitsPositive;
    assert s.queue[0] == c;
    assert t.records[c].serviceEnd == s.time + ServiceDelay(spec, s.records[c]);
    assert QueueInv(spec, t);
    SameDelay(spec, s.records[c], t.records[c]);
    assert ServedCorrectly(spec, t.records, c);
    forall i | 0 <= i < Started(t) ensures ServedCorrectly(spec, t.records, i) {
      if i < c { assert ServedCorrectly(spec, s.records, i); }
    }
  }

  /** A service delay depends only on what a request is issued with. */
  lemma SameDelay(spec: CaseSpec, q: Request, r: Request)
    requires spec.bandwidth > 0.0
    requires q.sizeBytes == r.sizeBytes && q.laneId == r.laneId && q.sequenceIndex == r.sequenceIndex
    ensures ServiceDelay(spec, q) == ServiceDelay(spec, r)
  {
  }

  lemma StartKeepsArea(spec: CaseSpec, s: Sim)
    requires Inv(spec, s) && StartDue(s) && QueueInv(spec, StartIfIdle(spec, s))
    ensures AreaInv(StartIfIdle(spec, s))
  {
    var c := s.completed;
    var t := StartIfIdle(spec, s);
    assert Issues(t.records) == Issues(s.records);
    assert Latencies(t.records) == Latencies(s.records);
    assert QueueDelays(t.records)[..c] == QueueDelays(s.records)[..c];
    SumTake(QueueDelays(t.records), c);
    assert Issues(s.records)[c..][1..] == Issues(s.records)[c + 1..];
    assert t.records[c].queueDelay == s.time - s.records[c].issue;
  }

  // ---- Issuing ----

  /** No lane was marked blocked at this very instant. */
  predicate NoFreshStall(s: Sim) {
    forall l :: 0 <= l < |s.lanes| && s.lanes[l].blockedSince.Some? ==> s.lanes[l].nextReady < s.time
  }

  lemma IssueKeeps(spec: CaseSpec, s: Sim, l: nat)
    requires Inv(spec, s) && NoFreshStall(s) && !CompletionDue(s)
    requires l < |s.lanes| && LaneCanIssue(spec, s, l)
    ensures Inv(spec, IssueLane(spec, s, l)) && NoFreshStall(IssueLane(spec, s, l))
    ensures !CompletionDue(IssueLane(spec, s, l))
  {
    IssueKeepsQueue(spec, s, l);
    IssueKeepsLanes(spec, s, l);
    IssueKeepsTiming(spec, s, l);
    IssueKeepsArea(spec, s, l);
    hide QueueInv, TimingInv, AreaInv, LanesInv, IssueLane;
  }

  lemma IssueKeepsLanes(spec: CaseSpec, s: Sim, l: nat)
    requires TimingValid(spec) && QueueInv(spec, s) && LanesInv(spec, s) && NoFreshStall(s)
    requires l < |s.lanes| && LaneCanIssue(spec, s, l)
    requires QueueInv(spec, IssueLane(spec, s, l))
    ensures LanesInv(spec, IssueLane(spec, s, l))
  {
    var t := IssueLane(spec, s, l);
    IssueIsWithinTotal(spec, s, l);
    hide TotalRequests, LimitsPositive, SumGenerated;
    forall k | 0 <= k < |t.lanes| ensures LaneInv(spec, t, k) {
      assert LaneInv(spec, s, k);
      IssueKeepsLane(spec, s, l, k);
    }
  }

  lemma IssueKeepsQueue(spec: CaseSpec, s: Sim, l: nat)
    requires QueueInv(spec, s) && LanesInv(spec, s) && NoFreshStall(s) && !CompletionDue(s)
    requires l < |s.lanes| && LaneCanIssue(spec, s, l)
    ensures QueueInv(spec, IssueLane(spec, s, l)) && NoFreshStall(IssueLane(spec, s, l))
    ensures !CompletionDue(IssueLane(spec, s, l))
  {
    IssueIsWithinTotal(spec, s, l);
    hide TotalRequests, LimitsPositive, SumGenerated, LaneInv;
  }

  /** A lane that can issue has a request left, so one more is within the total. */
  lemma IssueIsWithinTotal(spec: CaseSpec, s: Sim, l: nat)
    requires QueueInv(spec, s) && LanesInv(spec, s) && l < |s.lanes| && LaneCanIssue(spec, s, l)
    ensures SumGenerated(IssueLane(spec, s, l).lanes) == |s.records| + 1 <= TotalRequests(spec)
  {
    var t := IssueLane(spec, s, l);
    assert LaneInv(spec, s, l);
    SumGeneratedUpdate(s.lanes, l, t.lanes[l]);
    forall k | 0 <= k < |t.lanes| ensures t.lanes[k].generated <= spec.requestsPerLane {
      assert LaneInv(spec, s, k);
    }
    SumGeneratedBound(t.lanes, spec.requestsPerLane);
  }

  lemma IssueKeepsLane(spec: CaseSpec, s: Sim, l: nat, k: nat)
    requires TimingValid(spec) && QueueInv(spec, s) && NoFreshStall(s)
    requires l < |s.lanes| && LaneCanIssue(spec, s, l)
    requires k < |s.lanes| && LaneInv(spec, s, k)
    requires QueueInv(spec, IssueLane(spec, s, l))
    ensures LaneInv(spec, IssueLane(spec, s, l), k)
  {
    var t := IssueLane(spec, s, l);
    var ids, issues := LaneIds(s.records), Issues(s.records);
    var own := LaneIssues(ids, issues, k);
    assert LaneIds(t.records) == ids + [l];
    assert Issues(t.records) == issues + [s.time];
    LaneIssuesAppend(ids, issues, k, l, s.time);
    CountAppend(ids, s.completed, k, l);
    if k == l {
      assert LaneIssues(LaneIds(t.records), Issues(t.records), k) == own + [s.time];
      IssuedLaneClock(spec, l, s.lanes[l], own, s.time);
    } else {
      assert LaneIssues(LaneIds(t.records), Issues(t.records), k) == own;
      assert t.lanes[k] == s.lanes[k];
    }
  }

  lemma IssueKeepsTiming(spec: CaseSpec, s: Sim, l: nat)
    requires Inv(spec, s) && l < |s.lanes| && LaneCanIssue(spec, s, l)
    requires QueueInv(spec, IssueLane(spec, s, l))
    ensures TimingInv(spec, IssueLane(spec, s, l))
  {
    var t := IssueLane(spec, s, l);
    forall i | 0 <= i < Started(t) ensures ServedCorrectly(spec, t.records, i) {
      assert ServedCorrectly(spec, s.records, i);
    }
    forall i | 0 <= i < t.completed ensures FinishedCorrectly(spec, t.records[i]) {
      assert FinishedCorrectly(spec, s.records[i]);
    }
  }

  /** Services that have ended did so by now, each after it started. */
  lemma {:induction false} EndedByNow(spec: CaseSpec, s: Sim, j: nat)
    requires TimingValid(spec) && QueueInv(spec, s) && TimingInv(spec, s) && j < s.completed
    ensures s.records[j].serviceStart <= s.records[j].serviceEnd <= s.time
    decreases s.completed - j
  {
    hide ServiceDelay;
    assert ServedCorrectly(spec, s.records, j);
    ServiceDelayPositive(spec, s.records[j]);
    if j + 1 < s.completed {
      EndedByNow(spec, s, j + 1);
      assert ServedCorrectly(spec, s.records, j + 1);
    }
  }

  lemma IssueKeepsArea(spec: CaseSpec, s: Sim, l: nat)
    requires QueueInv(spec, s) && AreaInv(s) && l < |s.lanes| && LaneCanIssue(spec, s, l)
    requires QueueInv(spec, IssueLane(spec, s, l))
    ensures AreaInv(IssueLane(spec, s, l))
  {
    var t := IssueLane(spec, s, l);
    var c, d := s.completed, Started(s);
    assert Issues(t.records)[c..] == Issues(s.records)[c..] + [s.time];
    assert Issues(t.records)[d..] == Issues(s.records)[d..] + [s.time];
    AgeSnoc(Issues(s.records)[c..], s.time);
    AgeSnoc(Issues(s.records)[d..], s.time);
    assert Latencies(t.records)[..c] == Latencies(s.records)[..c];
    assert QueueDelays(t.records)[..d] == QueueDelays(s.records)[..d];
  }

  lemma IssuedLaneClock(spec: CaseSpec, l: nat, lane: Lane, issues: seq<real>, time: real)
    requires TimingValid(spec) && lane.generated == |issues|
    requires LaneClock(spec, l, lane, issues, time) && LaneReady(spec, lane, time)
    requires lane.blockedSince.Some? ==> lane.nextReady < time
    ensures LaneClock(spec, l, IssuedLane(spec, lane, time), issues + [time], time)
  {
    assert (issues + [time])[..|issues|] == issues;
  }

  // ---- Marking, and moving on ----

  lemma MarkKeeps(spec: CaseSpec, s: Sim)
    requires Inv(spec, s)
    ensures Inv(spec, MarkBlockedLanes(spec, s))
  {
    var t := MarkBlockedLanes(spec, s);
    assert t.records == s.records;
    MarkKeepsRecords(spec, s, t.lanes);
    SumGeneratedSame(s.lanes, t.lanes);
    forall l | 0 <= l < |t.lanes| ensures LaneInv(spec, t, l) {
      MarkKeepsLane(spec, s, l);
    }
  }

  /** Nothing but the lanes' own invariant depends on what is stored in them. */
  lemma MarkKeepsRecords(spec: CaseSpec, s: Sim, lanes: seq<Lane>)
    requires TimingValid(spec) && QueueInv(spec, s) && TimingInv(spec, s) && AreaInv(s)
    requires |lanes| == |s.lanes|
    ensures var t := s.(lanes := lanes); QueueInv(spec, t) && TimingInv(spec, t) && AreaInv(t)
  {
    hide TimingValid, LimitsPositive, TotalRequests, ServedCorrectly, FinishedCorrectly, PreviousEnd;
    hide Sum, Age, Latencies, QueueDelays, Issues;
    var t := s.(lanes := lanes);
    assert t.records == s.records && Started(t) == Started(s);
    assert QueueInv(spec, t);
  }

  lemma MarkKeepsLane(spec: CaseSpec, s: Sim, l: nat)
    requires QueueInv(spec, s) && l < |s.lanes| && LaneInv(spec, s, l)
    requires QueueInv(spec, MarkBlockedLanes(spec, s))
    ensures LaneInv(spec, MarkBlockedLanes(spec, s), l)
  {
  }

  lemma AdvanceKeeps(spec: CaseSpec, s: Sim, t: real)
    requires Inv(spec, s) && !StartDue(s) && s.time <= t
    requires s.current.Some? ==> t <= s.records[s.current.value].serviceEnd
    requires forall l :: 0 <= l < |s.lanes| ==> NotOverdueAt(spec, s.lanes[l], t)
    ensures Inv(spec, AdvanceTo(s, t))
    ensures s.time < t ==> NoFreshStall(AdvanceTo(s, t))
  {
    forall l | 0 <= l < |s.lanes| && s.lanes[l].blockedSince.Some? ensures s.lanes[l].nextReady <= s.time {
      assert LaneInv(spec, s, l);
    }
    var a := AdvanceTo(s, t);
    assert QueueInv(spec, a);
    AdvanceKeepsTiming(spec, s, t);
    AdvanceKeepsArea(s, t);
    hide TimingInv, AreaInv, TotalRequests, LimitsPositive;
    forall l | 0 <= l < |a.lanes| ensures LaneInv(spec, a, l) {
      AdvanceKeepsLane(spec, s, t, l);
    }
  }

  lemma AdvanceKeepsTiming(spec: CaseSpec, s: Sim, t: real)
    requires TimingValid(spec) && QueueInv(spec, s) && TimingInv(spec, s) && !StartDue(s) && s.time <= t
    requires s.current.Some? ==> t <= s.records[s.current.value].serviceEnd
    requires QueueInv(spec, AdvanceTo(s, t))
    ensures TimingInv(spec, AdvanceTo(s, t))
  {
    var a := AdvanceTo(s, t);
    forall i | 0 <= i < Started(a) ensures ServedCorrectly(spec, a.records, i) {
      assert ServedCorrectly(spec, s.records, i);
    }
  }

  lemma AdvanceKeepsLane(spec: CaseSpec, s: Sim, t: real, l: nat)
    requires QueueInv(spec, s) && QueueInv(spec, AdvanceTo(s, t)) && s.time <= t
    requires l < |s.lanes| && LaneInv(spec, s, l) && NotOverdueAt(spec, s.lanes[l], t)
    ensures LaneInv(spec, AdvanceTo(s, t), l)
  {
  }

  /** A lane that still has requests and is not marked blocked is not ready before `t`. */
  predicate NotOverdueAt(spec: CaseSpec, lane: Lane, t: real) {
    lane.generated < spec.requestsPerLane && lane.blockedSince.None? ==> t <= lane.nextReady
  }

  lemma AdvanceKeepsOutstandingArea(s: Sim, t: real, base: real, inFlight: seq<real>)
    requires s.outstandingArea == base + Age(inFlight, s.time) && |inFlight| == s.globalOutstanding
    ensures AdvanceTo(s, t).outstandingArea == base + Age(inFlight, t)
  {
    AgeAdvance(inFlight, s.globalOutstanding, s.time, t);
  }

  lemma AdvanceKeepsQueueArea(s: Sim, t: real, base: real, queued: seq<real>)
    requires s.queueArea == base + Age(queued, s.time) && |queued| == |s.queue|
    ensures AdvanceTo(s, t).queueArea == base + Age(queued, t)
  {
    AgeAdvance(queued, |s.queue|, s.time, t);
  }

  lemma AdvanceKeepsArea(s: Sim, t: real)
    requires Started(s) <= |s.records| && AreaInv(s)
    requires s.globalOutstanding == |s.records| - s.completed && |s.queue| == |s.records| - Started(s)
    ensures AreaInv(AdvanceTo(s, t))
  {
    AdvanceKeepsOutstandingArea(s, t, Sum(Latencies(s.records)[..s.completed]), Issues(s.records)[s.completed..]);
    AdvanceKeepsQueueArea(s, t, Sum(QueueDelays(s.records)[..Started(s)]), Issues(s.records)[Started(s)..]);
  }
}
