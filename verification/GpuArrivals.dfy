/** What the requests of an AT-7 run found on arrival: their number in their lane, the queue
    and the requests in flight; and the peaks of a run. */
module GpuArrivals {
  import opened SimTime
  import opened GpuModel
  import opened GpuInvariant
  import opened GpuTheorems

  /** How many of the first `i` entries belong to the lane. */
  function OwnBefore(ids: seq<nat>, i: nat, lane: nat): nat
    requires i <= |ids|
  {
    if i == 0 then 0 else OwnBefore(ids, i - 1, lane) + (if ids[i - 1] == lane then 1 else 0)
  }

  /** Where the `j`-th request stood when request `i` was issued: queued if it is one of the
      last `depthOnArrival` before it, and in flight unless it had ended by then. */
  predicate Found(r: Request, i: nat, j: nat, other: Request, started: nat, completed: nat) {
    && (if j < i - r.depthOnArrival then j < started && other.serviceStart <= r.issue
        else j < started ==> r.issue <= other.serviceStart)
    && (if j < i + 1 - r.outstandingAfterIssue then j < completed && other.serviceEnd <= r.issue
        else j < started ==> r.issue < other.serviceEnd)
  }

  predicate FoundRight(records: seq<Request>, started: nat, completed: nat, i: nat)
    requires i < |records| && completed <= started <= |records|
  {
    var r := records[i];
    && r.depthOnArrival <= i && 1 <= r.outstandingAfterIssue <= i + 1
    && r.sequenceIndex == OwnBefore(LaneIds(records), i, r.laneId)
    && (forall j :: 0 <= j < i ==> Found(r, i, j, records[j], started, completed))
  }

  function DepthsAfter(records: seq<Request>): (xs: seq<nat>)
    ensures |xs| == |records|
  {
    seq(|records|, i requires 0 <= i < |records| => records[i].depthOnArrival + 1)
  }

  function Outstandings(records: seq<Request>): (xs: seq<nat>)
    ensures |xs| == |records|
  {
    seq(|records|, i requires 0 <= i < |records| => records[i].outstandingAfterIssue)
  }

  function MaxOf(xs: seq<nat>): nat {
    if |xs| == 0 then 0 else NatMax(MaxOf(xs[..|xs| - 1]), xs[|xs| - 1])
  }

  predicate ArrivalInv(s: Sim) {
    && Started(s) <= |s.records|
    && (forall i :: 0 <= i < |s.records| ==> FoundRight(s.records, Started(s), s.completed, i))
    && s.queuePeak == MaxOf(DepthsAfter(s.records))
    && s.peakOutstanding == MaxOf(Outstandings(s.records))
  }

  // ---- Completing and starting ----

  lemma CompleteKeepsArrival(spec: CaseSpec, s: Sim)
    requires QueueInv(spec, s) && ArrivalInv(s) && CompletionDue(s) && !Underflow(s)
    ensures ArrivalInv(Complete(spec, s))
  {
    hide TotalRequests, LimitsPositive, MaxOf, HiddenLatency;
    var t := Complete(spec, s);
    assert LaneIds(t.records) == LaneIds(s.records);
    assert DepthsAfter(t.records) == DepthsAfter(s.records);
    assert Outstandings(t.records) == Outstandings(s.records);
    forall i | 0 <= i < |t.records| ensures FoundRight(t.records, Started(t), t.completed, i) {
      assert FoundRight(s.records, Started(s), s.completed, i);
    }
  }

  lemma StartKeepsArrival(spec: CaseSpec, s: Sim)
    requires TimingValid(spec) && QueueInv(spec, s) && TimingInv(spec, s) && ArrivalInv(s) && StartDue(s)
    ensures ArrivalInv(StartIfIdle(spec, s))
  {
    var c := s.completed;
    var t := StartIfIdle(spec, s);
    ServiceDelayPositive(spec, s.records[c]);
    hide TotalRequests, LimitsPositive, MaxOf, ServiceDelay, TimingValid;
    assert s.queue[0] == c;
    assert LaneIds(t.records) == LaneIds(s.records);
    assert DepthsAfter(t.records) == DepthsAfter(s.records);
    assert Outstandings(t.records) == Outstandings(s.records);
    forall i | 0 <= i < |t.records| ensures FoundRight(t.records, Started(t), t.completed, i) {
      assert FoundRight(s.records, Started(s), s.completed, i);
    }
  }

  // ---- Issuing ----

  lemma {:induction false} OwnBeforeIsIssued(ids: seq<nat>, issues: seq<real>, i: nat, lane: nat)
    requires i <= |ids| == |issues|
    ensures OwnBefore(ids, i, lane) == |LaneIssues(ids[..i], issues[..i], lane)|
  {
    if i == 0 {
    } else {
      OwnBeforeIsIssued(ids, issues, i - 1, lane);
      assert ids[..i][..i - 1] == ids[..i - 1] && issues[..i][..i - 1] == issues[..i - 1];
    }
  }

  lemma {:induction false} OwnBeforeExtends(ids: seq<nat>, longer: seq<nat>, i: nat, lane: nat)
    requires i <= |ids| && ids <= longer
    ensures OwnBefore(longer, i, lane) == OwnBefore(ids, i, lane)
  {
    if i == 0 {
    } else {
      OwnBeforeExtends(ids, longer, i - 1, lane);
    }
  }

  lemma IssueKeepsArrival(spec: CaseSpec, s: Sim, l: nat)
    requires TimingValid(spec) && QueueInv(spec, s) && TimingInv(spec, s) && ArrivalInv(s) && LanesInv(spec, s)
    requires !CompletionDue(s) && l < |s.lanes| && LaneCanIssue(spec, s, l)
    ensures ArrivalInv(IssueLane(spec, s, l))
  {
    var t := IssueLane(spec, s, l);
    NewRequestFoundRight(spec, s, l);
    IssueKeepsPeaks(spec, s, l);
    ArrivalExtends(s, t, NewRecord(spec, s, l));
    hide TotalRequests, LimitsPositive, TimingInv, LanesInv, ArrivalInv;
  }

  lemma ArrivalExtends(s: Sim, t: Sim, r: Request)
    requires Started(t) == Started(s) && ArrivalInv(s)
    requires t.records == s.records + [r] && t.completed == s.completed
    requires t.queuePeak == MaxOf(DepthsAfter(t.records)) && t.peakOutstanding == MaxOf(Outstandings(t.records))
    requires FoundRight(t.records, Started(t), t.completed, |s.records|)
    ensures ArrivalInv(t)
  {
    hide MaxOf, FoundRight, DepthsAfter, Outstandings;
    forall i | 0 <= i < |s.records| ensures FoundRight(t.records, Started(t), t.completed, i) {
      FoundRightExtends(s.records, t.records, Started(s), s.completed, i);
    }
  }

  lemma IssueKeepsPeaks(spec: CaseSpec, s: Sim, l: nat)
    requires Shape(s) && l < |s.lanes|
    requires s.queuePeak == MaxOf(DepthsAfter(s.records)) && s.peakOutstanding == MaxOf(Outstandings(s.records))
    ensures var t := IssueLane(spec, s, l);
            && t.completed == s.completed && t.current == s.current
            && t.queuePeak == MaxOf(DepthsAfter(t.records)) && t.peakOutstanding == MaxOf(Outstandings(t.records))
  {
    PeaksSnoc(s.records, NewRecord(spec, s, l));
    hide MaxOf, DepthsAfter, Outstandings;
  }

  lemma PeaksSnoc(records: seq<Request>, r: Request)
    ensures MaxOf(DepthsAfter(records + [r])) == NatMax(MaxOf(DepthsAfter(records)), r.depthOnArrival + 1)
    ensures MaxOf(Outstandings(records + [r])) == NatMax(MaxOf(Outstandings(records)), r.outstandingAfterIssue)
  {
    assert DepthsAfter(records + [r]) == DepthsAfter(records) + [r.depthOnArrival + 1];
    assert Outstandings(records + [r]) == Outstandings(records) + [r.outstandingAfterIssue];
    hide MaxOf, DepthsAfter, Outstandings;
    MaxOfSnoc(DepthsAfter(records), r.depthOnArrival + 1);
    MaxOfSnoc(Outstandings(records), r.outstandingAfterIssue);
  }

  lemma FoundRightExtends(records: seq<Request>, longer: seq<Request>, started: nat, completed: nat, i: nat)
    requires i < |records| && completed <= started <= |records| && records <= longer
    requires FoundRight(records, started, completed, i)
    ensures FoundRight(longer, started, completed, i)
  {
    OwnBeforeExtends(LaneIds(records), LaneIds(longer), i, records[i].laneId);
    hide OwnBefore, LaneIds, Found;
    assert longer[i] == records[i];
    assert forall j :: 0 <= j < i ==> longer[j] == records[j];
  }

  lemma MaxOfSnoc(xs: seq<nat>, x: nat)
    ensures MaxOf(xs + [x]) == NatMax(MaxOf(xs), x)
  {
    assert (xs + [x])[..|xs|] == xs;
  }

  lemma NewRequestFoundRight(spec: CaseSpec, s: Sim, l: nat)
    requires TimingValid(spec) && QueueInv(spec, s) && TimingInv(spec, s) && LanesInv(spec, s)
    requires !CompletionDue(s) && l < |s.lanes| && LaneCanIssue(spec, s, l)
    ensures var t := IssueLane(spec, s, l); FoundRight(t.records, Started(t), t.completed, |s.records|)
  {
    hide TotalRequests, LimitsPositive;
    var t := IssueLane(spec, s, l);
    var n, ids, issues := |s.records|, LaneIds(s.records), Issues(s.records);
    assert LaneInv(spec, s, l);
    assert ids[..n] == ids && issues[..n] == issues;
    OwnBeforeIsIssued(ids, issues, n, l);
    hide LaneClock, LaneIssues, OwnBefore, CountFrom, SumGenerated, ServiceDelay;
    assert LaneIds(t.records) == ids + [l];
    OwnBeforeExtends(ids, LaneIds(t.records), n, l);
    forall j | 0 <= j < s.completed
      ensures t.records[j].serviceStart <= s.time && t.records[j].serviceEnd <= s.time
    {
      EndedByNow(spec, s, j);
    }
  }

  lemma AdvanceKeepsArrival(s: Sim, t: real)
    requires ArrivalInv(s)
    ensures ArrivalInv(AdvanceTo(s, t))
  {
    hide FoundRight, MaxOf, DepthsAfter, Outstandings;
  }

  // ---- Whole runs ----

  lemma StartHasArrivals(spec: CaseSpec, s: Sim)
    requires Inv(spec, s) && ArrivalInv(s)
    ensures ArrivalInv(StartIfIdle(spec, s))
  {
    hide ArrivalInv, AreaInv, LanesInv;
    if StartDue(s) {
      StartKeepsArrival(spec, s);
    }
  }

  lemma CompleteHasArrivals(spec: CaseSpec, s: Sim)
    requires Inv(spec, s) && CompletionDue(s) && ArrivalInv(s)
    ensures !Underflow(s) && ArrivalInv(Complete(spec, s))
  {
    CompleteKeeps(spec, s);
    hide ArrivalInv, Complete, TimingInv, AreaInv, LanesInv;
    CompleteKeepsArrival(spec, s);
  }

  /** Completing and restarting: at most one completion is due. */
  lemma DrainHasArrivals(spec: CaseSpec, s: Sim)
    requires Inv(spec, s) && NoFreshStall(s) && ArrivalInv(s)
    ensures DrainCompletions(spec, s).Drained? && ArrivalInv(DrainCompletions(spec, s).sim)
  {
    InvImpliesShape(spec, s);
    if CompletionDue(s) {
      CompleteKeeps(spec, s);
      CompleteHasArrivals(spec, s);
      var b := Complete(spec, s);
      StartHasArrivals(spec, b);
      StartIsNotDue(spec, b);
      hide Inv, ArrivalInv, StartIfIdle;
    }
  }

  lemma IssueHasArrivals(spec: CaseSpec, s: Sim, l: nat)
    requires Inv(spec, s) && ArrivalInv(s) && !CompletionDue(s) && l < |s.lanes| && LaneCanIssue(spec, s, l)
    ensures ArrivalInv(IssueLane(spec, s, l))
  {
    hide ArrivalInv, QueueInv, TimingInv, LanesInv, IssueLane, AreaInv;
    IssueKeepsArrival(spec, s, l);
  }

  lemma {:induction false} PassHasArrivals(spec: CaseSpec, s: Sim, l: nat, issued: bool)
    requires Inv(spec, s) && NoFreshStall(s) && !CompletionDue(s) && l <= |s.lanes| && ArrivalInv(s)
    ensures ArrivalInv(IssuePass(spec, s, l, issued).0)
    decreases |s.lanes| - l
  {
    InvImpliesShape(spec, s);
    hide Inv, ArrivalInv;
    if l < |s.lanes| {
      if LaneCanIssue(spec, s, l) {
        IssueKeeps(spec, s, l);
        IssueHasArrivals(spec, s, l);
        PassHasArrivals(spec, IssueLane(spec, s, l), l + 1, true);
      } else {
        PassHasArrivals(spec, s, l + 1, issued);
      }
    }
  }

  lemma {:induction false} AllHasArrivals(spec: CaseSpec, s: Sim)
    requires Inv(spec, s) && NoFreshStall(s) && !CompletionDue(s) && ArrivalInv(s)
    ensures ArrivalInv(IssueAll(spec, s).0)
    decreases Ungenerated(spec, s.lanes)
  {
    InvImpliesShape(spec, s);
    hide Inv, ArrivalInv;
    IssuePassKeeps(spec, s, 0, false);
    PassHasArrivals(spec, s, 0, false);
    var pass := IssuePass(spec, s, 0, false);
    if pass.1 {
      AllHasArrivals(spec, pass.0);
    }
  }

  lemma ReadyHasArrivals(spec: CaseSpec, s: Sim)
    requires Inv(spec, s) && NoFreshStall(s) && !CompletionDue(s) && ArrivalInv(s)
    ensures ArrivalInv(IssueReady(spec, s).0)
  {
    InvImpliesShape(spec, s);
    AllHasArrivals(spec, s);
    hide Inv, FoundRight, MaxOf, DepthsAfter, Outstandings, IssueAll;
  }

  lemma StartIsFresh(spec: CaseSpec, a: Sim)
    requires Inv(spec, a) && NoFreshStall(a) && !CompletionDue(a)
    ensures NoFreshStall(StartIfIdle(spec, a)) && !CompletionDue(StartIfIdle(spec, a))
  {
    StartKeeps(spec, a);
  }

  lemma BeforeMoveHasArrivals(spec: CaseSpec, s: Sim)
    requires LoopInv(spec, s) && ArrivalInv(s)
    ensures ArrivalInv(BeforeMove(spec, s))
  {
    hide Inv, ArrivalInv, DrainCompletions, StartIfIdle, IssueReady;
    InvImpliesShape(spec, s);
    DrainKeeps(spec, s);
    DrainHasArrivals(spec, s);
    var a := DrainCompletions(spec, s).sim;
    StartKeeps(spec, a);
    StartHasArrivals(spec, a);
    var b := StartIfIdle(spec, a);
    StartIsFresh(spec, a);
    IssueReadyKeeps(spec, b);
    ReadyHasArrivals(spec, b);
    StartHasArrivals(spec, IssueReady(spec, b).0);
  }

  lemma IterateHasArrivals(spec: CaseSpec, s: Sim)
    requires LoopInv(spec, s) && ArrivalInv(s)
    ensures var step := Iterate(spec, s);
            && (step.Continue? ==> ArrivalInv(step.next)) && (step.Finish? ==> ArrivalInv(step.final))
  {
    IterateIsMove(spec, s);
    BeforeMoveHasArrivals(spec, s);
    hide LoopInv, BeforeMove, Iterate, ArrivalInv, MoveOn;
    var d := BeforeMove(spec, s);
    var progress :| Iterate(spec, s) == MoveOn(spec, d, progress);
    MoveHasArrivals(spec, d, progress);
  }

  lemma MoveHasArrivals(spec: CaseSpec, d: Sim, progress: bool)
    requires Shape(d) && ArrivalInv(d)
    ensures var step := MoveOn(spec, d, progress);
            && (step.Continue? ==> ArrivalInv(step.next)) && (step.Finish? ==> ArrivalInv(step.final))
  {
    hide ArrivalInv, NextEvent, TotalRequests, AnyLaneHasWork;
    AdvanceKeepsArrival(d, d.time + HOP);
    if NextEvent(spec, d).Some? {
      AdvanceKeepsArrival(d, NextEvent(spec, d).value);
    }
  }

  lemma {:induction false} RunFromHasArrivals(spec: CaseSpec, s: Sim)
    requires LoopInv(spec, s) && ArrivalInv(s) && RunFrom(spec, s).Completed?
    ensures ArrivalInv(RunFrom(spec, s).final)
    decreases TotalRequests(spec) - Credited(s), TotalRequests(spec) - |s.records|, NotReady(spec, s.lanes, s.time)
  {
    InBounds(spec, s);
    hide LoopInv, ArrivalInv, TotalRequests, Iterate, NotReady;
    if s.completed < TotalRequests(spec) {
      IterateHasArrivals(spec, s);
      RunFromUnfolds(spec, s);
      var step := Iterate(spec, s);
      if step.Continue? {
        InBounds(spec, step.next);
        RunFromHasArrivals(spec, step.next);
      }
    }
  }

  lemma InBounds(spec: CaseSpec, s: Sim)
    requires LoopInv(spec, s)
    ensures Shape(s) && Credited(s) <= TotalRequests(spec) && |s.records| <= TotalRequests(spec)
  {
    CreditBounded(spec, s);
  }

  lemma InitHasArrivals(spec: CaseSpec)
    ensures ArrivalInv(Init(spec))
  {
  }

  /** What every completed run leaves. */
  lemma RunHasArrivals(spec: CaseSpec)
    requires TimingValid(spec) && RunCase(spec).Completed?
    ensures RunDone(spec, RunCase(spec).final) && ArrivalInv(RunCase(spec).final)
  {
    RunEnds(spec);
    InitIsLoopHead(spec);
    InitHasArrivals(spec);
    hide RunDone, LoopInv, ArrivalInv, Init, RunFrom;
    RunFromHasArrivals(spec, Init(spec));
  }

  // ---- What a completed run reports ----

  /** How many requests before the i-th were in flight when it was issued: those that
      ended only later. */
  function InFlightBefore(records: seq<Request>, i: nat, n: nat): nat
    requires n <= i < |records|
  {
    if n == 0 then 0
    else InFlightBefore(records, i, n - 1) + (if records[n - 1].serviceEnd > records[i].issue then 1 else 0)
  }

  lemma {:induction false} InFlightIs(records: seq<Request>, i: nat, n: nat, ended: nat)
    requires n <= i < |records| && ended <= i
    requires forall j :: 0 <= j < ended ==> records[j].serviceEnd <= records[i].issue
    requires forall j :: ended <= j < i ==> records[i].issue < records[j].serviceEnd
    ensures InFlightBefore(records, i, n) == if n <= ended then 0 else n - ended
  {
    if n == 0 {
    } else {
      InFlightIs(records, i, n - 1, ended);
    }
  }

  lemma FoundRightAtEnd(spec: CaseSpec, i: nat)
    requires TimingValid(spec) && RunCase(spec).Completed? && i < |RunCase(spec).final.records|
    ensures var f := RunCase(spec).final;
            && FoundRight(f.records, |f.records|, |f.records|, i)
            && f.queuePeak == MaxOf(DepthsAfter(f.records)) && f.peakOutstanding == MaxOf(Outstandings(f.records))
  {
    RunHasArrivals(spec);
    hide RunCase, FoundRight, MaxOf, DepthsAfter, Outstandings, TimingInv, AreaInv, LanesInv;
    var f := RunCase(spec).final;
    assert FoundRight(f.records, Started(f), f.completed, i);
  }

  /** What every request of a completed run reports to have found: its number in its lane,
      the requests in flight with it, exactly, and the queue, which is the last of the
      requests before it: those started earlier had left it, those that started later
      had not. */
  lemma ArrivalsAreExact(spec: CaseSpec, i: nat)
    requires TimingValid(spec) && RunCase(spec).Completed? && i < |RunCase(spec).final.records|
    ensures var records := RunCase(spec).final.records;
            var r := records[i];
            && r.sequenceIndex == OwnBefore(LaneIds(records), i, r.laneId)
            && r.outstandingAfterIssue == InFlightBefore(records, i, i) + 1
            && r.depthOnArrival <= i
            && (forall j :: 0 <= j < i && records[j].serviceStart < r.issue ==> j < i - r.depthOnArrival)
            && (forall j :: 0 <= j < i && r.issue < records[j].serviceStart ==> i - r.depthOnArrival <= j)
  {
    FoundRightAtEnd(spec, i);
    hide RunCase, MaxOf, TimingValid;
    FoundMeans(RunCase(spec).final.records, i);
  }

  lemma FoundMeans(records: seq<Request>, i: nat)
    requires i < |records| && FoundRight(records, |records|, |records|, i)
    ensures var r := records[i];
            && r.outstandingAfterIssue == InFlightBefore(records, i, i) + 1
            && (forall j :: 0 <= j < i && records[j].serviceStart < r.issue ==> j < i - r.depthOnArrival)
            && (forall j :: 0 <= j < i && r.issue < records[j].serviceStart ==> i - r.depthOnArrival <= j)
  {
    InFlightIs(records, i, i, i + 1 - records[i].outstandingAfterIssue);
  }

  lemma {:induction false} MaxOfIsLargest(xs: seq<nat>)
    ensures forall i :: 0 <= i < |xs| ==> xs[i] <= MaxOf(xs)
    ensures |xs| > 0 ==> MaxOf(xs) in xs
  {
    if |xs| == 0 {
    } else {
      var n := |xs| - 1;
      MaxOfIsLargest(xs[..n]);
      assert forall i :: 0 <= i < n ==> xs[..n][i] == xs[i];
    }
  }

  /** The reported peaks are reached by some request and exceeded by none. */
  lemma PeaksAreReached(spec: CaseSpec, i: nat) returns (q: nat, o: nat)
    requires TimingValid(spec) && RunCase(spec).Completed? && i < |RunCase(spec).final.records|
    ensures var f := RunCase(spec).final;
            && q < |f.records| && f.queuePeak == f.records[q].depthOnArrival + 1
            && o < |f.records| && f.peakOutstanding == f.records[o].outstandingAfterIssue
            && f.records[i].depthOnArrival + 1 <= f.queuePeak
            && f.records[i].outstandingAfterIssue <= f.peakOutstanding
  {
    var f := RunCase(spec).final;
    FoundRightAtEnd(spec, i);
    hide RunCase, FoundRight, TimingValid;
    var depths, counts := DepthsAfter(f.records), Outstandings(f.records);
    MaxOfIsLargest(depths);
    MaxOfIsLargest(counts);
    hide MaxOf;
    q :| 0 <= q < |depths| && depths[q] == f.queuePeak;
    o :| 0 <= o < |counts| && counts[o] == f.peakOutstanding;
    assert depths[i] == f.records[i].depthOnArrival + 1 && counts[i] == f.records[i].outstandingAfterIssue;
  }
}
