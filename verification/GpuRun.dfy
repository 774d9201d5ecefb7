/** The AT-7 simulator in its own, mutable form: the state one call of
    `run_case` owns, and the closures that update it. */
module GpuRun {
  import opened SimTime
  import opened GpuModel
  import opened GpuInvariant
  import opened GpuTheorems

  class EventLoop {
    const spec: CaseSpec
    var lanes: seq<Lane>
    var records: seq<Request>
    var memoryQueue: seq<nat>
    var currentService: Option<nat>
    var globalOutstanding: nat
    var completed: nat
    var nextRequestId: nat
    var timeNs: real
    var queueDepthArea: real
    var outstandingArea: real
    var queuePeak: nat
    var peakOutstanding: nat

    function Snapshot(): Sim
      reads this
    {
      Sim(lanes, records, memoryQueue, currentService, globalOutstanding, completed, nextRequestId,
          timeNs, queueDepthArea, outstandingArea, queuePeak, peakOutstanding)
    }

    constructor (spec: CaseSpec)
      ensures this.spec == spec && Snapshot() == Init(spec)
    {
      this.spec := spec;
      lanes := seq(spec.numLanes, l requires 0 <= l < spec.numLanes => Lane(0, 0, LaneOffset(l), None, 0, 0.0));
      records, memoryQueue, currentService := [], [], None;
      globalOutstanding, completed, nextRequestId := 0, 0, 1;
      timeNs, queueDepthArea, outstandingArea := 0.0, 0.0, 0.0;
      queuePeak, peakOutstanding := 0, 0;
    }

    method CompleteCurrentService() returns (done: bool, underflow: bool)
      requires Shape(Snapshot())
      modifies this
      ensures underflow == (CompletionDue(old(Snapshot())) && Underflow(old(Snapshot())))
      ensures done == (CompletionDue(old(Snapshot())) && !underflow)
      ensures Snapshot() == if done then Complete(spec, old(Snapshot())) else old(Snapshot())
    {
      if currentService.None? {
        return false, false;
      }
      var index := currentService.value;
      if records[index].serviceEnd > timeNs {
        return false, false;
      }
      var l := records[index].laneId;
      if lanes[l].outstanding == 0 || globalOutstanding == 0 {
        return false, true;
      }
      records := records[index := CompletedRecord(spec, records[index])];
      lanes := lanes[l := lanes[l].(outstanding := lanes[l].outstanding - 1)];
      globalOutstanding := globalOutstanding - 1;
      completed := completed + 1;
      currentService := None;
      return true, false;
    }

    method StartServiceIfIdle() returns (started: bool)
      requires spec.bandwidth > 0.0 && Shape(Snapshot())
      modifies this
      ensures started == StartDue(old(Snapshot()))
      ensures Snapshot() == StartIfIdle(spec, old(Snapshot()))
    {
      if currentService.Some? || |memoryQueue| == 0 {
        return false;
      }
      var index := memoryQueue[0];
      memoryQueue := memoryQueue[1..];
      records := records[index := StartedRecord(spec, records[index], timeNs)];
      currentService := Some(index);
      return true;
    }

    /** The loop around `StartServiceIfIdle` that the event loop runs three times. */
    method StartWhileIdle() returns (progress: bool)
      requires spec.bandwidth > 0.0 && Shape(Snapshot())
      modifies this
      ensures progress == StartDue(old(Snapshot()))
      ensures Snapshot() == StartIfIdle(spec, old(Snapshot()))
    {
      progress := false;
      var started := StartServiceIfIdle();
      while started
        invariant Snapshot() == StartIfIdle(spec, old(Snapshot()))
        invariant progress || started == StartDue(old(Snapshot()))
        invariant progress ==> !started && StartDue(old(Snapshot()))
        decreases if started then 1 else 0
      {
        progress := true;
        started := StartServiceIfIdle();
      }
    }

    method CompleteAllDue() returns (progress: bool, underflow: bool)
      requires spec.bandwidth > 0.0 && Shape(Snapshot())
      modifies this
      ensures underflow == DrainCompletions(spec, old(Snapshot())).Underflowed?
      ensures !underflow ==> Drained(Snapshot()) == DrainCompletions(spec, old(Snapshot()))
      ensures !underflow ==> progress == CompletionDue(old(Snapshot()))
    {
      progress := false;
      var done: bool;
      ghost var before := Snapshot();
      done, underflow := CompleteCurrentService();
      while done
        invariant Shape(before) && DrainCompletions(spec, before) == DrainCompletions(spec, old(Snapshot()))
        invariant underflow == (CompletionDue(before) && Underflow(before))
        invariant done == (CompletionDue(before) && !underflow)
        invariant Snapshot() == if done then Complete(spec, before) else before
        invariant progress || before == old(Snapshot())
        invariant progress ==> CompletionDue(old(Snapshot()))
        decreases |before.queue| + (if before.current.Some? then 1 else 0)
      {
        progress := true;
        var _ := StartWhileIdle();
        before := Snapshot();
        done, underflow := CompleteCurrentService();
      }
    }

    /** The body of the `for` over the lanes, for a lane that can issue. */
    method IssueFrom(l: nat)
      requires Shape(Snapshot()) && l < |lanes|
      modifies this
      ensures Snapshot() == IssueLane(spec, old(Snapshot()), l)
    {
      var lane := CloseBlocked(lanes[l], timeNs);
      var record := NewRecord(spec, Snapshot(), l);
      nextRequestId := nextRequestId + 1;
      memoryQueue := memoryQueue + [|records|];
      records := records + [record];
      lane := lane.(generated := lane.generated + 1, outstanding := lane.outstanding + 1);
      globalOutstanding := globalOutstanding + 1;
      queuePeak := NatMax(queuePeak, |memoryQueue|);
      peakOutstanding := NatMax(peakOutstanding, globalOutstanding);
      lane := lane.(nextReady := timeNs + Gap(spec, lane.generated));
      lanes := lanes[l := lane];
    }

    /** One pass of the `for` over the lanes. */
    method IssueOnePass() returns (issued: bool)
      requires Shape(Snapshot())
      modifies this
      ensures (Snapshot(), issued) == IssuePass(spec, old(Snapshot()), 0, false)
      ensures Shape(Snapshot())
      ensures issued ==> Ungenerated(spec, lanes) < Ungenerated(spec, old(lanes))
    {
      issued := false;
      for l := 0 to |lanes|
        invariant l <= |lanes| == |old(lanes)| && Shape(Snapshot())
        invariant IssuePass(spec, old(Snapshot()), 0, false) == IssuePass(spec, Snapshot(), l, issued)
      {
        if CanIssue(spec, lanes[l], globalOutstanding, |memoryQueue|, timeNs) {
          IssueFrom(l);
          issued := true;
        }
      }
    }

    method IssueReadyRequests() returns (issuedAny: bool)
      requires Shape(Snapshot())
      modifies this
      ensures (Snapshot(), issuedAny) == IssueReady(spec, old(Snapshot()))
    {
      ghost var all := IssueAll(spec, Snapshot());
      issuedAny := false;
      var issuedInPass := true;
      while issuedInPass
        invariant Shape(Snapshot())
        invariant issuedInPass ==> all.0 == IssueAll(spec, Snapshot()).0
        invariant issuedInPass ==> all.1 == (issuedAny || IssueAll(spec, Snapshot()).1)
        invariant !issuedInPass ==> all == (Snapshot(), issuedAny)
        decreases Ungenerated(spec, lanes), if issuedInPass then 1 else 0
      {
        issuedInPass := IssueOnePass();
        issuedAny := issuedAny || issuedInPass;
      }
      MarkBlockedWhereReady();
    }

    method MarkBlockedWhereReady()
      requires Shape(Snapshot())
      modifies this
      ensures Snapshot() == MarkBlockedLanes(spec, old(Snapshot()))
    {
      ghost var s := Snapshot();
      var l := 0;
      while l < |lanes|
        invariant l <= |lanes| == |s.lanes|
        invariant Snapshot() == s.(lanes := lanes)
        invariant forall k :: 0 <= k < l ==> lanes[k] == MarkIfBlocked(spec, s, s.lanes[k])
        invariant forall k :: l <= k < |lanes| ==> lanes[k] == s.lanes[k]
      {
        if LaneReady(spec, lanes[l], timeNs)
           && !CanIssue(spec, lanes[l], globalOutstanding, |memoryQueue|, timeNs) {
          lanes := lanes[l := MarkBlocked(lanes[l], timeNs)];
        }
        l := l + 1;
      }
      assert lanes == MarkBlockedLanes(spec, s).lanes;
    }

    method NextEventTime() returns (next: Option<real>)
      requires Shape(Snapshot())
      ensures next == NextEvent(spec, Snapshot())
    {
      next := None;
      if currentService.Some? {
        next := EarlierOf(next, records[currentService.value].serviceEnd);
      }
      var l := 0;
      while l < |lanes|
        invariant l <= |lanes|
        invariant NextEvent(spec, Snapshot()) == NextOverLanes(spec, Snapshot(), l, next)
      {
        if lanes[l].generated < spec.requestsPerLane {
          if lanes[l].nextReady > timeNs {
            next := EarlierOf(next, lanes[l].nextReady);
          } else if currentService.None? && |memoryQueue| == 0 && lanes[l].outstanding == 0 {
            next := Some(timeNs);
          }
        }
        l := l + 1;
      }
    }

    method AnyWorkLeft() returns (any: bool)
      ensures any == AnyLaneHasWork(spec, Snapshot())
    {
      any := false;
      var l := 0;
      while l < |lanes|
        invariant l <= |lanes|
        invariant any <==> exists k :: 0 <= k < l
                                       && (lanes[k].generated < spec.requestsPerLane || lanes[k].outstanding > 0)
      {
        any := any || lanes[l].generated < spec.requestsPerLane || lanes[l].outstanding > 0;
        l := l + 1;
      }
    }

    method MoveTo(next: real)
      modifies this
      ensures Snapshot() == AdvanceTo(old(Snapshot()), next)
    {
      var delta := next - timeNs;
      queueDepthArea := queueDepthArea + |memoryQueue| as real * delta;
      outstandingArea := outstandingArea + globalOutstanding as real * delta;
      timeNs := next;
    }

    /** The end of an iteration: leave the loop, throw, or move to the next event. */
    method MoveOnOrStop(progress: bool) returns (more: bool, failure: Option<Failure>)
      requires Shape(Snapshot())
      modifies this
      ensures Reports(MoveOn(spec, old(Snapshot()), progress), more, failure)
    {
      if completed >= TotalRequests(spec) {
        return false, None;
      }
      var next := NextEventTime();
      if next.None? {
        var any := AnyWorkLeft();
        return false, if any then Some(NoNextEvent) else None;
      }
      if next.value <= timeNs {
        if !progress {
          return false, Some(NoProgress);
        }
        MoveTo(timeNs + HOP);
      } else {
        MoveTo(next.value);
      }
      return true, None;
    }

    /** The state and the two results are those of the given step. */
    predicate Reports(step: Step, more: bool, failure: Option<Failure>)
      reads this
    {
      match step
      case Continue(s, _) => more && failure == None && Snapshot() == s
      case Finish(s) => !more && failure == None && Snapshot() == s
      case Throw(e) => !more && failure == Some(e)
    }

    /** One iteration of the event loop; `more` says whether the loop goes on. */
    method RunIteration() returns (more: bool, failure: Option<Failure>)
      requires spec.bandwidth > 0.0 && Shape(Snapshot())
      modifies this
      ensures Reports(Iterate(spec, old(Snapshot())), more, failure)
    {
      hide MoveOn;
      var progress, underflow := CompleteAllDue();
      if underflow {
        return false, Some(OutstandingUnderflow);
      }
      var started := StartWhileIdle();
      var issued := IssueReadyRequests();
      var restarted := StartWhileIdle();
      more, failure := MoveOnOrStop(progress || started || issued || restarted);
    }

    /** The whole run.  It ends for every case: with an exception when there are
        requests and a limit is zero, and otherwise with a finished state. */
    method RunCase() returns (failure: Option<Failure>)
      requires TimingValid(spec) && Snapshot() == Init(spec)
      modifies this
      ensures match GpuTheorems.RunCase(spec)
              case Completed(f) => failure == None && Snapshot() == f && RunDone(spec, Snapshot())
              case Failed(e) => failure == Some(e)
      ensures failure.Some? <==> TotalRequests(spec) > 0 && !LimitsPositive(spec)
    {
      hide Inv, RunDone, Iterate;
      InitIsLoopHead(spec);
      RunEnds(spec);
      CreditBounded(spec, Snapshot());
      failure := None;
      while completed < TotalRequests(spec)
        invariant LoopInv(spec, Snapshot()) && Shape(Snapshot())
        invariant Credited(Snapshot()) <= TotalRequests(spec) && |records| <= TotalRequests(spec)
        invariant RunFrom(spec, Snapshot()) == GpuTheorems.RunCase(spec)
        invariant failure == None
        decreases TotalRequests(spec) - Credited(Snapshot()), TotalRequests(spec) - |records|,
                  NotReady(spec, lanes, timeNs)
      {
        RunFromUnfolds(spec, Snapshot());
        var more: bool;
        more, failure := RunIteration();
        if !more {
          return;
        }
        CreditBounded(spec, Snapshot());
      }
    }
  }
}
