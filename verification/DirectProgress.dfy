/** Progress of project AT-1: with time moving from one event to the next, every run is
    finite and ends with every request answered and served. */
module DirectProgress {
  import opened SimTime
  import opened TargetModel
  import opened TimedTarget
  import opened DirectLink

  /** The issuing thread waits for its next issue time. */
  predicate Waiting(s: Direct) {
    !s.inLoop && s.next < s.total
  }

  /** The instants at which a thread wakes. */
  predicate WakesAt(s: Direct, t: real) {
    || (s.link.target.accepting.Some? && t == s.link.acceptEnd)
    || (s.link.target.serving.Some? && t == s.link.serviceEnd)
    || (Waiting(s) && t == s.nextIssue)
  }

  /** Time passes only while no thread is runnable, and then to the next wake-up. */
  predicate Scheduled(s: Direct, act: Act) {
    && Allowed(s, act)
    && (act.Device? && act.move.Advance? ==>
          var t := s.link.now + act.move.delay;
          !(s.inLoop && s.endReqSeen) && (Waiting(s) ==> t <= s.nextIssue) && WakesAt(s, t))
  }

  predicate IsAdvance(act: Act) { act.Device? && act.move.Advance? }

  // ---- The measure ----

  function TargetSteps(target: Target): nat {
    4 * |target.waiting| + 4 * |target.endReq| + 3 * |Held(target.accepting)|
    + 2 * |target.service| + |Held(target.serving)|
  }

  /** Steps still owed: six for a request not yet issued, one for resuming after its
      END_REQ, and those of the target. */
  function Work(s: Direct): int {
    6 * (s.total - s.next) - (if s.inLoop then 5 else 0) + TargetSteps(s.link.target)
  }

  /** Something is due at this very instant. */
  predicate Due(s: Direct) {
    || (s.link.target.accepting.Some? && s.link.now == s.link.acceptEnd)
    || (s.link.target.serving.Some? && s.link.now == s.link.serviceEnd)
    || (Waiting(s) && s.link.now >= s.nextIssue)
  }

  function Measure(s: Direct): int {
    2 * Work(s) + if Due(s) then 0 else 1
  }

  lemma FinishServiceUsesOne(target: Target)
    requires SlotsInv(target) && target.serving.Some?
    ensures FinishService(target, true).Some?
    ensures TargetSteps(FinishService(target, true).value) == TargetSteps(target) - 1
  {
    FinishServiceKeepsSlots(target, true);
    var freed := target.(serving := None, occupied := target.occupied - 1);
    assert FinishService(target, true) == Some(AcceptOneWaiting(freed));
    hide SlotsInv, FinishService;
    assert TargetSteps(AcceptOneWaiting(freed)) == TargetSteps(freed);
  }

  lemma DeviceUsesOne(link: Timed, move: Move)
    requires TimedTarget.Inv(link) && Possible(link, move) && !move.Begin? && !move.Advance?
    ensures Moved(link, move, true).Some?
    ensures TargetSteps(Moved(link, move, true).value.target) == TargetSteps(link.target) - 1
  {
    assert SlotsInv(link.target);
    hide TimedTarget.Inv, SlotsInv, FinishService, HistoryInv, OpenInv;
    if move.BeginResp? {
      FinishServiceUsesOne(link.target);
      hide TargetSteps;
    }
  }

  lemma ActUsesOne(s: Direct, act: Act)
    requires InStep(s) && Scheduled(s, act) && !IsAdvance(act)
    ensures Acted(s, act).Some? && Work(Acted(s, act).value) == Work(s) - 1
  {
    ActKeeps(s, act);
    if act.Device? {
      DeviceUsesOne(s.link, act.move);
      hide TargetSteps, Moved, Possible, TimedTarget.Inv;
    } else if act.Issue? {
      ReceiveUsesFour(s.link.target, Txn(0, s.next));
      hide TargetSteps, Receive, TimedTarget.Inv;
    }
  }

  lemma ReceiveUsesFour(target: Target, txn: Txn)
    ensures TargetSteps(Receive(target, txn)) == TargetSteps(target) + 4
  {
  }

  /** Time moves only when nothing is due, and then something is. */
  lemma AdvanceIsDue(s: Direct, act: Act)
    requires InStep(s) && Scheduled(s, act) && IsAdvance(act)
    ensures Acted(s, act).Some?
    ensures var next := Acted(s, act).value; Work(next) == Work(s) && !Due(s) && Due(next)
  {
    hide TargetSteps, InStep;
  }

  lemma MeasureFalls(s: Direct, act: Act)
    requires InStep(s) && Scheduled(s, act)
    ensures Acted(s, act).Some? && InStep(Acted(s, act).value) && Acted(s, act).value.total == s.total
    ensures Measure(Acted(s, act).value) <= Measure(s) - 1
  {
    ActKeeps(s, act);
    hide InStep, Work, Due;
    if IsAdvance(act) {
      AdvanceIsDue(s, act);
    } else {
      ActUsesOne(s, act);
    }
  }

  lemma WorkIsNatural(s: Direct)
    requires InStep(s)
    ensures Work(s) >= 0
  {
    hide TimedTarget.Inv;
  }

  // ---- The end ----

  /** Every request is sent and answered, and the target has served them all. */
  predicate Finished(s: Direct) {
    && s.next == s.total && !s.inLoop
    && s.link.target.Unanswered() == [] && s.link.target.InService() == []
  }

  ghost predicate NothingScheduled(s: Direct) {
    forall act :: !Scheduled(s, act)
  }

  /** While a request is unsent, unanswered or unserved, some act is scheduled. */
  lemma SomeActScheduled(s: Direct) returns (act: Act)
    requires InStep(s) && !Finished(s)
    ensures Scheduled(s, act)
  {
    var target, now := s.link.target, s.link.now;
    if s.inLoop && s.endReqSeen {
      return Resume;
    }
    if Waiting(s) && now >= s.nextIssue {
      return Issue;
    }
    if target.Unanswered() != [] || target.InService() != [] {
      var move := SomeMovePossible(s.link, 0.0);
      if !move.Advance? {
        return Device(move);
      }
      act := NextWake(s, move.delay);
    } else {
      act := Device(Advance(s.nextIssue - now));
    }
  }

  /** When the target can only wait, time moves to the first wake-up. */
  lemma NextWake(s: Direct, delay: real) returns (act: Act)
    requires InStep(s) && Possible(s.link, Advance(delay))
    requires !(s.inLoop && s.endReqSeen) && !(Waiting(s) && s.link.now >= s.nextIssue)
    requires s.link.target.Unanswered() != [] || s.link.target.InService() != []
    ensures Scheduled(s, act)
  {
    var target, now := s.link.target, s.link.now;
    ATimerRuns(s.link, delay);
    hide InStep, TimedTarget.Inv;
    var t := if target.accepting.None? then s.link.serviceEnd
             else if target.serving.None? then s.link.acceptEnd
             else Min(s.link.acceptEnd, s.link.serviceEnd);
    if Waiting(s) && s.nextIssue < t {
      t := s.nextIssue;
    }
    act := Device(Advance(t - now));
  }

  lemma ATimerRuns(link: Timed, delay: real)
    requires TimedTarget.Inv(link) && Possible(link, Advance(delay))
    requires link.target.Unanswered() != [] || link.target.InService() != []
    ensures link.target.accepting.Some? || link.target.serving.Some?
  {
    hide HistoryInv, Outstanding;
  }

  lemma FinishedIsStill(s: Direct, act: Act)
    requires Finished(s)
    ensures !Scheduled(s, act)
  {
    assert |s.link.target.Unanswered()| == 0 && |s.link.target.InService()| == 0;
  }

  /** Then every request has been begun and answered. */
  lemma FinishedIsAnswered(s: Direct, k: nat)
    requires InStep(s) && Finished(s) && k < s.total
    ensures Txn(0, k) in s.link.begun && Txn(0, k) in s.link.ended
  {
    assert Txn(0, k) in s.link.begun;
  }

  predicate IsScheduledRun(s: Direct, acts: seq<Act>)
    decreases |acts|
  {
    |acts| == 0
    || (Scheduled(s, acts[0])
        && (Acted(s, acts[0]).Some? ==> IsScheduledRun(Acted(s, acts[0]).value, acts[1..])))
  }

  lemma {:induction false} RunUsesMeasure(s: Direct, acts: seq<Act>)
    requires InStep(s) && IsScheduledRun(s, acts)
    ensures IsActRun(s, acts) && ActEnd(s, acts).Some?
    ensures var end := ActEnd(s, acts).value;
            InStep(end) && end.total == s.total && Measure(end) + |acts| <= Measure(s)
    decreases |acts|
  {
    if |acts| == 0 {
    } else {
      hide InStep, Acted, Measure;
      MeasureFalls(s, acts[0]);
      RunUsesMeasure(Acted(s, acts[0]).value, acts[1..]);
    }
  }

  /** Every run of the direct link is free of fatal reports and at most twelve acts a
      request long; nothing is scheduled exactly when it is finished, and then every
      request has had its END_REQ. */
  lemma EveryDirectRun(total: nat, gap: real, depth: nat, acts: seq<Act>)
    requires depth > 0 && IsScheduledRun(Begun(total, gap, depth), acts)
    ensures IsActRun(Begun(total, gap, depth), acts) && ActEnd(Begun(total, gap, depth), acts).Some?
    ensures |acts| <= 12 * total + 1
    ensures var end := ActEnd(Begun(total, gap, depth), acts).value;
            && (NothingScheduled(end) <==> Finished(end))
            && (Finished(end) ==> forall k: nat :: k < total ==> Txn(0, k) in end.link.ended)
  {
    var start := Begun(total, gap, depth);
    assert InStep(start) && Work(start) == 6 * total;
    RunUsesMeasure(start, acts);
    hide InStep, Work, IsActRun, ActEnd, Finished, Begun;
    var end := ActEnd(start, acts).value;
    WorkIsNatural(end);
    EndIsFinished(end);
    if Finished(end) {
      forall k: nat | k < total ensures Txn(0, k) in end.link.ended {
        FinishedIsAnswered(end, k);
      }
    }
  }

  lemma EndIsFinished(s: Direct)
    requires InStep(s)
    ensures NothingScheduled(s) <==> Finished(s)
  {
    hide InStep, Finished, Scheduled;
    if Finished(s) {
      forall act ensures !Scheduled(s, act) {
        FinishedIsStill(s, act);
      }
    } else {
      var act := SomeActScheduled(s);
    }
  }
}
