/** Whole runs of the AT-7 event loop: it never throws and never hops when the
    limits are positive, it ends, and the totals it reports are exact.
 */
module GpuTheorems {
  import opened SimTime
  import opened GpuModel
  import opened GpuInvariant

  // ---- The phases of one iteration ----

  /** What the head of an iteration may rely on. */
  predicate LoopInv(spec: CaseSpec, s: Sim) {
    Inv(spec, s) && NoFreshStall(s) && !StartDue(s)
  }

  /** The completions credited to a state, counting one that is due now. */
  function Credited(s: Sim): nat
    requires Shape(s)
  {
    s.completed + (if CompletionDue(s) then 1 else 0)
  }

  lemma InvImpliesShape(spec: CaseSpec, s: Sim)
    requires Inv(spec, s)
    ensures Shape(s) && TimingValid(spec)
  {
  }

  lemma DrainKeeps(spec: CaseSpec, s: Sim)
    requires Inv(spec, s) && NoFreshStall(s)
    ensures DrainCompletions(spec, s).Drained?
    ensures var a := DrainCompletions(spec, s).sim;
            && Inv(spec, a) && NoFreshStall(a) && !CompletionDue(a)
            && a.time == s.time && a.completed == Credited(s) && SameLanes(s, a)
            && (a.completed > s.completed ==> a.time == PreviousEnd(a.records, a.completed))
  {
    if CompletionDue(s) {
      CompleteKeeps(spec, s);
      var b := Complete(spec, s);
      StartKeeps(spec, b);
      hide Inv;
      StartIsNotDue(spec, b);
    }
  }

  lemma StartIsNotDue(spec: CaseSpec, b: Sim)
    requires Inv(spec, b) && b.current.None?
    ensures Shape(b) && spec.bandwidth > 0.0 && !CompletionDue(StartIfIdle(spec, b))
  {
    StartKeeps(spec, b);
  }

  /** The lanes' clocks are untouched. */
  predicate SameLanes(s: Sim, t: Sim) {
    && |s.records| == |t.records|
    && |s.lanes| == |t.lanes|
    && (forall l :: 0 <= l < |s.lanes| ==>
          s.lanes[l].generated == t.lanes[l].generated && s.lanes[l].nextReady == t.lanes[l].nextReady)
  }

  /** Issuing changes nothing about the memory and only appends records. */
  predicate OnlyIssued(s: Sim, t: Sim) {
    && t.time == s.time && t.current == s.current && t.completed == s.completed
    && |t.lanes| == |s.lanes| && s.records <= t.records
    && (s.queue != [] ==> t.queue != [])
  }

  predicate NobodyCanIssue(spec: CaseSpec, s: Sim, from: nat) {
    forall l :: from <= l < |s.lanes| ==> !LaneCanIssue(spec, s, l)
  }

  lemma {:induction false} IssuePassKeeps(spec: CaseSpec, s: Sim, l: nat, issued: bool)
    requires Inv(spec, s) && NoFreshStall(s) && !CompletionDue(s) && l <= |s.lanes|
    ensures var r := IssuePass(spec, s, l, issued);
            && Inv(spec, r.0) && NoFreshStall(r.0) && OnlyIssued(s, r.0) && !CompletionDue(r.0)
            && r.1 == (issued || |r.0.records| > |s.records|)
            && (|r.0.records| == |s.records| ==> r.0 == s && NobodyCanIssue(spec, s, l))
    decreases |s.lanes| - l
  {
    hide Inv;
    InvImpliesShape(spec, s);
    if l < |s.lanes| {
      if LaneCanIssue(spec, s, l) {
        IssueKeeps(spec, s, l);
        IssuePassKeeps(spec, IssueLane(spec, s, l), l + 1, true);
      } else {
        IssuePassKeeps(spec, s, l + 1, issued);
      }
    }
  }

  lemma {:induction false} IssueAllKeeps(spec: CaseSpec, s: Sim)
    requires Inv(spec, s) && NoFreshStall(s) && !CompletionDue(s)
    ensures var r := IssueAll(spec, s);
            && Inv(spec, r.0) && NoFreshStall(r.0) && OnlyIssued(s, r.0) && !CompletionDue(r.0)
            && r.1 == (|r.0.records| > |s.records|)
            && (!r.1 ==> r.0 == s)
            && NobodyCanIssue(spec, r.0, 0)
    decreases Ungenerated(spec, s.lanes)
  {
    hide Inv;
    InvImpliesShape(spec, s);
    IssuePassKeeps(spec, s, 0, false);
    var pass := IssuePass(spec, s, 0, false);
    if pass.1 {
      IssueAllKeeps(spec, pass.0);
    }
  }

  /** Every lane with requests left is blocked now or becomes ready later. */
  predicate LanesSettled(spec: CaseSpec, s: Sim) {
    forall l :: 0 <= l < |s.lanes| && s.lanes[l].generated < spec.requestsPerLane && s.lanes[l].blockedSince.None?
                ==> s.time < s.lanes[l].nextReady
  }

  /** An idle memory with an empty queue leaves no lane ready. */
  predicate IdleMeansUnready(spec: CaseSpec, s: Sim) {
    s.current.None? ==> forall l :: 0 <= l < |s.lanes| ==> !LaneReady(spec, s.lanes[l], s.time)
  }

  lemma IssueReadyKeeps(spec: CaseSpec, s: Sim)
    requires Inv(spec, s) && NoFreshStall(s) && !CompletionDue(s)
    ensures var r := IssueReady(spec, s);
            && Inv(spec, r.0) && OnlyIssued(s, r.0) && LanesSettled(spec, r.0)
            && (!r.1 ==> SameLanes(s, r.0) && r.0.queue == s.queue)
            && r.1 == (|r.0.records| > |s.records|)
            && NobodyCanIssue(spec, r.0, 0)
  {
    hide Inv;
    InvImpliesShape(spec, s);
    IssueAllKeeps(spec, s);
    var a := IssueAll(spec, s).0;
    MarkKeeps(spec, a);
    var b := MarkBlockedLanes(spec, a);
    forall l | 0 <= l < |b.lanes|
      ensures !LaneCanIssue(spec, b, l)
      ensures b.lanes[l].generated < spec.requestsPerLane && b.lanes[l].blockedSince.None?
              ==> b.time < b.lanes[l].nextReady
    {
      assert !LaneCanIssue(spec, a, l);
      assert b.lanes[l] == MarkIfBlocked(spec, a, a.lanes[l]);
    }
  }

  lemma {:induction false} CountNone(ids: seq<nat>, lane: nat)
    ensures CountFrom(ids, |ids|, lane) == 0
  {
  }

  /** After the last restart the memory is busy, or nothing is outstanding. */
  lemma IdleMemoryMeansUnready(spec: CaseSpec, s: Sim)
    requires Inv(spec, s) && LimitsPositive(spec) && NobodyCanIssue(spec, s, 0) && !StartDue(s)
    ensures IdleMeansUnready(spec, s)
  {
    if s.current.None? {
      assert s.completed == |s.records|;
      forall l | 0 <= l < |s.lanes| ensures !LaneReady(spec, s.lanes[l], s.time) {
        assert LaneInv(spec, s, l);
        assert s.lanes[l].outstanding == 0;
        assert !LaneCanIssue(spec, s, l);
      }
    }
  }

  // ---- The next event ----

  predicate Pending(spec: CaseSpec, s: Sim, l: nat)
    requires l < |s.lanes|
  {
    s.lanes[l].generated < spec.requestsPerLane && s.lanes[l].nextReady > s.time
  }

  /** `e` is the earliest of the start value and of the lanes that become ready later. */
  predicate EarliestFrom(spec: CaseSpec, s: Sim, l: nat, start: Option<real>, e: Option<real>) {
    && (e.None? <==> start.None? && forall k :: l <= k < |s.lanes| ==> !Pending(spec, s, k))
    && (e.Some? ==>
          && e.value > s.time
          && (start.Some? ==> e.value <= start.value)
          && (forall k :: l <= k < |s.lanes| && Pending(spec, s, k) ==> e.value <= s.lanes[k].nextReady)
          && (e == start || exists k :: l <= k < |s.lanes| && Pending(spec, s, k) && e.value == s.lanes[k].nextReady))
  }

  lemma {:induction false} NextOverLanesIsEarliest(spec: CaseSpec, s: Sim, l: nat, start: Option<real>)
    requires l <= |s.lanes| && IdleMeansUnready(spec, s)
    requires start.Some? ==> start.value > s.time
    ensures EarliestFrom(spec, s, l, start, NextOverLanes(spec, s, l, start))
    decreases |s.lanes| - l
  {
    if l < |s.lanes| {
      var next := if Pending(spec, s, l) then EarlierOf(start, s.lanes[l].nextReady) else start;
      assert s.current.None? ==> !LaneReady(spec, s.lanes[l], s.time);
      NextOverLanesIsEarliest(spec, s, l + 1, next);
    }
  }

  /** While requests are unfinished there is an event ahead. */
  lemma AnEventIsAhead(spec: CaseSpec, s: Sim)
    requires Inv(spec, s) && s.current.None? && IdleMeansUnready(spec, s) && !StartDue(s)
    requires s.completed < TotalRequests(spec)
    ensures exists l :: 0 <= l < |s.lanes| && Pending(spec, s, l)
  {
    forall l | 0 <= l < |s.lanes| ensures s.lanes[l].generated <= spec.requestsPerLane {
      assert LaneInv(spec, s, l);
    }
    SumGeneratedBound(s.lanes, spec.requestsPerLane);
    var l :| 0 <= l < |s.lanes| && s.lanes[l].generated != spec.requestsPerLane;
    assert !LaneReady(spec, s.lanes[l], s.time);
    assert Pending(spec, s, l);
  }

  // ---- Progress ----

  /** The lanes that still have requests but are not ready. */
  function NotReady(spec: CaseSpec, lanes: seq<Lane>, time: real): nat {
    if |lanes| == 0 then 0
    else
      var last := lanes[|lanes| - 1];
      NotReady(spec, lanes[..|lanes| - 1], time)
      + (if last.generated < spec.requestsPerLane && last.nextReady > time then 1 else 0)
  }

  lemma {:induction false} NotReadyShrinks(spec: CaseSpec, xs: seq<Lane>, ys: seq<Lane>, t: real, u: real)
    requires t <= u && |xs| == |ys|
    requires forall l :: 0 <= l < |xs| ==> xs[l].generated == ys[l].generated && xs[l].nextReady == ys[l].nextReady
    ensures NotReady(spec, ys, u) <= NotReady(spec, xs, t)
    ensures (exists l :: 0 <= l < |xs| && xs[l].generated < spec.requestsPerLane && t < xs[l].nextReady <= u)
            ==> NotReady(spec, ys, u) < NotReady(spec, xs, t)
  {
    if |xs| == 0 {
    } else {
      var n := |xs| - 1;
      NotReadyShrinks(spec, xs[..n], ys[..n], t, u);
      if l :| 0 <= l < |xs| && xs[l].generated < spec.requestsPerLane && t < xs[l].nextReady <= u {
        if l < n {
          assert xs[..n][l] == xs[l];
        }
      }
    }
  }

  /** The later state is closer to the end: more completions credited, or as
      many and more requests issued, or as many of both and more lanes ready. */
  predicate Closer(spec: CaseSpec, s: Sim, t: Sim)
    requires Shape(s) && Shape(t)
  {
    || Credited(t) > Credited(s)
    || (Credited(t) == Credited(s) && |t.records| > |s.records|)
    || (Credited(t) == Credited(s) && |t.records| == |s.records|
        && NotReady(spec, t.lanes, t.time) < NotReady(spec, s.lanes, s.time))
  }

  /** The state in which `Iterate` decides where to move, and what is known of it. */
  function BeforeMove(spec: CaseSpec, s: Sim): (d: Sim)
    requires LoopInv(spec, s)
    ensures Shape(d)
  {
    DrainKeeps(spec, s);
    StartIfIdle(spec, IssueReady(spec, StartIfIdle(spec, DrainCompletions(spec, s).sim)).0)
  }

  lemma BeforeMoveFacts(spec: CaseSpec, s: Sim)
    requires LoopInv(spec, s)
    ensures var d := BeforeMove(spec, s);
            && Inv(spec, d) && !StartDue(d) && !CompletionDue(d) && LanesSettled(spec, d)
            && d.time == s.time && d.completed == Credited(s)
            && |s.records| <= |d.records|
            && (|d.records| == |s.records| ==> SameLanes(s, d))
            && (LimitsPositive(spec) ==> IdleMeansUnready(spec, d))
            && (d.completed > s.completed ==> d.time == PreviousEnd(d.records, d.completed))
  {
    hide Inv, DrainCompletions, StartIfIdle, IssueReady;
    InvImpliesShape(spec, s);
    DrainKeeps(spec, s);
    var a := DrainCompletions(spec, s).sim;
    StartKeeps(spec, a);
    IssueReadyKeeps(spec, StartIfIdle(spec, a));
    var issue := IssueReady(spec, StartIfIdle(spec, a));
    StartKeeps(spec, issue.0);
    var d := StartIfIdle(spec, issue.0);
    if LimitsPositive(spec) && d.current.None? {
      IdleMemoryMeansUnready(spec, d);
    }
  }

  lemma IterateIsMove(spec: CaseSpec, s: Sim)
    requires LoopInv(spec, s)
    ensures exists progress :: Iterate(spec, s) == MoveOn(spec, BeforeMove(spec, s), progress)
  {
    hide Inv;
    InvImpliesShape(spec, s);
    DrainKeeps(spec, s);
    var a := DrainCompletions(spec, s).sim;
    var issue := IssueReady(spec, StartIfIdle(spec, a));
    var progress := CompletionDue(s) || StartDue(a) || issue.1 || StartDue(issue.0);
    assert Iterate(spec, s) == MoveOn(spec, BeforeMove(spec, s), progress);
  }

  /** One iteration from any state the loop can reach: no exception, no hop;
      it either ends the run with every request completed or gets closer to it. */
  lemma IterateProgresses(spec: CaseSpec, s: Sim)
    requires LoopInv(spec, s) && LimitsPositive(spec) && s.completed < TotalRequests(spec)
    ensures var step := Iterate(spec, s);
            && !step.Throw?
            && (step.Finish? ==> Inv(spec, step.final) && step.final.completed == TotalRequests(spec)
                                 && step.final.time == PreviousEnd(step.final.records, step.final.completed))
            && (step.Continue? ==> !step.hopped && LoopInv(spec, step.next) && Closer(spec, s, step.next)
                                   && step.next.time > s.time)
  {
    BeforeMoveFacts(spec, s);
    IterateIsMove(spec, s);
    var d := BeforeMove(spec, s);
    if d.completed < TotalRequests(spec) {
      var start := if d.current.Some? then Some(d.records[d.current.value].serviceEnd) else None;
      NextOverLanesIsEarliest(spec, d, 0, start);
      if d.current.None? {
        AnEventIsAhead(spec, d);
      }
      MovesCloser(spec, s, d, start, NextEvent(spec, d).value);
    }
  }

  lemma MovesCloser(spec: CaseSpec, s: Sim, d: Sim, start: Option<real>, next: real)
    requires Inv(spec, s) && Inv(spec, d) && !StartDue(d) && !CompletionDue(d) && LanesSettled(spec, d)
    requires d.time == s.time && d.completed == Credited(s) && |s.records| <= |d.records|
    requires |d.records| == |s.records| ==> SameLanes(s, d)
    requires start == if d.current.Some? then Some(d.records[d.current.value].serviceEnd) else None
    requires EarliestFrom(spec, d, 0, start, Some(next))
    ensures LoopInv(spec, AdvanceTo(d, next)) && Closer(spec, s, AdvanceTo(d, next))
  {
    AdvanceKeeps(spec, d, next);
    var t := AdvanceTo(d, next);
    if Some(next) != start && |d.records| == |s.records| {
      var k :| 0 <= k < |d.lanes| && Pending(spec, d, k) && next == d.lanes[k].nextReady;
      assert s.lanes[k].nextReady == next;
      NotReadyShrinks(spec, s.lanes, t.lanes, s.time, next);
    }
  }

  // ---- A limit of zero ----

  lemma {:induction false} NextOverLanesStuck(spec: CaseSpec, s: Sim, l: nat, start: Option<real>)
    requires l <= |s.lanes| && s.current.None? && |s.queue| == 0
    requires forall k :: 0 <= k < |s.lanes| ==> s.lanes[k].outstanding == 0
    requires (start.Some? && start.value <= s.time)
             || exists k :: l <= k < |s.lanes| && LaneReady(spec, s.lanes[k], s.time)
    ensures var e := NextOverLanes(spec, s, l, start); e.Some? && e.value <= s.time
    decreases |s.lanes| - l
  {
    if l < |s.lanes| {
      var lane := s.lanes[l];
      var next :=
        if lane.generated < spec.requestsPerLane then
          if lane.nextReady > s.time then EarlierOf(start, lane.nextReady) else Some(s.time)
        else start;
      NextOverLanesStuck(spec, s, l + 1, next);
    }
  }

  lemma {:induction false} NobodyIssues(spec: CaseSpec, s: Sim, l: nat)
    requires Shape(s) && l <= |s.lanes| && NobodyCanIssue(spec, s, l)
    ensures IssuePass(spec, s, l, false) == (s, false)
    decreases |s.lanes| - l
  {
    if l < |s.lanes| {
      assert !LaneCanIssue(spec, s, l);
      NobodyIssues(spec, s, l + 1);
    }
  }

  /** With any limit at zero nothing is ever issued, and the loop throws the
      first time it finds the memory idle and a lane ready. */
  lemma ZeroLimitThrows(spec: CaseSpec, s: Sim)
    requires LoopInv(spec, s) && !LimitsPositive(spec) && s.completed < TotalRequests(spec)
    ensures Iterate(spec, s) == Throw(NoProgress)
  {
    assert DrainCompletions(spec, s) == Drained(s) && StartIfIdle(spec, s) == s;
    NobodyIssues(spec, s, 0);
    var b := MarkBlockedLanes(spec, s);
    assert IssueReady(spec, s) == (b, false) && StartIfIdle(spec, b) == b;
    forall k | 0 <= k < |b.lanes| ensures b.lanes[k].outstanding == 0 {
      assert LaneInv(spec, s, k);
    }
    assert |s.lanes| > 0 && spec.requestsPerLane > 0;
    assert LaneInv(spec, s, 0);
    assert LaneReady(spec, b.lanes[0], b.time);
    NextOverLanesStuck(spec, b, 0, None);
  }

  // ---- Whole runs ----

  datatype Outcome = Completed(final: Sim) | Failed(failure: Failure)

  /** The `while` loop of the run, from its head. */
  function RunFrom(spec: CaseSpec, s: Sim): Outcome
    requires LoopInv(spec, s)
    decreases TotalRequests(spec) - Credited(s), TotalRequests(spec) - |s.records|, NotReady(spec, s.lanes, s.time)
  {
    if s.completed >= TotalRequests(spec) then Completed(s)
    else if LimitsPositive(spec) then
      IterateProgresses(spec, s);
      var step := Iterate(spec, s);
      if step.Continue? then RunFrom(spec, step.next) else Completed(step.final)
    else
      ZeroLimitThrows(spec, s);
      Failed(Iterate(spec, s).failure)
  }

  lemma RunFromUnfolds(spec: CaseSpec, s: Sim)
    requires LoopInv(spec, s) && s.completed < TotalRequests(spec)
    ensures var step := Iterate(spec, s);
            && (step.Continue? ==> LoopInv(spec, step.next) && Closer(spec, s, step.next)
                                   && RunFrom(spec, s) == RunFrom(spec, step.next))
            && (step.Finish? ==> RunFrom(spec, s) == Completed(step.final))
            && (step.Throw? ==> RunFrom(spec, s) == Failed(step.failure))
  {
    if LimitsPositive(spec) {
      IterateProgresses(spec, s);
    } else {
      ZeroLimitThrows(spec, s);
    }
  }

  /** The terms of the measure stay in range. */
  lemma CreditBounded(spec: CaseSpec, s: Sim)
    requires Inv(spec, s)
    ensures Shape(s) && Credited(s) <= TotalRequests(spec) && |s.records| <= TotalRequests(spec)
  {
  }

  lemma InitIsLoopHead(spec: CaseSpec)
    requires TimingValid(spec)
    ensures LoopInv(spec, Init(spec))
  {
    InitKeeps(spec);
  }

  function RunCase(spec: CaseSpec): Outcome
    requires TimingValid(spec)
  {
    InitIsLoopHead(spec);
    RunFrom(spec, Init(spec))
  }

  /** What a finished run is known to satisfy. */
  predicate RunDone(spec: CaseSpec, f: Sim) {
    && Inv(spec, f)
    && f.completed == |f.records| == TotalRequests(spec)
    && (f.records != [] ==> f.time == PreviousEnd(f.records, f.completed))
  }

  lemma {:induction false} RunFromEnds(spec: CaseSpec, s: Sim)
    requires LoopInv(spec, s)
    requires s.completed == TotalRequests(spec) ==> TotalRequests(spec) == 0
    ensures RunFrom(spec, s).Failed? <==> s.completed < TotalRequests(spec) && !LimitsPositive(spec)
    ensures RunFrom(spec, s).Failed? ==> RunFrom(spec, s).failure == NoProgress
    ensures RunFrom(spec, s).Completed? ==> RunDone(spec, RunFrom(spec, s).final)
    decreases TotalRequests(spec) - Credited(s), TotalRequests(spec) - |s.records|, NotReady(spec, s.lanes, s.time)
  {
    hide TotalRequests, LimitsPositive, Closer, NotReady, Iterate;
    if s.completed < TotalRequests(spec) {
      if LimitsPositive(spec) {
        IterateProgresses(spec, s);
        var step := Iterate(spec, s);
        if step.Continue? {
          ContinueIsUnfinished(spec, s);
          RunFromEnds(spec, step.next);
        }
      } else {
        ZeroLimitThrows(spec, s);
      }
    }
  }

  lemma ContinueIsUnfinished(spec: CaseSpec, s: Sim)
    requires LoopInv(spec, s) && Iterate(spec, s).Continue?
    ensures Iterate(spec, s).next.completed < TotalRequests(spec)
  {
    IterateIsMove(spec, s);
  }

  /** A run throws exactly when it has requests to serve and some limit is zero;
      the exception is then "event loop stopped making progress".  Every other
      run ends with each request issued, served and completed once. */
  lemma RunEnds(spec: CaseSpec)
    requires TimingValid(spec)
    ensures RunCase(spec).Failed? <==> TotalRequests(spec) > 0 && !LimitsPositive(spec)
    ensures RunCase(spec).Failed? ==> RunCase(spec).failure == NoProgress
    ensures RunCase(spec).Completed? ==> RunDone(spec, RunCase(spec).final)
  {
    InitIsLoopHead(spec);
    RunFromEnds(spec, Init(spec));
  }

  // ---- The hop ----

  /** Nothing has happened yet but issues, the first of them lane 0's. */
  predicate Opening(spec: CaseSpec, s: Sim) {
    && Shape(s)
    && s.time == 0.0 && s.current.None? && s.completed == 0
    && |s.queue| > 0 && s.queue[0] == 0 && |s.records| > 0
    && s.records[0].laneId == 0 && s.records[0].sequenceIndex == 0 && s.records[0].sizeBytes == spec.requestSize
  }

  lemma {:induction false} IssuePassOpens(spec: CaseSpec, s: Sim, l: nat, issued: bool)
    requires Opening(spec, s) && l <= |s.lanes|
    ensures var r := IssuePass(spec, s, l, issued); Opening(spec, r.0) && (issued ==> r.1)
    decreases |s.lanes| - l
  {
    if l < |s.lanes| {
      if LaneCanIssue(spec, s, l) {
        IssuePassOpens(spec, IssueLane(spec, s, l), l + 1, true);
      } else {
        IssuePassOpens(spec, s, l + 1, issued);
      }
    }
  }

  lemma {:induction false} IssueAllOpens(spec: CaseSpec, s: Sim)
    requires Opening(spec, s)
    ensures Opening(spec, IssueAll(spec, s).0)
    decreases Ungenerated(spec, s.lanes)
  {
    IssuePassOpens(spec, s, 0, false);
    var pass := IssuePass(spec, s, 0, false);
    if pass.1 {
      IssueAllOpens(spec, pass.0);
    }
  }

  /** The first pass starts with lane 0. */
  lemma FirstIssue(spec: CaseSpec)
    requires LimitsPositive(spec) && spec.numLanes > 0 && spec.requestsPerLane > 0
    ensures var r := IssueAll(spec, Init(spec)); Opening(spec, r.0) && r.1
  {
    var s := Init(spec);
    var first := IssueLane(spec, s, 0);
    assert IssuePass(spec, s, 0, false) == IssuePass(spec, first, 1, true);
    hide IssuePass;
    IssuePassOpens(spec, first, 1, true);
    IssueAllOpens(spec, IssuePass(spec, s, 0, false).0);
  }

  lemma {:induction false} NextIsNoLater(spec: CaseSpec, s: Sim, l: nat, start: Option<real>)
    requires l <= |s.lanes| && s.current.Some? && start.Some?
    ensures var e := NextOverLanes(spec, s, l, start); e.Some? && e.value <= start.value
    decreases |s.lanes| - l
  {
    if l < |s.lanes| {
      var lane := s.lanes[l];
      var next := if lane.generated < spec.requestsPerLane && lane.nextReady > s.time
                  then EarlierOf(start, lane.nextReady) else start;
      NextIsNoLater(spec, s, l + 1, next);
    }
  }

  /** The positive service time is exactly what keeps the hop from firing: without it
      the very first iteration of every case with requests hops, to 1 ps, and with it none
      does. */
  lemma FirstIterationHops(spec: CaseSpec)
    requires GapsValid(spec) && spec.bandwidth > 0.0 && LimitsPositive(spec) && TotalRequests(spec) > 0
    requires BaseService(spec) >= 0.0
    ensures var step := Iterate(spec, Init(spec)); step.Continue? && step.hopped <==> BaseService(spec) == 0.0
    ensures BaseService(spec) == 0.0 ==> Iterate(spec, Init(spec)).next.time == 0.001
  {
    if TimingValid(spec) {
      InitIsLoopHead(spec);
      hide TimingValid, LoopInv, Iterate, Init;
      IterateProgresses(spec, Init(spec));
    } else {
      hide Iterate, Init, IssueAll, Opening, TotalRequests;
      SomeLanes(spec);
      FirstIssue(spec);
      ZeroServiceHops(spec);
    }
  }

  lemma SomeLanes(spec: CaseSpec)
    requires TotalRequests(spec) > 0
    ensures spec.numLanes > 0 && spec.requestsPerLane > 0
  {
    assert spec.numLanes == 0 ==> TotalRequests(spec) == 0;
    assert spec.requestsPerLane == 0 ==> TotalRequests(spec) == 0;
  }

  lemma ZeroServiceHops(spec: CaseSpec)
    requires spec.bandwidth > 0.0 && TotalRequests(spec) > 0 && BaseService(spec) == 0.0
    requires var r := IssueAll(spec, Init(spec)); Opening(spec, r.0) && r.1
    ensures var step := Iterate(spec, Init(spec)); step.Continue? && step.hopped && step.next.time == 0.001
  {
    hide IssueAll, NextOverLanes, TotalRequests;
    var s := Init(spec);
    assert DrainCompletions(spec, s) == Drained(s) && StartIfIdle(spec, s) == s;
    var issue := IssueReady(spec, s);
    assert Opening(spec, issue.0) && issue.1;
    var d := StartIfIdle(spec, issue.0);
    assert d.records[0].serviceEnd == ServiceDelay(spec, issue.0.records[0]) == 0.0;
    NextIsNoLater(spec, d, 0, Some(0.0));
  }

  // ---- What the totals of a finished run mean ----

  lemma AreasAreTotals(spec: CaseSpec, f: Sim)
    requires RunDone(spec, f)
    ensures f.outstandingArea == Sum(Latencies(f.records))
    ensures f.queueArea == Sum(QueueDelays(f.records))
  {
    assert Latencies(f.records)[..f.completed] == Latencies(f.records);
    assert QueueDelays(f.records)[..f.completed] == QueueDelays(f.records);
    assert Issues(f.records)[f.completed..] == [];
  }

  /** Little's law, exactly and for every configuration: a run without a zero limit
      completes all its requests, its outstanding area is their total latency and its
      queue area their total queue delay. */
  lemma LittlesLaw(spec: CaseSpec)
    requires TimingValid(spec) && LimitsPositive(spec)
    ensures RunCase(spec).Completed?
    ensures var f := RunCase(spec).final;
            f.completed == |f.records| == TotalRequests(spec)
            && f.outstandingArea == Sum(Latencies(f.records))
            && f.queueArea == Sum(QueueDelays(f.records))
  {
    RunEnds(spec);
    AreasAreTotals(spec, RunCase(spec).final);
  }

  /** The reported averages obey L = lambda W. */
  lemma AverageOutstandingIsThroughputTimesLatency(spec: CaseSpec, f: Sim)
    requires RunDone(spec, f) && |f.records| > 0 && f.time > 0.0
    ensures var n := |f.records| as real;
            f.outstandingArea / f.time == (n / f.time) * (Sum(Latencies(f.records)) / n)
  {
    AreasAreTotals(spec, f);
    hide Inv, Latencies, Sum;
    RatioProduct(|f.records| as real, f.time, Sum(Latencies(f.records)));
  }

  lemma RatioProduct(n: real, t: real, sum: real)
    requires n > 0.0 && t > 0.0
    ensures (n / t) * (sum / n) == sum / t
  {
    var rate, mean := n / t, sum / n;
    assert rate * t == n && mean * n == sum;
    assert (rate * mean) * t == (rate * t) * mean;
  }

  lemma {:induction false} ServiceFits(spec: CaseSpec, f: Sim, n: nat)
    requires RunDone(spec, f) && n <= |f.records|
    ensures Sum(ServiceDelays(f.records)[..n]) <= PreviousEnd(f.records, n)
  {
    if n == 0 {
    } else {
      ServiceFits(spec, f, n - 1);
      SumTake(ServiceDelays(f.records), n - 1);
      assert ServedCorrectly(spec, f.records, n - 1);
    }
  }

  lemma RatioAtMostOne(part: real, whole: real)
    requires part <= whole && whole > 0.0
    ensures part / whole <= 1.0
  {
  }

  /** The memory is never busier than the run is long, so the utilization ratio
      is at most one before it is clamped. */
  lemma UtilizationNeedsNoClamp(spec: CaseSpec, f: Sim)
    requires RunDone(spec, f) && f.time > 0.0
    ensures Sum(ServiceDelays(f.records)) / f.time <= 1.0
  {
    ServiceFits(spec, f, |f.records|);
    assert ServiceDelays(f.records)[..|f.records|] == ServiceDelays(f.records);
    var busy := Sum(ServiceDelays(f.records));
    assert busy <= f.time;
    RatioAtMostOne(busy, f.time);
  }

  /** Each lane's clock telescopes: its last issue is its stagger, plus its gaps,
      plus the time it is reported to have been blocked.  No blocked interval is
      left open, and the stall events are exactly the requests issued late. */
  lemma StallsTelescope(spec: CaseSpec, f: Sim, l: nat)
    requires RunDone(spec, f) && l < |f.lanes|
    ensures var lane := f.lanes[l];
            var issues := LaneIssues(LaneIds(f.records), Issues(f.records), l);
            && lane.blockedSince.None? && lane.outstanding == 0
            && |issues| == spec.requestsPerLane
            && lane.stallEvents == LateCount(spec, l, issues)
            && (|issues| > 0 ==>
                  issues[|issues| - 1] == LaneOffset(l) + GapSum(spec, |issues| - 1) + lane.blockedStall)
  {
    forall k | 0 <= k < |f.lanes| ensures f.lanes[k].generated <= spec.requestsPerLane {
      assert LaneInv(spec, f, k);
    }
    SumGeneratedBound(f.lanes, spec.requestsPerLane);
    assert LaneInv(spec, f, l);
    CountNone(LaneIds(f.records), l);
  }

  /** The memory serves in issue order and never idles while a request waits:
      start times follow the recurrence of a single FIFO server. */
  lemma FifoServer(spec: CaseSpec, f: Sim, k: nat)
    requires RunDone(spec, f) && k < |f.records|
    ensures var r := f.records[k];
            && r.requestId == k + 1
            && r.serviceStart == Max(r.issue, PreviousEnd(f.records, k))
            && r.serviceEnd == r.serviceStart + ServiceDelay(spec, r)
            && r.latency == r.queueDelay + r.serviceDelay == r.hidden + r.exposed
    ensures f.queuePeak <= spec.queueCapacity && f.peakOutstanding <= spec.globalLimit
  {
    assert ServedCorrectly(spec, f.records, k);
    assert FinishedCorrectly(spec, f.records[k]);
  }
}
