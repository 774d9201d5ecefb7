/** Whole runs of the handshake: safety, progress, exactly-once phases and order. */
module HandshakeTheorems {
  import opened SimTime
  import opened TargetModel
  import opened HandshakeModel
  import opened HandshakeInvariant
  import opened Arbitration

  // ---- Remaining work ----

  /** Steps one initiator still owes: eight for each transaction not yet issued,
      seven for each one pending, two for each response queued, one for the response
      in hand, one for noticing that all were issued. */
  function OwnWork(p: Initiator, pending: seq<Txn>): int {
    8 * (p.total - p.issued) + (if p.issuedAll then 0 else 1)
    + 7 * |pending| + 2 * |p.responses| + |Held(p.inHand)|
  }

  function InitiatorWork(ps: seq<Initiator>, pending: seq<seq<Txn>>, n: nat): int
    requires n <= |ps| && n <= |pending|
  {
    if n == 0 then 0 else InitiatorWork(ps, pending, n - 1) + OwnWork(ps[n - 1], pending[n - 1])
  }

  function TargetWork(target: Target): int {
    6 * |target.waiting| + 6 * |target.endReq| + 5 * |Held(target.accepting)|
    + 4 * |target.service| + 3 * |Held(target.serving)|
  }

  function Work(s: System): int
    requires |s.fabric.pending| == |s.initiators|
  {
    InitiatorWork(s.initiators, s.fabric.pending, |s.initiators|) + TargetWork(s.target)
  }

  lemma {:induction false} WorkChanges(ps: seq<Initiator>, pending: seq<seq<Txn>>, i: nat, p: Initiator,
                                       own: seq<Txn>, n: nat)
    requires |ps| == |pending| && n <= |ps| && i < |ps|
    ensures InitiatorWork(ps[i := p], pending[i := own], n)
            == InitiatorWork(ps, pending, n)
               + if i < n then OwnWork(p, own) - OwnWork(ps[i], pending[i]) else 0
  {
    if n == 0 {
    } else {
      WorkChanges(ps, pending, i, p, own, n - 1);
    }
  }

  lemma WorkChangesAt(s: System, next: System, i: nat)
    requires |s.fabric.pending| == |s.initiators| == |next.initiators| == |next.fabric.pending| && i < |s.initiators|
    requires next.initiators == s.initiators[i := next.initiators[i]]
    requires next.fabric.pending == s.fabric.pending[i := next.fabric.pending[i]]
    ensures Work(next) - Work(s)
            == OwnWork(next.initiators[i], next.fabric.pending[i]) - OwnWork(s.initiators[i], s.fabric.pending[i])
               + TargetWork(next.target) - TargetWork(s.target)
  {
    WorkChanges(s.initiators, s.fabric.pending, i, next.initiators[i], next.fabric.pending[i], |s.initiators|);
  }

  lemma FinishServiceWork(target: Target, once: bool)
    requires SlotsInv(target) && target.serving.Some?
    ensures FinishService(target, once).Some?
    ensures TargetWork(FinishService(target, once).value) == TargetWork(target) - 3
  {
    FinishServiceKeepsSlots(target, true);
    var freed := target.(serving := None, occupied := target.occupied - 1);
    assert FinishService(target, once) == Some(AcceptOneWaiting(freed));
    assert TargetWork(AcceptOneWaiting(freed)) == TargetWork(freed);
  }

  lemma InitiatorStepOwn(s: System, step: Step)
    requires |s.fabric.pending| == |s.initiators| && Enabled(s, step)
    requires step.Issue? || step.FinishIssuing? || step.TakeResponse? || step.SendEndResp?
    ensures After(s, step).Some?
    ensures var next := After(s, step).value;
            next.target == s.target && |next.initiators| == |s.initiators| == |next.fabric.pending|
            && next.initiators == s.initiators[step.i := next.initiators[step.i]]
            && next.fabric.pending == s.fabric.pending[step.i := next.fabric.pending[step.i]]
            && OwnWork(next.initiators[step.i], next.fabric.pending[step.i])
               == OwnWork(s.initiators[step.i], s.fabric.pending[step.i]) - 1
  {
    var next := After(s, step).value;
    assert next.fabric.pending == s.fabric.pending[step.i := next.fabric.pending[step.i]];
  }

  lemma InitiatorStepUsesOne(s: System, step: Step)
    requires |s.fabric.pending| == |s.initiators| && Enabled(s, step)
    requires step.Issue? || step.FinishIssuing? || step.TakeResponse? || step.SendEndResp?
    ensures After(s, step).Some? && Work(After(s, step).value) == Work(s) - 1
  {
    InitiatorStepOwn(s, step);
    WorkChangesAt(s, After(s, step).value, step.i);
    hide InitiatorWork, Work, TargetWork, After, Enabled, OwnWork;
  }

  lemma GrantUsesOne(s: System, winner: nat)
    requires Inv(s) && Enabled(s, Grant(winner))
    ensures After(s, Grant(winner)).Some? && Work(After(s, Grant(winner)).value) == Work(s) - 1
  {
    var next := After(s, Grant(winner)).value;
    WorkChangesAt(s, next, winner);
    hide Inv, InitiatorWork, Work;
  }

  lemma TargetStepUsesOne(s: System, step: Step)
    requires Inv(s) && Enabled(s, step)
    requires step.TakeRequest? || step.SendEndReq? || step.TakeForService?
    ensures After(s, step).Some? && Work(After(s, step).value) == Work(s) - 1
  {
    hide Inv, InitiatorWork;
  }

  lemma BeginRespUsesOne(s: System)
    requires Inv(s) && Enabled(s, SendBeginResp)
    ensures After(s, SendBeginResp).Some? && Work(After(s, SendBeginResp).value) == Work(s) - 1
  {
    AfterBeginResp(s);
    ServedIsOldest(s);
    FinishServiceWork(s.target, s.once);
    var next := After(s, SendBeginResp).value;
    WorkChangesAt(s, next, s.target.serving.value.initiator);
    hide Inv, InitiatorWork, Work, TargetWork, FinishService;
  }

  /** Every step uses up exactly one unit of work. */
  lemma StepUsesOne(s: System, step: Step)
    requires Inv(s) && Enabled(s, step)
    ensures After(s, step).Some? && Inv(After(s, step).value)
    ensures Work(After(s, step).value) == Work(s) - 1
  {
    StepKeeps(s, step);
    assert |s.fabric.pending| == |s.initiators|;
    hide Inv, After, Enabled, Work;
    match step
    case Grant(winner) => GrantUsesOne(s, winner);
    case TakeRequest => TargetStepUsesOne(s, step);
    case SendEndReq => TargetStepUsesOne(s, step);
    case TakeForService => TargetStepUsesOne(s, step);
    case SendBeginResp => BeginRespUsesOne(s);
    case _ => InitiatorStepUsesOne(s, step);
  }

  lemma {:induction false} WorkIsNatural(s: System, n: nat)
    requires IssueInv(s) && n <= |s.initiators|
    ensures InitiatorWork(s.initiators, s.fabric.pending, n) >= 0
  {
    if n == 0 {
    } else {
      WorkIsNatural(s, n - 1);
      assert OwnIssue(s.initiators[n - 1], n - 1, s.log.granted, s.fabric.pending[n - 1]);
    }
  }

  // ---- Progress ----

  predicate AllDone(s: System) {
    forall i :: 0 <= i < |s.initiators| ==> s.initiators[i].done
  }

  ghost predicate Stuck(s: System)
    requires |s.fabric.pending| == |s.initiators|
  {
    forall step :: !Enabled(s, step)
  }

  predicate Drained(s: System)
    requires |s.fabric.pending| == |s.initiators|
  {
    && s.target.Unanswered() == [] && s.target.InService() == []
    && forall i :: 0 <= i < |s.initiators| ==> Idle(s.initiators[i], s.fabric.pending[i])
  }

  /** Nothing left to issue, to be granted or to be ended. */
  predicate Idle(p: Initiator, pending: seq<Txn>) {
    p.issuedAll && p.issued == p.total && p.inHand.None? && p.responses == [] && pending == []
  }

  lemma TargetIsFree(s: System)
    requires Inv(s)
    requires !Enabled(s, TakeRequest) && !Enabled(s, SendEndReq)
    requires !Enabled(s, TakeForService) && !Enabled(s, SendBeginResp)
    ensures s.target.Unanswered() == [] && s.target.InService() == [] && !s.fabric.downstreamPending
  {
    hide ChainInv, IssueInv, ResponseInv, OrderInv;
    assert s.target.accepting.None? && s.target.serving.None?;
    assert s.target.endReq == [] && s.target.service == [];
    assert s.target.waiting == [];
  }

  /** Deadlock freedom: with no thread runnable every initiator is done. */
  lemma StuckIsDone(s: System)
    requires Inv(s) && Stuck(s)
    ensures AllDone(s)
  {
    TargetIsFree(s);
    forall i: nat | i < |s.initiators| ensures s.initiators[i].done {
      StuckInitiatorIsDone(s, i);
    }
  }

  lemma StuckInitiatorIsDone(s: System, i: nat)
    requires Inv(s) && Stuck(s) && i < |s.initiators|
    requires s.target.Unanswered() == [] && s.target.InService() == [] && !s.fabric.downstreamPending
    ensures s.initiators[i].done
  {
    hide Stuck, OwnIssue, OwnResponse, SlotsInv;
    assert s.log.granted == s.log.responded;
    StuckIsAtRest(s, i);
    hide HopInv, ChainInv, OrderInv;
    AtRestIsDone(s.initiators[i], i, s.log.granted, s.log.finished);
  }

  lemma StuckIsAtRest(s: System, i: nat)
    requires |s.fabric.pending| == |s.initiators| && Stuck(s) && i < |s.initiators| && !s.fabric.downstreamPending
    ensures var p := s.initiators[i];
            && p.issued >= p.total && (p.issued == p.total ==> p.issuedAll)
            && p.responses == [] && p.inHand.None? && s.fabric.pending[i] == []
  {
    assert !Enabled(s, Issue(i)) && !Enabled(s, FinishIssuing(i)) && !Enabled(s, Grant(i));
    assert !Enabled(s, TakeResponse(i)) && !Enabled(s, SendEndResp(i));
  }

  /** With nothing pending, queued or in hand, what an initiator issued is completed. */
  lemma AtRestIsDone(p: Initiator, i: nat, granted: seq<Txn>, finished: seq<Txn>)
    requires OwnIssue(p, i, granted, []) && OwnResponse(p, i, granted, finished)
    requires p.issued >= p.total && (p.issued == p.total ==> p.issuedAll) && p.responses == [] && p.inHand.None?
    ensures p.done
  {
    hide Mine;
  }

  lemma DoneInitiator(s: System, i: nat, open: seq<Txn>)
    requires IssueInv(s) && ResponseInv(s) && i < |s.initiators| && s.initiators[i].done
    requires s.log.granted == s.log.responded + open
    ensures var p := s.initiators[i];
            Mine(open, i) == [] && Idle(p, s.fabric.pending[i])
            && Mine(s.log.granted, i) == Upto(i, p.total) == Mine(s.log.finished, i)
  {
    var p := s.initiators[i];
    assert OwnIssue(p, i, s.log.granted, s.fabric.pending[i]);
    assert OwnResponse(p, i, s.log.responded, s.log.finished);
    MineAppend(s.log.responded, open, i);
    hide Mine, IssueInv, ResponseInv;
  }

  /** When the last initiator is done, so that the simulation stops, nothing is left in
      any queue. */
  lemma DoneIsDrained(s: System)
    requires Inv(s) && AllDone(s)
    ensures Drained(s)
  {
    var open := s.target.InService() + s.target.Unanswered();
    assert s.log.granted == s.log.responded + open;
    if |open| > 0 {
      var txn := open[0];
      assert s.log.granted[|s.log.responded|] == txn;
      DoneInitiator(s, txn.initiator, open);
      MineHolds(open, txn.initiator);
      assert false;
    }
    hide IssueInv, ResponseInv, HopInv, ChainInv, OrderInv;
    forall i: nat | i < |s.initiators|
      ensures Idle(s.initiators[i], s.fabric.pending[i])
    {
      DoneInitiator(s, i, open);
    }
  }

  lemma DrainedStopsStep(s: System, step: Step)
    requires |s.fabric.pending| == |s.initiators| && Drained(s)
    ensures !Enabled(s, step)
  {
    if step.Issue? || step.FinishIssuing? || step.TakeResponse? || step.SendEndResp? {
      assert step.i < |s.initiators| ==> Idle(s.initiators[step.i], s.fabric.pending[step.i]);
    } else if step.Grant? {
      assert step.winner < |s.initiators| ==> Idle(s.initiators[step.winner], s.fabric.pending[step.winner]);
    } else {
      EmptyTargetIsStill(s.target);
    }
  }

  lemma DrainedIsStuck(s: System)
    requires |s.fabric.pending| == |s.initiators| && Drained(s)
    ensures Stuck(s) && Work(s) == 0
  {
    NoWorkLeft(s.initiators, s.fabric.pending, |s.initiators|);
    EmptyTargetIsStill(s.target);
    hide Drained, Enabled, InitiatorWork, TargetWork;
    forall step ensures !Enabled(s, step) {
      DrainedStopsStep(s, step);
    }
  }

  lemma EmptyTargetIsStill(target: Target)
    requires target.Unanswered() == [] && target.InService() == []
    ensures target.waiting == target.endReq == target.service == []
    ensures target.accepting.None? && target.serving.None?
    ensures TargetWork(target) == 0
  {
    assert |Held(target.accepting)| == 0 && |Held(target.serving)| == 0;
  }

  lemma {:induction false} NoWorkLeft(ps: seq<Initiator>, pending: seq<seq<Txn>>, n: nat)
    requires |pending| == |ps| && n <= |ps|
    requires forall i :: 0 <= i < |ps| ==> Idle(ps[i], pending[i])
    ensures InitiatorWork(ps, pending, n) == 0
  {
    if n == 0 {
    } else {
      NoWorkLeft(ps, pending, n - 1);
      assert Idle(ps[n - 1], pending[n - 1]);
    }
  }

  /** Three views of the end agree. */
  lemma EndIsEnd(s: System)
    requires Inv(s)
    ensures Work(s) >= 0
    ensures AllDone(s) <==> Stuck(s)
    ensures AllDone(s) <==> Work(s) == 0
  {
    WorkIsNatural(s, |s.initiators|);
    hide HopInv, ChainInv, ResponseInv, OrderInv, Enabled, InitiatorWork;
    if AllDone(s) {
      DoneIsDrained(s);
      DrainedIsStuck(s);
    } else {
      hide AllDone;
      if Stuck(s) {
        StuckIsDone(s);
      } else {
        var step :| Enabled(s, step);
        StepUsesOne(s, step);
        WorkIsNatural(After(s, step).value, |After(s, step).value.initiators|);
      }
    }
  }

  // ---- Runs ----

  /** Each step is taken by a runnable thread; a fatal report ends the run. */
  predicate IsRun(s: System, steps: seq<Step>)
    requires |s.fabric.pending| == |s.initiators|
    decreases |steps|
  {
    |steps| == 0
    || (Enabled(s, steps[0])
        && (After(s, steps[0]).Some? ==> IsRun(After(s, steps[0]).value, steps[1..])))
  }

  function EndOf(s: System, steps: seq<Step>): Option<System>
    requires |s.fabric.pending| == |s.initiators| && IsRun(s, steps)
    decreases |steps|
  {
    if |steps| == 0 then Some(s)
    else if After(s, steps[0]).None? then None
    else EndOf(After(s, steps[0]).value, steps[1..])
  }

  /** The parameters a run never changes. */
  predicate SameSetup(s: System, t: System) {
    && |s.initiators| == |t.initiators|
    && s.once == t.once && s.target.depth == t.target.depth
    && forall i :: 0 <= i < |s.initiators| ==> s.initiators[i].total == t.initiators[i].total
  }

  lemma {:induction false} AcceptWaitingKeepsDepth(target: Target)
    ensures AcceptWaiting(target).depth == target.depth
    decreases |target.waiting|
  {
    if |target.waiting| > 0 && target.occupied < target.depth {
      AcceptWaitingKeepsDepth(AdmitOldest(target));
    }
  }

  lemma StepKeepsSetup(s: System, step: Step)
    requires |s.fabric.pending| == |s.initiators| && Enabled(s, step) && After(s, step).Some?
    ensures SameSetup(s, After(s, step).value)
  {
    if step.SendBeginResp? && s.target.occupied > 0 {
      AcceptWaitingKeepsDepth(s.target.(serving := None, occupied := s.target.occupied - 1));
    }
  }

  /** Every run from a state with the invariant is free of fatal reports, keeps the
      invariant and does one unit of work a step. */
  lemma {:induction false} RunKeeps(s: System, steps: seq<Step>)
    requires Inv(s) && IsRun(s, steps)
    ensures EndOf(s, steps).Some?
    ensures var end := EndOf(s, steps).value;
            Inv(end) && SameSetup(s, end) && Work(end) == Work(s) - |steps|
    decreases |steps|
  {
    if |steps| == 0 {
    } else {
      StepUsesOne(s, steps[0]);
      StepKeepsSetup(s, steps[0]);
      hide Inv, After, Enabled, Work;
      RunKeeps(After(s, steps[0]).value, steps[1..]);
    }
  }

  function Total(totals: seq<nat>): nat {
    if |totals| == 0 then 0 else Total(totals[..|totals| - 1]) + totals[|totals| - 1]
  }

  lemma {:induction false} InitialWork(totals: seq<nat>, depth: nat, once: bool, n: nat)
    requires n <= |totals|
    ensures var s := Initial(totals, depth, once);
            InitiatorWork(s.initiators, s.fabric.pending, n) == 8 * Total(totals[..n]) + n
  {
    if n == 0 {
    } else {
      InitialWork(totals, depth, once, n - 1);
      assert totals[..n][..n - 1] == totals[..n - 1];
    }
  }

  /** Every transaction of every initiator passed every phase exactly once. */
  predicate Completed(totals: seq<nat>, s: System) {
    && |s.initiators| == |totals|
    && s.log.granted == s.log.accepted == s.log.responded
    && forall i :: 0 <= i < |totals| ==>
         s.initiators[i].done
         && Mine(s.log.granted, i) == Upto(i, totals[i])
         && Mine(s.log.finished, i) == Upto(i, totals[i])
  }

  /** The main result.  A run never meets a fatal report; it is at most eight steps a
      transaction and one an initiator long; it can be continued exactly while it is
      shorter, equivalently while an initiator is not done; and then every transaction
      has passed every phase once. */
  lemma EveryRun(totals: seq<nat>, depth: nat, once: bool, steps: seq<Step>)
    requires depth > 0
    requires IsRun(Initial(totals, depth, once), steps)
    ensures var end := EndOf(Initial(totals, depth, once), steps);
            end.Some? && Inv(end.value)
            && |steps| <= 8 * Total(totals) + |totals|
            && (|steps| == 8 * Total(totals) + |totals| <==> Stuck(end.value))
            && (AllDone(end.value) <==> Stuck(end.value))
            && (AllDone(end.value) ==> Completed(totals, end.value))
  {
    hide Inv, IsRun, EndOf, Work, Initial, AllDone, Stuck, Completed, Total;
    InitialIs(totals, depth, once);
    RunFromStart(totals, depth, once, steps);
    WhatEndsMean(totals, EndOf(Initial(totals, depth, once), steps).value);
  }

  lemma WhatEndsMean(totals: seq<nat>, end: System)
    requires Inv(end) && |end.initiators| == |totals|
    requires forall i :: 0 <= i < |totals| ==> end.initiators[i].total == totals[i]
    ensures Work(end) >= 0
    ensures Work(end) == 0 <==> Stuck(end)
    ensures AllDone(end) <==> Stuck(end)
    ensures AllDone(end) ==> Completed(totals, end)
  {
    hide Inv, Work, AllDone, Stuck, Completed;
    EndIsEnd(end);
    if AllDone(end) {
      DoneIsCompleted(totals, end);
    }
  }

  lemma RunFromStart(totals: seq<nat>, depth: nat, once: bool, steps: seq<Step>)
    requires depth > 0
    requires IsRun(Initial(totals, depth, once), steps)
    ensures var end := EndOf(Initial(totals, depth, once), steps);
            end.Some? && Inv(end.value)
            && |end.value.initiators| == |totals|
            && (forall i :: 0 <= i < |totals| ==> end.value.initiators[i].total == totals[i])
            && Work(end.value) == 8 * Total(totals) + |totals| - |steps|
  {
    InitialInv(totals, depth, once);
    InitialIs(totals, depth, once);
    hide Inv, IsRun, EndOf, Work, Initial, Total;
    RunKeeps(Initial(totals, depth, once), steps);
  }

  lemma InitialIs(totals: seq<nat>, depth: nat, once: bool)
    ensures var s := Initial(totals, depth, once);
            |s.initiators| == |totals| == |s.fabric.pending|
            && (forall i :: 0 <= i < |totals| ==> s.initiators[i].total == totals[i])
            && Work(s) == 8 * Total(totals) + |totals|
  {
    InitialWork(totals, depth, once, |totals|);
    assert totals[..|totals|] == totals;
  }

  lemma DoneIsCompleted(totals: seq<nat>, end: System)
    requires Inv(end) && AllDone(end) && |end.initiators| == |totals|
    requires forall i :: 0 <= i < |totals| ==> end.initiators[i].total == totals[i]
    ensures Completed(totals, end)
  {
    DoneIsDrained(end);
    assert end.log.granted == end.log.accepted == end.log.responded;
    hide IssueInv, ResponseInv, HopInv, ChainInv, OrderInv;
    forall i | 0 <= i < |totals|
      ensures Mine(end.log.granted, i) == Upto(i, totals[i]) == Mine(end.log.finished, i)
    {
      DoneInitiator(end, i, []);
    }
  }

  // ---- What holds at every moment ----

  /** A state that some run from the start passes through. */
  ghost predicate Reachable(s: System) {
    exists totals: seq<nat>, depth: nat, once: bool, steps: seq<Step> ::
      ReachedBy(s, totals, depth, once, steps)
  }

  predicate ReachedBy(s: System, totals: seq<nat>, depth: nat, once: bool, steps: seq<Step>) {
    depth > 0 && IsRun(Initial(totals, depth, once), steps)
    && EndOf(Initial(totals, depth, once), steps) == Some(s)
  }

  lemma ReachableInv(s: System)
    requires Reachable(s)
    ensures Inv(s)
  {
    var totals: seq<nat>, depth: nat, once: bool, steps: seq<Step> :| ReachedBy(s, totals, depth, once, steps);
    RunFromStart(totals, depth, once, steps);
  }

  lemma ReachableOrder(s: System)
    requires Reachable(s)
    ensures OrderInv(s) && IssueInv(s)
    ensures forall k :: 0 <= k < |s.log.granted| ==> s.log.granted[k].initiator < |s.initiators|
  {
    hide Reachable;
    ReachableInv(s);
  }

  /** Request exclusion on the hop to the target: while downstream_pending_ holds there
      is exactly one request between BEGIN_REQ and END_REQ, else none.  The slots in use
      are the admitted requests without a response. */
  lemma RequestExclusion(s: System)
    requires Reachable(s)
    ensures |s.log.granted| - |s.log.accepted| == if s.fabric.downstreamPending then 1 else 0
    ensures |s.target.waiting| <= 1
    ensures s.target.occupied == |s.log.granted| - |s.log.responded| - |s.target.waiting|
    ensures s.target.occupied <= s.target.depth
  {
    ReachableInv(s);
  }

  /** A grant finds the target with no request outstanding and sends one it has never
      seen, as the timed model of the target asks of its environment. */
  lemma GrantMeetsTheRule(s: System, winner: nat)
    requires Reachable(s) && CanGrant(s.fabric, winner)
    ensures s.target.Unanswered() == []
    ensures s.fabric.pending[winner][0] !in s.log.granted
  {
    ReachableInv(s);
    NextIsNew(s, winner);
  }

  predicate Grantable(fabric: Interconnect) {
    exists winner :: 0 <= winner < |fabric.pending| && CanGrant(fabric, winner)
  }

  lemma GrantableIsReady(fabric: Interconnect)
    requires |fabric.pending| == INITIATORS && !fabric.downstreamPending
    ensures Grantable(fabric) <==> SomeoneReady(Waiting(fabric.pending))
    ensures forall w: nat :: w < INITIATORS && Waiting(fabric.pending)[w] ==> CanGrant(fabric, w)
  {
    if Grantable(fabric) {
      var winner :| 0 <= winner < |fabric.pending| && CanGrant(fabric, winner);
      assert Waiting(fabric.pending)[winner];
    }
    if SomeoneReady(Waiting(fabric.pending)) {
      var w :| 0 <= w < INITIATORS && Waiting(fabric.pending)[w];
      assert CanGrant(fabric, w);
    }
  }

  /** Whatever AT-3's weighted choice or AT-2's policies pick is a grant the step system
      allows, and they pick whenever the system can grant at all. */
  lemma ArbitersAreGrants(fabric: Interconnect, order: seq<nat>, cursor: nat, policy: Policy, cursors: Cursors)
    requires |fabric.pending| == INITIATORS && !fabric.downstreamPending
    requires ValidOrder(order) && cursor < |order| && cursors.Valid()
    ensures var weighted := ChooseWeighted(order, cursor, Waiting(fabric.pending)).0;
            (weighted.Some? <==> Grantable(fabric)) && (weighted.Some? ==> CanGrant(fabric, weighted.value))
    ensures var byPolicy := ChooseByPolicy(policy, cursors, Waiting(fabric.pending)).0;
            (byPolicy.Some? <==> Grantable(fabric)) && (byPolicy.Some? ==> CanGrant(fabric, byPolicy.value))
  {
    hide ChooseWeighted, ChooseByPolicy, Grantable, CanGrant, SomeoneReady, Waiting;
    GrantableIsReady(fabric);
    ChooseWeightedGrants(order, cursor, Waiting(fabric.pending));
    PolicyGrants(policy, cursors, Waiting(fabric.pending));
  }

  /** Each phase follows the one before it, in grant order up to BEGIN_RESP and in issue
      order per initiator to the end. */
  lemma PhasesInOrder(s: System, i: nat)
    requires Reachable(s) && i < |s.initiators|
    ensures s.log.responded <= s.log.accepted <= s.log.granted
    ensures Mine(s.log.finished, i) <= Mine(s.log.responded, i) <= Mine(s.log.granted, i)
            <= Upto(i, s.initiators[i].issued)
  {
    ReachableInv(s);
    assert OwnIssue(s.initiators[i], i, s.log.granted, s.fabric.pending[i]);
    assert OwnResponse(s.initiators[i], i, s.log.responded, s.log.finished);
    var open := s.target.InService() + s.target.Unanswered();
    assert s.log.granted == s.log.responded + open;
    MineAppend(s.log.responded, open, i);
    hide Mine;
  }

  predicate Numbered(s: System, n: int) {
    exists t :: t in s.fabric.winnerOrder && s.fabric.winnerOrder[t] == n
  }

  /** winner_order is a bijection between the granted transactions and 1..N. */
  lemma WinnerOrderIsBijection(s: System)
    requires Reachable(s)
    ensures forall t :: t in s.fabric.winnerOrder <==> t in s.log.granted
    ensures forall t, u :: t in s.fabric.winnerOrder && u in s.fabric.winnerOrder && t != u ==>
                             s.fabric.winnerOrder[t] != s.fabric.winnerOrder[u]
    ensures forall t :: t in s.fabric.winnerOrder ==> 1 <= s.fabric.winnerOrder[t] <= s.fabric.winners
    ensures forall n :: 1 <= n <= s.fabric.winners ==> Numbered(s, n)
  {
    hide Reachable, Inv, Mine;
    ReachableOrder(s);
    forall n | 1 <= n <= s.fabric.winners ensures Numbered(s, n) {
      assert s.log.granted[n - 1] in s.fabric.winnerOrder;
    }
  }

  lemma {:induction false} OwnOrder(txns: seq<Txn>, i: nat, j: nat, k: nat)
    requires Mine(txns, i) == Upto(i, |Mine(txns, i)|)
    requires j < k < |txns| && txns[j].initiator == i && txns[k].initiator == i
    ensures txns[j].index < txns[k].index
  {
    var front := txns[..|txns| - 1];
    assert txns == front + [txns[|txns| - 1]];
    MineSnoc(front, txns[|txns| - 1], i);
    assert Mine(front, i) == Upto(i, |Mine(txns, i)|)[..|Mine(front, i)|] == Upto(i, |Mine(front, i)|);
    if k < |txns| - 1 {
      OwnOrder(front, i, j, k);
    } else {
      MineHolds(front, i);
      assert front[j] == txns[j] && txns[j] in Mine(front, i);
      assert Mine(txns, i)[|Mine(front, i)|] == txns[k];
    }
  }

  lemma EarlierGrantIsEarlierIssue(s: System, j: nat, k: nat)
    requires IssueInv(s) && j < k < |s.log.granted|
    requires s.log.granted[j].initiator == s.log.granted[k].initiator < |s.initiators|
    ensures s.log.granted[j].index < s.log.granted[k].index
  {
    var i := s.log.granted[j].initiator;
    GrantsAreAPrefix(s, i);
    hide IssueInv, Mine, Upto;
    OwnOrder(s.log.granted, i, j, k);
  }

  /** winner_order keeps each initiator's issue order. */
  lemma WinnerOrderKeepsIssueOrder(s: System, t: Txn, u: Txn)
    requires Reachable(s) && t in s.fabric.winnerOrder && u in s.fabric.winnerOrder
    requires t.initiator == u.initiator
    ensures t.index < u.index <==> s.fabric.winnerOrder[t] < s.fabric.winnerOrder[u]
  {
    hide Reachable, Inv, Mine, IssueInv;
    ReachableOrder(s);
    var j :| 0 <= j < |s.log.granted| && s.log.granted[j] == t;
    var k :| 0 <= k < |s.log.granted| && s.log.granted[k] == u;
    assert s.log.granted[j].initiator < |s.initiators|;
    assert s.fabric.winnerOrder[t] == j + 1 && s.fabric.winnerOrder[u] == k + 1;
    hide OrderInv;
    if j < k {
      EarlierGrantIsEarlierIssue(s, j, k);
    } else if k < j {
      EarlierGrantIsEarlierIssue(s, k, j);
    }
  }

  lemma GrantsAreAPrefix(s: System, i: nat)
    requires IssueInv(s) && i < |s.initiators|
    ensures Mine(s.log.granted, i) == Upto(i, |Mine(s.log.granted, i)|)
  {
    assert OwnIssue(s.initiators[i], i, s.log.granted, s.fabric.pending[i]);
    hide Mine, IssueInv;
    var mine := Mine(s.log.granted, i);
    assert mine == Upto(i, s.initiators[i].issued)[..|mine|] == Upto(i, |mine|);
  }
}
