/** Which requests of a handshake run are marked as back-pressured. */
module HandshakeMarks {
  import opened SimTime
  import opened TargetModel
  import opened HandshakeModel
  import opened HandshakeInvariant
  import opened HandshakeTheorems

  /** A request is marked exactly when as many requests before it had no response as
      there are slots; nothing else is marked. */
  predicate MarksRight(log: Log, target: Target) {
    && |log.found| == |log.granted|
    && (forall k :: 0 <= k < |log.found| ==>
          0 <= log.found[k] <= target.depth
          && (log.granted[k] in target.backpressured <==> log.found[k] == target.depth))
    && (forall txn :: txn in target.backpressured ==> txn in log.granted)
  }

  /** With nothing on the hop, the requests without a response are the admitted ones. */
  lemma OpenAreAdmitted(s: System)
    requires HopInv(s) && ChainInv(s) && !s.fabric.downstreamPending
    ensures |s.log.granted| - |s.log.responded| == Admitted(s.target) <= s.target.depth
  {
    assert |s.target.Unanswered()| == 0;
    assert s.log.granted == s.log.accepted;
    assert |s.log.accepted| == |s.log.responded| + |s.target.InService()|;
  }

  lemma GrantMarks(log: Log, target: Target, next: Target, txn: Txn)
    requires MarksRight(log, target) && txn !in log.granted && next.depth == target.depth
    requires 0 <= |log.granted| - |log.responded| <= target.depth
    requires next.backpressured
             == target.backpressured + if |log.granted| - |log.responded| == target.depth then {txn} else {}
    ensures MarksRight(log.Granted(txn), next)
  {
    var after := log.Granted(txn);
    forall k | 0 <= k < |after.found|
      ensures 0 <= after.found[k] <= next.depth
      ensures after.granted[k] in next.backpressured <==> after.found[k] == next.depth
    {
      if k < |log.found| {
        assert log.granted[k] in log.granted;
      }
    }
  }

  lemma GrantKeepsMarks(s: System, winner: nat)
    requires Inv(s) && MarksRight(s.log, s.target) && Enabled(s, Grant(winner))
    ensures After(s, Grant(winner)).Some?
    ensures var next := After(s, Grant(winner)).value; MarksRight(next.log, next.target)
  {
    var txn := s.fabric.pending[winner][0];
    NextIsNew(s, winner);
    OpenAreAdmitted(s);
    ReceiveKeepsSlots(s.target, txn);
    hide Inv, Receive, MarksRight, SlotsInv, Admitted, Target.Unanswered, Target.InService;
    GrantMarks(s.log, s.target, Receive(s.target, txn), txn);
  }

  /** No other step marks, or grants. */
  predicate MarksNothing(s: System, next: System) {
    && next.log.granted == s.log.granted && next.log.found == s.log.found
    && next.target.backpressured == s.target.backpressured && next.target.depth == s.target.depth
  }

  lemma BeginRespMarksNothing(s: System)
    requires Inv(s) && Enabled(s, SendBeginResp)
    ensures After(s, SendBeginResp).Some? && MarksNothing(s, After(s, SendBeginResp).value)
  {
    AfterBeginResp(s);
    FinishServiceKeepsSlots(s.target, s.once);
    hide After, Inv, SlotsInv, FinishService, Target.Unanswered, Target.InService;
  }

  lemma OthersMarkNothing(s: System, step: Step)
    requires |s.fabric.pending| == |s.initiators| && Enabled(s, step) && !step.Grant? && !step.SendBeginResp?
    ensures After(s, step).Some? && MarksNothing(s, After(s, step).value)
  {
  }

  lemma StepKeepsMarks(s: System, step: Step)
    requires Inv(s) && MarksRight(s.log, s.target) && Enabled(s, step)
    ensures After(s, step).Some?
    ensures var next := After(s, step).value; MarksRight(next.log, next.target)
  {
    assert |s.fabric.pending| == |s.initiators|;
    hide Inv, After, Enabled;
    if step.Grant? {
      GrantKeepsMarks(s, step.winner);
      hide MarksRight;
    } else if step.SendBeginResp? {
      BeginRespMarksNothing(s);
    } else {
      OthersMarkNothing(s, step);
    }
  }

  lemma {:induction false} RunKeepsMarks(s: System, steps: seq<Step>)
    requires Inv(s) && MarksRight(s.log, s.target) && IsRun(s, steps)
    ensures EndOf(s, steps).Some?
    ensures var end := EndOf(s, steps).value; MarksRight(end.log, end.target)
    decreases |steps|
  {
    if |steps| == 0 {
    } else {
      hide Inv, After, Enabled, MarksRight;
      StepKeeps(s, steps[0]);
      StepKeepsMarks(s, steps[0]);
      RunKeepsMarks(After(s, steps[0]).value, steps[1..]);
    }
  }

  /** In every reachable state the marked transactions are exactly those whose BEGIN_REQ
      met as many requests without a response as the target has slots. */
  lemma MarkedIffFull(s: System)
    requires Reachable(s)
    ensures |s.log.found| == |s.log.granted|
    ensures forall k :: 0 <= k < |s.log.found| ==>
              0 <= s.log.found[k] <= s.target.depth
              && (s.log.granted[k] in s.target.backpressured <==> s.log.found[k] == s.target.depth)
    ensures forall txn :: txn in s.target.backpressured ==> txn in s.log.granted
  {
    hide Inv, IsRun, EndOf, Enabled, After;
    var totals: seq<nat>, depth: nat, once: bool, steps: seq<Step> :| ReachedBy(s, totals, depth, once, steps);
    InitialInv(totals, depth, once);
    RunKeepsMarks(Initial(totals, depth, once), steps);
  }
}
