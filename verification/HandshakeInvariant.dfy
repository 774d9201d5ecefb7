/** What every step of the handshake keeps, whatever the interleaving. */
module HandshakeInvariant {
  import opened SimTime
  import opened TargetModel
  import opened HandshakeModel

  /** One outstanding request on the hop from the interconnect to the target. */
  predicate HopInv(s: System) {
    && SlotsInv(s.target)
    && |s.target.Unanswered()| == if s.fabric.downstreamPending then 1 else 0
  }

  /** The target is first in, first out from grant to BEGIN_RESP. */
  predicate ChainInv(s: System) {
    && s.log.granted == s.log.accepted + s.target.Unanswered()
    && s.log.accepted == s.log.responded + s.target.InService()
    && forall k :: 0 <= k < |s.log.granted| ==> s.log.granted[k].initiator < |s.initiators|
  }

  /** An initiator's grants followed by its pending requests are what it issued. */
  predicate OwnIssue(p: Initiator, i: nat, granted: seq<Txn>, pending: seq<Txn>) {
    && p.issued <= p.total
    && (p.issuedAll ==> p.issued == p.total)
    && Mine(granted, i) + pending == Upto(i, p.issued)
  }

  predicate IssueInv(s: System) {
    && |s.fabric.pending| == |s.initiators|
    && forall i :: 0 <= i < |s.initiators| ==>
         OwnIssue(s.initiators[i], i, s.log.granted, s.fabric.pending[i])
  }

  /** An initiator ends its responses in the order they came, and is done once all
      its transactions are. */
  predicate OwnResponse(p: Initiator, i: nat, responded: seq<Txn>, finished: seq<Txn>) {
    && Mine(responded, i) == Mine(finished, i) + Held(p.inHand) + p.responses
    && p.completed == |Mine(finished, i)|
    && (p.done <==> p.issuedAll && p.completed == p.total)
  }

  predicate ResponseInv(s: System) {
    forall i :: 0 <= i < |s.initiators| ==>
      OwnResponse(s.initiators[i], i, s.log.responded, s.log.finished)
  }

  /** winner_order numbers the grants from 1 without gaps or repeats. */
  predicate OrderInv(s: System) {
    && s.fabric.winners == |s.log.granted|
    && (forall k :: 0 <= k < |s.log.granted| ==>
          s.log.granted[k] in s.fabric.winnerOrder && s.fabric.winnerOrder[s.log.granted[k]] == k + 1)
    && (forall t :: t in s.fabric.winnerOrder ==> t in s.log.granted)
  }

  predicate Inv(s: System) {
    HopInv(s) && ChainInv(s) && IssueInv(s) && ResponseInv(s) && OrderInv(s)
  }

  lemma InitialInv(totals: seq<nat>, depth: nat, once: bool)
    requires depth > 0
    ensures Inv(Initial(totals, depth, once))
  {
  }

  lemma MineSnocAll(txns: seq<Txn>, txn: Txn)
    ensures forall i: nat :: Mine(txns + [txn], i) == Mine(txns, i) + if txn.initiator == i then [txn] else []
  {
    forall i: nat
      ensures Mine(txns + [txn], i) == Mine(txns, i) + if txn.initiator == i then [txn] else []
    {
      MineSnoc(txns, txn, i);
    }
  }

  lemma IssueKeeps(s: System, i: nat)
    requires Inv(s) && Enabled(s, Issue(i))
    ensures After(s, Issue(i)).Some? && Inv(After(s, Issue(i)).value)
  {
    hide Mine, SlotsInv;
    var next := After(s, Issue(i)).value;
    var p := s.initiators[i];
    assert Upto(i, p.issued + 1) == Upto(i, p.issued) + [Txn(i, p.issued)];
    assert next.fabric.pending[i] == s.fabric.pending[i] + [Txn(i, p.issued)];
    assert Mine(s.log.granted, i) + next.fabric.pending[i]
        == Mine(s.log.granted, i) + s.fabric.pending[i] + [Txn(i, p.issued)];
    assert IssueInv(next);
  }

  lemma FinishIssuingKeeps(s: System, i: nat)
    requires Inv(s) && Enabled(s, FinishIssuing(i))
    ensures After(s, FinishIssuing(i)).Some? && Inv(After(s, FinishIssuing(i)).value)
  {
    hide Mine, SlotsInv;
  }

  /** The oldest pending request of an initiator is its next transaction, never
      granted before. */
  lemma NextIsNew(s: System, winner: nat)
    requires IssueInv(s) && CanGrant(s.fabric, winner)
    ensures var txn := s.fabric.pending[winner][0];
            txn.initiator == winner && txn !in s.log.granted
            && txn.index == |Mine(s.log.granted, winner)|
  {
    var txn := s.fabric.pending[winner][0];
    var mine := Mine(s.log.granted, winner);
    MineHolds(s.log.granted, winner);
    assert (mine + s.fabric.pending[winner])[|mine|] == txn;
    assert forall k :: 0 <= k < |mine| ==> mine[k] == (mine + s.fabric.pending[winner])[k];
  }

  lemma GrantKeepsIssue(s: System, winner: nat)
    requires IssueInv(s) && CanGrant(s.fabric, winner)
    ensures IssueInv(After(s, Grant(winner)).value)
  {
    var txn := s.fabric.pending[winner][0];
    NextIsNew(s, winner);
    MineSnocAll(s.log.granted, txn);
    hide Mine, Receive;
    assert s.fabric.pending[winner] == [txn] + s.fabric.pending[winner][1..];
    var next := After(s, Grant(winner)).value;
    forall i | 0 <= i < |s.initiators|
      ensures OwnIssue(s.initiators[i], i, next.log.granted, next.fabric.pending[i])
    {
      assert OwnIssue(s.initiators[i], i, s.log.granted, s.fabric.pending[i]);
      if i == winner {
        assert Mine(s.log.granted, i) + s.fabric.pending[i]
            == Mine(next.log.granted, i) + next.fabric.pending[i];
      }
    }
  }

  lemma GrantKeepsOrder(s: System, winner: nat)
    requires OrderInv(s) && IssueInv(s) && CanGrant(s.fabric, winner)
    ensures OrderInv(After(s, Grant(winner)).value)
  {
    NextIsNew(s, winner);
    hide IssueInv, Receive;
  }

  lemma GrantKeepsChain(s: System, winner: nat)
    requires HopInv(s) && ChainInv(s) && IssueInv(s) && CanGrant(s.fabric, winner)
    ensures var next := After(s, Grant(winner)).value; HopInv(next) && ChainInv(next)
  {
    var txn := s.fabric.pending[winner][0];
    NextIsNew(s, winner);
    ReceiveKeepsSlots(s.target, txn);
    hide IssueInv, Receive, SlotsInv;
    var next := After(s, Grant(winner)).value;
    assert next.log.granted == s.log.accepted + (s.target.Unanswered() + [txn]);
  }

  lemma GrantKeeps(s: System, winner: nat)
    requires Inv(s) && Enabled(s, Grant(winner))
    ensures After(s, Grant(winner)).Some? && Inv(After(s, Grant(winner)).value)
  {
    GrantKeepsIssue(s, winner);
    GrantKeepsOrder(s, winner);
    GrantKeepsChain(s, winner);
    hide OwnResponse, Receive, IssueInv, HopInv, ChainInv, OrderInv;
  }

  lemma TargetStepKeeps(s: System, step: Step)
    requires Inv(s) && Enabled(s, step) && (step.TakeRequest? || step.TakeForService?)
    ensures After(s, step).Some? && Inv(After(s, step).value)
  {
    hide Mine, SlotsInv;
    if step.TakeRequest? {
      TakeAcceptedKeepsSlots(s.target);
    } else {
      TakeServiceKeepsSlots(s.target);
    }
  }

  lemma EndReqKeeps(s: System)
    requires Inv(s) && Enabled(s, SendEndReq)
    ensures After(s, SendEndReq).Some? && Inv(After(s, SendEndReq).value)
  {
    hide Mine, SlotsInv, FinishAccept;
    FinishAcceptKeepsSlots(s.target);
    var next := After(s, SendEndReq).value;
    assert HopInv(next);
    assert ChainInv(next);
  }

  lemma RespondKeepsOwn(p: Initiator, i: nat, responded: seq<Txn>, finished: seq<Txn>, txn: Txn)
    requires OwnResponse(p, i, responded, finished)
    ensures OwnResponse(if txn.initiator == i then p.(responses := p.responses + [txn]) else p,
                        i, responded + [txn], finished)
  {
    MineSnoc(responded, txn, i);
  }

  lemma BeginRespKeepsResponses(s: System)
    requires ResponseInv(s) && s.target.serving.Some?
    requires |s.fabric.pending| == |s.initiators| && After(s, SendBeginResp).Some?
    ensures ResponseInv(After(s, SendBeginResp).value)
  {
    hide OwnResponse, FinishService;
    var txn := s.target.serving.value;
    forall i | 0 <= i < |s.initiators|
      ensures OwnResponse(After(s, SendBeginResp).value.initiators[i], i, s.log.responded + [txn], s.log.finished)
    {
      RespondKeepsOwn(s.initiators[i], i, s.log.responded, s.log.finished, txn);
    }
  }

  /** The transaction being served is the oldest grant without a response. */
  lemma ServedIsOldest(s: System)
    requires ChainInv(s) && s.target.serving.Some?
    ensures |s.log.responded| < |s.log.granted|
    ensures s.log.granted[|s.log.responded|] == s.target.serving.value
    ensures s.target.serving.value.initiator < |s.initiators|
  {
    assert s.log.accepted[|s.log.responded|] == s.target.serving.value;
  }

  /** What a BEGIN_RESP step leaves behind, in terms of the target alone. */
  lemma AfterBeginResp(s: System)
    requires HopInv(s) && ChainInv(s) && IssueInv(s) && s.target.serving.Some?
    ensures var next := After(s, SendBeginResp);
            next.Some? && FinishService(s.target, s.once).Some?
            && next.value.target == FinishService(s.target, s.once).value
            && next.value.fabric == s.fabric && |next.value.initiators| == |s.initiators|
            && next.value.log == s.log.(responded := s.log.responded + [s.target.serving.value])
  {
    FinishServiceKeepsSlots(s.target, s.once);
    ServedIsOldest(s);
    hide SlotsInv, FinishService, Held;
  }

  lemma BeginRespKeepsChain(s: System)
    requires HopInv(s) && ChainInv(s) && IssueInv(s) && s.target.serving.Some?
    ensures var next := After(s, SendBeginResp);
            next.Some? && HopInv(next.value) && ChainInv(next.value)
  {
    FinishServiceKeepsSlots(s.target, s.once);
    AfterBeginResp(s);
    hide After, IssueInv, SlotsInv, FinishService, Held, Target.Unanswered, Target.InService;
    var next := After(s, SendBeginResp).value;
    assert s.log.accepted == next.log.responded + next.target.InService();
  }

  lemma BeginRespKeepsIssue(s: System)
    requires IssueInv(s) && s.target.serving.Some? && After(s, SendBeginResp).Some?
    ensures IssueInv(After(s, SendBeginResp).value)
  {
    hide FinishService, Mine;
  }

  lemma BeginRespKeeps(s: System)
    requires Inv(s) && Enabled(s, SendBeginResp)
    ensures After(s, SendBeginResp).Some? && Inv(After(s, SendBeginResp).value)
  {
    BeginRespKeepsChain(s);
    BeginRespKeepsIssue(s);
    BeginRespKeepsResponses(s);
    hide FinishService, IssueInv, HopInv, ChainInv, ResponseInv;
  }

  lemma TakeResponseKeepsOwn(p: Initiator, i: nat, responded: seq<Txn>, finished: seq<Txn>)
    requires OwnResponse(p, i, responded, finished) && p.inHand.None? && |p.responses| > 0
    ensures OwnResponse(TakeFirstResponse(p), i, responded, finished)
  {
  }

  lemma CompleteKeepsOwn(p: Initiator, i: nat, responded: seq<Txn>, finished: seq<Txn>)
    requires OwnResponse(p, i, responded, finished) && p.inHand.Some?
    requires p.completed + |Held(p.inHand)| <= p.total
    ensures OwnResponse(Complete(p), i, responded, finished + [p.inHand.value])
    ensures p.inHand.value.initiator == i
  {
    MineHolds(responded, i);
    assert p.inHand.value in Mine(responded, i);
    MineSnoc(finished, p.inHand.value, i);
  }

  lemma OtherKeepsOwn(p: Initiator, i: nat, responded: seq<Txn>, finished: seq<Txn>, txn: Txn)
    requires OwnResponse(p, i, responded, finished) && txn.initiator != i
    ensures OwnResponse(p, i, responded, finished + [txn])
  {
    MineSnoc(finished, txn, i);
  }

  lemma TakeResponseKeeps(s: System, i: nat)
    requires Inv(s) && i < |s.initiators| && Enabled(s, TakeResponse(i))
    ensures After(s, TakeResponse(i)).Some? && Inv(After(s, TakeResponse(i)).value)
  {
    var p, next := s.initiators[i], After(s, TakeResponse(i)).value;
    assert OwnResponse(p, i, s.log.responded, s.log.finished);
    TakeResponseKeepsOwn(p, i, s.log.responded, s.log.finished);
    SameIssues(s, next);
    hide OwnResponse, OwnIssue, IssueInv, SlotsInv, TakeFirstResponse, OrderInv;
  }

  lemma SendEndRespKeeps(s: System, i: nat)
    requires Inv(s) && i < |s.initiators| && Enabled(s, SendEndResp(i))
    ensures After(s, SendEndResp(i)).Some? && Inv(After(s, SendEndResp(i)).value)
  {
    var p, next := s.initiators[i], After(s, SendEndResp(i)).value;
    ResponseCountBound(s, i);
    assert OwnResponse(p, i, s.log.responded, s.log.finished);
    CompleteKeepsOwn(p, i, s.log.responded, s.log.finished);
    SameIssues(s, next);
    hide OwnResponse, OwnIssue, IssueInv, SlotsInv, Complete, OrderInv;
    forall k | 0 <= k < |s.initiators|
      ensures OwnResponse(next.initiators[k], k, next.log.responded, next.log.finished)
    {
      if k != i {
        OtherKeepsOwn(s.initiators[k], k, s.log.responded, s.log.finished, p.inHand.value);
      }
    }
  }

  /** A step that issues, grants and queues nothing keeps the issue part. */
  lemma SameIssues(s: System, next: System)
    requires IssueInv(s) && next.fabric == s.fabric && next.log.granted == s.log.granted
    requires |next.initiators| == |s.initiators|
    requires forall i :: 0 <= i < |s.initiators| ==>
               var p, q := s.initiators[i], next.initiators[i];
               q.issued == p.issued && q.total == p.total && q.issuedAll == p.issuedAll
    ensures IssueInv(next)
  {
    hide Mine;
    forall i | 0 <= i < |s.initiators|
      ensures OwnIssue(next.initiators[i], i, next.log.granted, next.fabric.pending[i])
    {
      assert OwnIssue(s.initiators[i], i, s.log.granted, s.fabric.pending[i]);
    }
  }

  /** An initiator with a response still to end has not counted all its transactions. */
  lemma ResponseCountBound(s: System, i: nat)
    requires ChainInv(s) && IssueInv(s) && ResponseInv(s) && i < |s.initiators|
    ensures var p := s.initiators[i];
            p.completed + |Held(p.inHand)| + |p.responses| <= p.issued <= p.total
  {
    var p := s.initiators[i];
    assert OwnIssue(p, i, s.log.granted, s.fabric.pending[i]);
    assert OwnResponse(p, i, s.log.responded, s.log.finished);
    MineAppend(s.log.accepted, s.target.Unanswered(), i);
    MineAppend(s.log.responded, s.target.InService(), i);
  }

  lemma EnabledInRange(s: System, step: Step)
    requires Inv(s) && Enabled(s, step)
    ensures step.TakeResponse? || step.SendEndResp? ==> step.i < |s.initiators|
  {
    hide HopInv, ChainInv, ResponseInv, OrderInv;
  }

  /** Every step of every interleaving keeps the invariant, and none reaches a fatal
      report. */
  lemma StepKeeps(s: System, step: Step)
    requires Inv(s) && Enabled(s, step)
    ensures After(s, step).Some? && Inv(After(s, step).value)
  {
    hide Inv, After, Enabled;
    match step
    case Issue(i) => IssueKeeps(s, i);
    case FinishIssuing(i) => FinishIssuingKeeps(s, i);
    case Grant(winner) => GrantKeeps(s, winner);
    case TakeRequest => TargetStepKeeps(s, step);
    case SendEndReq => EndReqKeeps(s);
    case TakeForService => TargetStepKeeps(s, step);
    case SendBeginResp => BeginRespKeeps(s);
    case TakeResponse(i) => EnabledInRange(s, step); TakeResponseKeeps(s, i);
    case SendEndResp(i) => EnabledInRange(s, step); SendEndRespKeeps(s, i);
  }
}
