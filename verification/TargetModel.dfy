/** The memory target of the four-phase projects AT-1, AT-2 and AT-3: finite slots, a
    waiting queue for refused requests, and one thread each for END_REQ and service.
    A thread's two halves, before and after its wait, are separate operations. */
module TargetModel {
  import opened SimTime

  /** A transaction: its initiator and its position in that initiator's list. */
  datatype Txn = Txn(initiator: nat, index: nat)

  /** `accepting` and `serving` are the transactions held across the two waits. */
  datatype Target = Target(
    depth: nat,
    occupied: nat,
    waiting: seq<Txn>,
    endReq: seq<Txn>,
    accepting: Option<Txn>,
    service: seq<Txn>,
    serving: Option<Txn>,
    backpressured: set<Txn>
  ) {
    /** Requests between BEGIN_REQ and END_REQ. */
    function Unanswered(): seq<Txn> { Held(accepting) + endReq + waiting }

    /** Requests between END_REQ and BEGIN_RESP. */
    function InService(): seq<Txn> { Held(serving) + service }
  }

  function Held(txn: Option<Txn>): seq<Txn> {
    if txn.Some? then [txn.value] else []
  }

  function EmptyTarget(depth: nat): Target {
    Target(depth, 0, [], [], None, [], None, {})
  }

  function Accept(target: Target, txn: Txn): Target {
    target.(occupied := target.occupied + 1, endReq := target.endReq + [txn])
  }

  /** BEGIN_REQ at the target. */
  function Receive(target: Target, txn: Txn): Target {
    if target.occupied < target.depth then Accept(target, txn)
    else target.(waiting := target.waiting + [txn], backpressured := target.backpressured + {txn})
  }

  function AdmitOldest(target: Target): Target
    requires |target.waiting| > 0
  {
    var txn := target.waiting[0];
    Accept(target.(waiting := target.waiting[1..], backpressured := target.backpressured + {txn}), txn)
  }

  /** AT-1 and AT-2 admit at most one waiting request. */
  function AcceptOneWaiting(target: Target): Target {
    if |target.waiting| == 0 || target.occupied >= target.depth then target else AdmitOldest(target)
  }

  /** AT-3 admits as many as fit. */
  function AcceptWaiting(target: Target): Target
    decreases |target.waiting|
  {
    if |target.waiting| == 0 || target.occupied >= target.depth then target
    else AcceptWaiting(AdmitOldest(target))
  }

  predicate CanTakeAccepted(target: Target) { target.accepting.None? && |target.endReq| > 0 }

  function TakeAccepted(target: Target): Target
    requires CanTakeAccepted(target)
  {
    target.(accepting := Some(target.endReq[0]), endReq := target.endReq[1..])
  }

  /** END_REQ goes out and the transaction joins the service queue. */
  function FinishAccept(target: Target): Target
    requires target.accepting.Some?
  {
    target.(accepting := None, service := target.service + [target.accepting.value])
  }

  predicate CanTakeService(target: Target) { target.serving.None? && |target.service| > 0 }

  function TakeService(target: Target): Target
    requires CanTakeService(target)
  {
    target.(serving := Some(target.service[0]), service := target.service[1..])
  }

  /** After BEGIN_RESP: None is the underflow report. */
  function FinishService(target: Target, once: bool): Option<Target>
    requires target.serving.Some?
  {
    if target.occupied == 0 then None
    else
      var freed := target.(serving := None, occupied := target.occupied - 1);
      Some(if once then AcceptOneWaiting(freed) else AcceptWaiting(freed))
  }

  // ---- What every operation keeps ----

  /** Slots are exactly the accepted and unanswered transactions, the depth is
      respected, and a request is refused only for want of a slot. */
  predicate SlotsInv(target: Target) {
    && target.depth > 0
    && target.occupied == |target.endReq| + |Held(target.accepting)| + |target.service| + |Held(target.serving)|
    && target.occupied <= target.depth
    && (|target.waiting| > 0 ==> target.occupied == target.depth)
    && (forall k :: 0 <= k < |target.waiting| ==> target.waiting[k] in target.backpressured)
  }

  /** The admitted requests without a response. */
  function Admitted(target: Target): nat {
    |target.endReq| + |Held(target.accepting)| + |target.InService()|
  }

  /** BEGIN_REQ at the target: the request joins the unanswered ones, and it is marked as
      back-pressured exactly when the admitted requests number the depth. */
  lemma ReceiveKeepsSlots(target: Target, txn: Txn)
    requires SlotsInv(target)
    ensures SlotsInv(Receive(target, txn))
    ensures Receive(target, txn).Unanswered() == target.Unanswered() + [txn]
    ensures Receive(target, txn).InService() == target.InService()
    ensures Receive(target, txn).depth == target.depth
    ensures Receive(target, txn).backpressured
            == target.backpressured + if Admitted(target) == target.depth then {txn} else {}
  {
  }

  lemma TakeAcceptedKeepsSlots(target: Target)
    requires SlotsInv(target) && CanTakeAccepted(target)
    ensures SlotsInv(TakeAccepted(target))
    ensures TakeAccepted(target).Unanswered() == target.Unanswered()
  {
  }

  lemma FinishAcceptKeepsSlots(target: Target)
    requires SlotsInv(target) && target.accepting.Some?
    ensures SlotsInv(FinishAccept(target))
    ensures target.Unanswered() == [target.accepting.value] + FinishAccept(target).Unanswered()
    ensures FinishAccept(target).InService() == target.InService() + [target.accepting.value]
  {
  }

  lemma TakeServiceKeepsSlots(target: Target)
    requires SlotsInv(target) && CanTakeService(target)
    ensures SlotsInv(TakeService(target))
    ensures TakeService(target).InService() == target.InService()
  {
  }

  /** The underflow report is unreachable, and AT-3's accept loop admits exactly what
      the single shot of AT-1 and AT-2 admits, however many requests wait. */
  lemma FinishServiceKeepsSlots(target: Target, once: bool)
    requires SlotsInv(target) && target.serving.Some?
    ensures FinishService(target, once).Some?
    ensures FinishService(target, true) == FinishService(target, false)
    ensures var next := FinishService(target, once).value;
            SlotsInv(next)
            && next.Unanswered() == target.Unanswered()
            && target.InService() == [target.serving.value] + next.InService()
            && next.occupied == (if |target.waiting| > 0 then target.depth else target.occupied - 1)
            && next.backpressured == target.backpressured && next.depth == target.depth
  {
    var freed := target.(serving := None, occupied := target.occupied - 1);
    if |target.waiting| > 0 {
      var admitted := AdmitOldest(freed);
      assert AcceptWaiting(freed) == AcceptWaiting(admitted) == admitted;
      assert target.waiting == [target.waiting[0]] + target.waiting[1..];
      assert target.waiting[0] in target.backpressured;
      assert admitted.backpressured == target.backpressured;
    }
  }
}
