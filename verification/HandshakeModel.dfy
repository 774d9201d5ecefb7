/** The four-phase handshake of projects AT-2 and AT-3 as a step system: any number of
    initiators, an interconnect with one outstanding downstream request, and a memory
    target.  A step is what one thread does between two waits; a thread whose queue is
    not empty may take its step in any order relative to the others, so a statement
    about every run covers every interleaving and every choice of delays. */
module HandshakeModel {
  import opened SimTime
  import opened TargetModel
  import opened Arbitration

  datatype Initiator = Initiator(
    total: nat,
    issued: nat,
    issuedAll: bool,
    responses: seq<Txn>,
    inHand: Option<Txn>,
    completed: nat,
    done: bool
  )

  datatype Interconnect = Interconnect(
    pending: seq<seq<Txn>>,
    downstreamPending: bool,
    winners: nat,
    winnerOrder: map<Txn, nat>
  )

  /** The phases in the order they were sent: BEGIN_REQ downstream, END_REQ,
      BEGIN_RESP and END_RESP.  `found` counts, for each BEGIN_REQ downstream, the
      requests sent before it that had no response yet. */
  datatype Log = Log(
    granted: seq<Txn>,
    accepted: seq<Txn>,
    responded: seq<Txn>,
    finished: seq<Txn>,
    found: seq<int>
  ) {
    function Granted(txn: Txn): Log {
      this.(granted := granted + [txn], found := found + [|granted| - |responded|])
    }
  }

  datatype System = System(
    initiators: seq<Initiator>,
    fabric: Interconnect,
    target: Target,
    once: bool,
    log: Log
  )

  function Initial(totals: seq<nat>, depth: nat, once: bool): System {
    System(seq(|totals|, i requires 0 <= i < |totals| => Initiator(totals[i], 0, false, [], None, 0, false)),
           Interconnect(seq(|totals|, _ => []), false, 0, map[]),
           EmptyTarget(depth), once, Log([], [], [], [], []))
  }

  datatype Step =
    | Issue(i: nat)
    | FinishIssuing(i: nat)
    | Grant(winner: nat)
    | TakeRequest
    | SendEndReq
    | TakeForService
    | SendBeginResp
    | TakeResponse(i: nat)
    | SendEndResp(i: nat)

  // ---- The initiator's threads ----

  function MarkDone(p: Initiator): Initiator {
    if !p.done && p.issuedAll && p.completed == p.total then p.(done := true) else p
  }

  function TakeFirstResponse(p: Initiator): Initiator
    requires |p.responses| > 0
  {
    p.(inHand := Some(p.responses[0]), responses := p.responses[1..])
  }

  function Complete(p: Initiator): Initiator {
    MarkDone(p.(inHand := None, completed := p.completed + 1))
  }

  // ---- The interconnect ----

  function Enqueue(fabric: Interconnect, i: nat, txn: Txn): Interconnect
    requires i < |fabric.pending|
  {
    fabric.(pending := fabric.pending[i := fabric.pending[i] + [txn]])
  }

  predicate CanGrant(fabric: Interconnect, winner: nat) {
    !fabric.downstreamPending && winner < |fabric.pending| && |fabric.pending[winner]| > 0
  }

  function GrantTo(fabric: Interconnect, winner: nat): Interconnect
    requires CanGrant(fabric, winner)
  {
    Interconnect(fabric.pending[winner := fabric.pending[winner][1..]], true, fabric.winners + 1,
                 fabric.winnerOrder[fabric.pending[winner][0] := fabric.winners + 1])
  }

  /** Which pending queues hold a request. */
  function Waiting(pending: seq<seq<Txn>>): (ready: Ready)
    requires |pending| == INITIATORS
    ensures forall i :: 0 <= i < INITIATORS ==> (ready[i] <==> |pending[i]| > 0)
  {
    [|pending[0]| > 0, |pending[1]| > 0, |pending[2]| > 0]
  }

  // ---- Steps of the whole system ----

  /** Whether the thread taking the step is runnable. */
  predicate Enabled(s: System, step: Step)
    requires |s.fabric.pending| == |s.initiators|
  {
    match step
    case Issue(i) => i < |s.initiators| && s.initiators[i].issued < s.initiators[i].total
    case FinishIssuing(i) =>
      i < |s.initiators| && s.initiators[i].issued == s.initiators[i].total && !s.initiators[i].issuedAll
    case Grant(winner) => CanGrant(s.fabric, winner)
    case TakeRequest => CanTakeAccepted(s.target)
    case SendEndReq => s.target.accepting.Some?
    case TakeForService => CanTakeService(s.target)
    case SendBeginResp => s.target.serving.Some?
    case TakeResponse(i) => i < |s.initiators| && s.initiators[i].inHand.None? && |s.initiators[i].responses| > 0
    case SendEndResp(i) => i < |s.initiators| && s.initiators[i].inHand.Some?
  }

  /** The state after a step; None when the code stops with a fatal report. */
  function After(s: System, step: Step): (next: Option<System>)
    requires |s.fabric.pending| == |s.initiators| && Enabled(s, step)
    ensures next.Some? ==> |next.value.fabric.pending| == |next.value.initiators| == |s.initiators|
  {
    match step
    case Issue(i) =>
      var p := s.initiators[i];
      Some(s.(initiators := s.initiators[i := p.(issued := p.issued + 1)],
              fabric := Enqueue(s.fabric, i, Txn(i, p.issued))))
    case FinishIssuing(i) =>
      Some(s.(initiators := s.initiators[i := MarkDone(s.initiators[i].(issuedAll := true))]))
    case Grant(winner) =>
      var txn := s.fabric.pending[winner][0];
      Some(s.(fabric := GrantTo(s.fabric, winner), target := Receive(s.target, txn),
              log := s.log.Granted(txn)))
    case TakeRequest => Some(s.(target := TakeAccepted(s.target)))
    case SendEndReq =>
      Some(s.(fabric := s.fabric.(downstreamPending := false), target := FinishAccept(s.target),
              log := s.log.(accepted := s.log.accepted + [s.target.accepting.value])))
    case TakeForService => Some(s.(target := TakeService(s.target)))
    case SendBeginResp =>
      var txn := s.target.serving.value;
      var freed := FinishService(s.target, s.once);
      if txn.initiator >= |s.initiators| || freed.None? then None
      else
        var p := s.initiators[txn.initiator];
        Some(s.(initiators := s.initiators[txn.initiator := p.(responses := p.responses + [txn])],
                target := freed.value, log := s.log.(responded := s.log.responded + [txn])))
    case TakeResponse(i) =>
      Some(s.(initiators := s.initiators[i := TakeFirstResponse(s.initiators[i])]))
    case SendEndResp(i) =>
      var p := s.initiators[i];
      Some(s.(initiators := s.initiators[i := Complete(p)],
              log := s.log.(finished := s.log.finished + [p.inHand.value])))
  }

  // ---- One initiator's part of a sequence ----

  function Mine(txns: seq<Txn>, i: nat): seq<Txn> {
    if |txns| == 0 then []
    else Mine(txns[..|txns| - 1], i) + (if txns[|txns| - 1].initiator == i then [txns[|txns| - 1]] else [])
  }

  lemma MineSnoc(txns: seq<Txn>, txn: Txn, i: nat)
    ensures Mine(txns + [txn], i) == Mine(txns, i) + if txn.initiator == i then [txn] else []
  {
    assert (txns + [txn])[..|txns|] == txns;
  }

  lemma {:induction false} MineAppend(a: seq<Txn>, b: seq<Txn>, i: nat)
    ensures Mine(a + b, i) == Mine(a, i) + Mine(b, i)
  {
    if |b| == 0 {
      assert a + b == a;
    } else {
      var front := b[..|b| - 1];
      assert a + b == (a + front) + [b[|b| - 1]];
      MineSnoc(a + front, b[|b| - 1], i);
      MineAppend(a, front, i);
    }
  }

  lemma {:induction false} MineHolds(txns: seq<Txn>, i: nat)
    ensures |Mine(txns, i)| <= |txns|
    ensures forall t :: t in Mine(txns, i) <==> t in txns && t.initiator == i
    decreases |txns|
  {
    if |txns| == 0 {
    } else {
      MineHolds(txns[..|txns| - 1], i);
      assert txns == txns[..|txns| - 1] + [txns[|txns| - 1]];
    }
  }

  /** The first n transactions of an initiator, in issue order. */
  function Upto(i: nat, n: nat): (txns: seq<Txn>)
    ensures |txns| == n && forall k :: 0 <= k < n ==> txns[k] == Txn(i, k)
  {
    seq(n, k requires 0 <= k < n => Txn(i, k))
  }
}
