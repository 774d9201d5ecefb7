/** The modules of the four-phase projects with the state they change in place.  Every
    method is proved against the value model of the same operation. */
module HandshakeRun {
  import opened SimTime
  import opened Arbitration
  import opened TargetModel
  import opened HandshakeModel

  class MemoryTarget {
    const depth: nat
    var occupied: nat
    var waiting: seq<Txn>
    var endReq: seq<Txn>
    var accepting: Option<Txn>
    var service: seq<Txn>
    var serving: Option<Txn>
    var backpressured: set<Txn>

    function State(): Target
      reads this
    {
      Target(depth, occupied, waiting, endReq, accepting, service, serving, backpressured)
    }

    constructor (depth: nat)
      ensures State() == EmptyTarget(depth)
    {
      this.depth := depth;
      occupied, waiting, endReq, accepting := 0, [], [], None;
      service, serving, backpressured := [], None, {};
    }

    method AcceptRequest(txn: Txn)
      modifies this
      ensures State() == Accept(old(State()), txn)
    {
      occupied := occupied + 1;
      endReq := endReq + [txn];
    }

    method BeginReq(txn: Txn)
      modifies this
      ensures State() == Receive(old(State()), txn)
    {
      if occupied < depth {
        AcceptRequest(txn);
      } else {
        backpressured := backpressured + {txn};
        waiting := waiting + [txn];
      }
    }

    method TryAcceptWaitingRequests()
      modifies this
      ensures State() == AcceptWaiting(old(State()))
    {
      while |waiting| > 0 && occupied < depth
        invariant AcceptWaiting(State()) == AcceptWaiting(old(State()))
        decreases |waiting|
      {
        ghost var before := State();
        var txn := waiting[0];
        waiting := waiting[1..];
        backpressured := backpressured + {txn};
        AcceptRequest(txn);
        assert State() == AdmitOldest(before);
      }
    }

    method TryAcceptWaitingRequest()
      modifies this
      ensures State() == AcceptOneWaiting(old(State()))
    {
      if |waiting| == 0 || occupied >= depth {
        return;
      }
      var txn := waiting[0];
      waiting := waiting[1..];
      backpressured := backpressured + {txn};
      AcceptRequest(txn);
    }

    method TakeForAccept()
      requires CanTakeAccepted(State())
      modifies this
      ensures State() == TakeAccepted(old(State()))
    {
      accepting, endReq := Some(endReq[0]), endReq[1..];
    }

    method SendEndReq(fabric: Fabric) returns (txn: Txn)
      requires accepting.Some?
      modifies this, fabric`downstreamPending
      ensures Some(txn) == old(accepting) && State() == FinishAccept(old(State()))
      ensures !fabric.downstreamPending
    {
      txn := accepting.value;
      accepting := None;
      fabric.EndReq();
      service := service + [txn];
    }

    method TakeForService()
      requires CanTakeService(State())
      modifies this
      ensures State() == TakeService(old(State()))
    {
      serving, service := Some(service[0]), service[1..];
    }

    /** `ok` is false at the underflow report. */
    method SendBeginResp(initiator: InitiatorThread, once: bool) returns (ok: bool)
      requires serving.Some?
      modifies this, initiator`responses
      ensures initiator.responses == old(initiator.responses) + [old(serving).value]
      ensures ok <==> FinishService(old(State()), once).Some?
      ensures ok ==> Some(State()) == FinishService(old(State()), once)
    {
      initiator.BeginResp(serving.value);
      serving := None;
      if occupied == 0 {
        return false;
      }
      occupied := occupied - 1;
      if once {
        TryAcceptWaitingRequest();
      } else {
        TryAcceptWaitingRequests();
      }
      return true;
    }
  }

  class InitiatorThread {
    const total: nat
    var issued: nat
    var issuedAll: bool
    var responses: seq<Txn>
    var inHand: Option<Txn>
    var completed: nat
    var done: bool

    function State(): Initiator
      reads this
    {
      Initiator(total, issued, issuedAll, responses, inHand, completed, done)
    }

    constructor (total: nat)
      ensures State() == Initiator(total, 0, false, [], None, 0, false)
    {
      this.total := total;
      issued, issuedAll, responses, inHand, completed, done := 0, false, [], None, 0, false;
    }

    method MaybeMarkDone()
      modifies this`done
      ensures State() == MarkDone(old(State()))
    {
      if !done && issuedAll && completed == total {
        done := true;
      }
    }

    method IssueNext(i: nat, fabric: Fabric)
      requires issued < total && i < |fabric.pending|
      modifies this`issued, fabric`pending
      ensures State() == old(State()).(issued := old(issued) + 1)
      ensures fabric.State() == Enqueue(old(fabric.State()), i, Txn(i, old(issued)))
    {
      fabric.BeginReq(i, Txn(i, issued));
      issued := issued + 1;
    }

    method FinishIssuing()
      requires issued == total
      modifies this
      ensures State() == MarkDone(old(State()).(issuedAll := true))
    {
      issuedAll := true;
      MaybeMarkDone();
    }

    method BeginResp(txn: Txn)
      modifies this`responses
      ensures State() == old(State()).(responses := old(responses) + [txn])
    {
      responses := responses + [txn];
    }

    method TakeResponse()
      requires |responses| > 0
      modifies this
      ensures State() == TakeFirstResponse(old(State()))
    {
      inHand, responses := Some(responses[0]), responses[1..];
    }

    method SendEndResp() returns (txn: Txn)
      requires inHand.Some?
      modifies this
      ensures Some(txn) == old(inHand) && State() == Complete(old(State()))
    {
      txn := inHand.value;
      inHand := None;
      completed := completed + 1;
      MaybeMarkDone();
    }
  }

  /** What the two interconnects share: pending queues and the downstream flag. */
  class Fabric {
    var pending: seq<seq<Txn>>
    var downstreamPending: bool
    var winners: nat
    var winnerOrder: map<Txn, nat>

    function State(): Interconnect
      reads this
    {
      Interconnect(pending, downstreamPending, winners, winnerOrder)
    }

    constructor ()
      ensures State() == Interconnect([[], [], []], false, 0, map[])
    {
      pending, downstreamPending, winners, winnerOrder := [[], [], []], false, 0, map[];
    }

    method BeginReq(i: nat, txn: Txn)
      requires i < |pending|
      modifies this`pending
      ensures State() == Enqueue(old(State()), i, txn)
    {
      pending := pending[i := pending[i] + [txn]];
    }

    method EndReq()
      modifies this`downstreamPending
      ensures State() == old(State()).(downstreamPending := false)
    {
      downstreamPending := false;
    }

    method HasPending() returns (some: bool)
      requires |pending| == INITIATORS
      ensures some <==> SomeoneReady(Waiting(pending))
    {
      some := false;
      for i := 0 to INITIATORS
        invariant some <==> exists k :: 0 <= k < i && Waiting(pending)[k]
      {
        assert Waiting(pending)[i] <==> |pending[i]| > 0;
        some := some || |pending[i]| > 0;
      }
    }

    /** One pass of the arbitration loop, for the initiator chosen. */
    method Grant(winner: nat, target: MemoryTarget) returns (totalPending: nat)
      requires winner < |pending| && |pending[winner]| > 0 && !downstreamPending
      modifies this, target
      ensures State() == GrantTo(old(State()), winner)
      ensures target.State() == Receive(old(target.State()), old(pending[winner][0]))
      ensures totalPending == PendingTotal(old(pending))
    {
      totalPending := TotalPending();
      var txn := pending[winner][0];
      pending := pending[winner := pending[winner][1..]];
      winners := winners + 1;
      winnerOrder := winnerOrder[txn := winners];
      downstreamPending := true;
      target.BeginReq(txn);
    }

    method TotalPending() returns (total: nat)
      ensures total == PendingTotal(pending)
    {
      total := 0;
      for i := 0 to |pending|
        invariant total == PendingTotal(pending[..i])
      {
        assert pending[..i + 1][..i] == pending[..i];
        total := total + |pending[i]|;
      }
      assert pending[..|pending|] == pending;
    }
  }

  function PendingTotal(pending: seq<seq<Txn>>): nat {
    if |pending| == 0 then 0 else PendingTotal(pending[..|pending| - 1]) + |pending[|pending| - 1]|
  }

  /** AT-3's arbiter. */
  class WeightedInterconnect {
    const fabric: Fabric
    var order: seq<nat>
    var cursor: nat

    ghost predicate Valid()
      reads this, fabric
    {
      ValidOrder(order) && cursor < |order| && |fabric.pending| == INITIATORS
    }

    constructor (weights: seq<nat>)
      requires |weights| == INITIATORS && weights[0] + weights[1] + weights[2] > 0
      ensures Valid() && fresh(fabric)
      ensures order == WeightedOrder(weights) && cursor == 0
      ensures fabric.State() == Interconnect([[], [], []], false, 0, map[])
    {
      fabric := new Fabric();
      cursor := 0;
      order := [];
      new;
      order := BuildWeightedOrder(weights);
      WeightsAreSlots(weights, 0);
    }

    static method BuildWeightedOrder(weights: seq<nat>) returns (built: seq<nat>)
      requires |weights| == INITIATORS
      ensures built == WeightedOrder(weights)
    {
      built := [];
      for index := 0 to INITIATORS
        invariant built == SlotsUpto(weights, index)
      {
        for count := 0 to weights[index]
          invariant built == SlotsUpto(weights, index) + Repeat(index, count)
        {
          built := built + [index];
          assert Repeat(index, count + 1) == Repeat(index, count) + [index];
        }
      }
      assert SlotsUpto(weights, 1) == Repeat(0, weights[0]);
      assert SlotsUpto(weights, 2) == Repeat(0, weights[0]) + Repeat(1, weights[1]);
    }

    /** None is the fatal report. */
    method ChooseNextInitiator() returns (winner: Option<nat>)
      requires Valid()
      modifies this`cursor
      ensures Valid() && (winner, cursor) == ChooseWeighted(order, old(cursor), Waiting(fabric.pending))
    {
      ghost var ready := Waiting(fabric.pending);
      for count := 0 to |order|
        invariant cursor < |order|
        invariant Scan(order, cursor, ready, count) == Scan(order, old(cursor), ready, 0)
      {
        var index := order[cursor];
        cursor := (cursor + 1) % |order|;
        if |fabric.pending[index]| > 0 {
          return Some(index);
        }
      }
      for index := 0 to INITIATORS
        invariant forall k :: 0 <= k < index ==> !ready[k]
        invariant Scan(order, old(cursor), ready, 0) == (None, cursor)
        invariant cursor < |order|
      {
        if |fabric.pending[index]| > 0 {
          return Some(index);
        }
      }
      return None;
    }

    /** The arbitration loop: a grant takes place exactly when nothing is outstanding
        downstream and something is pending, and then exactly one. */
    method ArbitrateRequests(target: MemoryTarget) returns (ok: bool)
      requires Valid()
      modifies this`cursor, fabric, target
      ensures Valid() && ok
      ensures var before := old(fabric.State());
              var choice := ChooseWeighted(order, old(cursor), Waiting(before.pending));
              if before.downstreamPending || !SomeoneReady(Waiting(before.pending))
              then fabric.State() == before && target.State() == old(target.State()) && cursor == old(cursor)
              else choice.0.Some? && CanGrant(before, choice.0.value) && cursor == choice.1
                   && fabric.State() == GrantTo(before, choice.0.value)
                   && target.State() == Receive(old(target.State()), before.pending[choice.0.value][0])
    {
      ghost var before := fabric.State();
      ChooseWeightedGrants(order, cursor, Waiting(before.pending));
      var some := fabric.HasPending();
      while !fabric.downstreamPending && some
        invariant Valid()
        invariant some <==> SomeoneReady(Waiting(fabric.pending))
        invariant !fabric.downstreamPending ==>
                    fabric.State() == before && target.State() == old(target.State()) && cursor == old(cursor)
        invariant fabric.downstreamPending && before.downstreamPending ==>
                    fabric.State() == before && target.State() == old(target.State()) && cursor == old(cursor)
        invariant fabric.downstreamPending && !before.downstreamPending ==>
                    var choice := ChooseWeighted(order, old(cursor), Waiting(before.pending));
                    SomeoneReady(Waiting(before.pending)) && choice.0.Some?
                    && CanGrant(before, choice.0.value) && cursor == choice.1
                    && fabric.State() == GrantTo(before, choice.0.value)
                    && target.State() == Receive(old(target.State()), before.pending[choice.0.value][0])
        decreases if fabric.downstreamPending then 0 else 1
      {
        var winner := ChooseNextInitiator();
        if winner.None? {
          return false;
        }
        var _ := fabric.Grant(winner.value, target);
        some := fabric.HasPending();
      }
      return true;
    }
  }

  /** The slots of the first n initiators. */
  function SlotsUpto(weights: seq<nat>, n: nat): seq<nat>
    requires |weights| == INITIATORS && n <= INITIATORS
  {
    if n == 0 then [] else SlotsUpto(weights, n - 1) + Repeat(n - 1, weights[n - 1])
  }

  /** AT-2's arbiter. */
  class SimpleAtInterconnect {
    const policy: Policy
    const fabric: Fabric
    var last: nat
    var slot: nat

    function Place(): Cursors
      reads this
    {
      Cursors(last, slot)
    }

    ghost predicate Valid()
      reads this, fabric
    {
      Place().Valid() && |fabric.pending| == INITIATORS
    }

    constructor (policy: Policy)
      ensures Valid() && fresh(fabric) && this.policy == policy
      ensures Place() == Cursors(INITIATORS - 1, 0)
    {
      this.policy := policy;
      fabric := new Fabric();
      last, slot := INITIATORS - 1, 0;
    }

    /** None is the fatal report. */
    method ChooseNextInitiator() returns (winner: Option<nat>)
      requires Valid()
      modifies this
      ensures Valid() && (winner, Place()) == ChooseByPolicy(policy, old(Place()), Waiting(fabric.pending))
    {
      ghost var ready := Waiting(fabric.pending);
      if policy.RoundRobin? {
        for offset := 1 to INITIATORS + 1
          invariant last == old(last) && slot == old(slot)
          invariant NearestAfter(last, ready, offset) == NearestAfter(last, ready, 1)
        {
          var index := (last + offset) % INITIATORS;
          if |fabric.pending[index]| > 0 {
            last := index;
            return Some(index);
          }
        }
      }
      if policy.FixedPriority? {
        var ranking: seq<nat> := [1, 0, 2];
        for k := 0 to INITIATORS
          invariant last == old(last) && slot == old(slot)
          invariant forall j :: 0 <= j < k ==> !ready[ranking[j]]
        {
          if |fabric.pending[ranking[k]]| > 0 {
            assert k > 0 ==> !ready[ranking[0]];
            assert k > 1 ==> !ready[ranking[1]];
            return Some(ranking[k]);
          }
        }
        assert !ready[ranking[0]] && !ready[ranking[1]] && !ready[ranking[2]];
      }
      winner := ScanSlots();
    }

    method ScanSlots() returns (winner: Option<nat>)
      requires Valid()
      modifies this`slot
      ensures ValidOrder(AT2_ORDER) && Valid()
      ensures (winner, slot) == Scan(AT2_ORDER, old(slot), Waiting(fabric.pending), 0)
    {
      At2OrderServes();
      ghost var ready := Waiting(fabric.pending);
      for count := 0 to |AT2_ORDER|
        invariant slot < |AT2_ORDER|
        invariant Scan(AT2_ORDER, slot, ready, count) == Scan(AT2_ORDER, old(slot), ready, 0)
      {
        var index := AT2_ORDER[slot];
        slot := (slot + 1) % |AT2_ORDER|;
        if |fabric.pending[index]| > 0 {
          return Some(index);
        }
      }
      return None;
    }
  }
}
