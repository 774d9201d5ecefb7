/** The AT-6 scheduler in its own, mutable form: the variables one call of
    `run_fabric_model` updates. */
module FabricRun {
  import opened SimTime
  import opened FabricModel
  import opened FabricInvariant
  import opened FabricTheorems

  class Scheduler {
    const spec: CaseSpec
    var records: seq<Record>
    var pending: seq<nat>
    var nextRecord: nat
    var completed: nat
    var timeNs: real
    var nextNpuTokenNs: real
    var lastRrInitiator: nat
    var queuePeak: nat
    ghost var served: seq<nat>

    ghost function Snapshot(): Fabric
      reads this
    {
      Fabric(records, pending, nextRecord, timeNs, nextNpuTokenNs, lastRrInitiator, queuePeak, served)
    }

    constructor (spec: CaseSpec, records: seq<Record>)
      ensures this.spec == spec && Snapshot() == Init(records) && completed == 0
    {
      this.spec := spec;
      this.records, pending, served := records, [], [];
      nextRecord, completed, queuePeak := 0, 0, 0;
      timeNs, nextNpuTokenNs := 0.0, 0.0;
      lastRrInitiator := INITIATORS - 1;
    }

    method EnqueueReadyRecords()
      requires nextRecord <= |records|
      modifies this
      ensures Snapshot() == EnqueueReady(old(Snapshot())) && completed == old(completed)
    {
      while nextRecord < |records| && records[nextRecord].issue <= timeNs
        invariant nextRecord <= |records| && completed == old(completed)
        invariant EnqueueReady(Snapshot()) == EnqueueReady(old(Snapshot()))
      {
        records := records[nextRecord := records[nextRecord].(depthOnArrival := |pending|)];
        pending := pending + [nextRecord];
        queuePeak := NatMax(queuePeak, |pending|);
        nextRecord := nextRecord + 1;
      }
    }

    method PendingPositionFor(initiator: nat) returns (pos: nat)
      requires Shape(Snapshot())
      ensures pos == PositionFrom(spec, Snapshot(), initiator, 0)
    {
      pos := 0;
      while pos < |pending|
        invariant pos <= |pending|
        invariant PositionFrom(spec, Snapshot(), initiator, pos) == PositionFrom(spec, Snapshot(), initiator, 0)
      {
        if records[pending[pos]].initiator == initiator && TokenReady(spec, initiator, timeNs, nextNpuTokenNs) {
          return;
        }
        pos := pos + 1;
      }
    }

    /** Also passes the turn, under round robin, when something is selected. */
    method SelectPendingPosition() returns (pos: nat)
      requires Shape(Snapshot())
      modifies this`lastRrInitiator
      ensures pos == Select(spec, old(Snapshot()))
      ensures lastRrInitiator == if spec.policy == RoundRobin && pos < |pending|
                                 then records[pending[pos]].initiator else old(lastRrInitiator)
    {
      if |pending| == 0 {
        return 0;
      }
      var order := TryOrder(spec.policy, lastRrInitiator);
      var n := 0;
      while n < |order|
        invariant n <= |order| && lastRrInitiator == old(lastRrInitiator)
        invariant SelectInOrder(spec, Snapshot(), order[n..]) == Select(spec, Snapshot())
      {
        assert order[n..][1..] == order[n + 1..];
        pos := PendingPositionFor(order[n]);
        PositionFromIsFirst(spec, Snapshot(), order[n], 0);
        if pos < |pending| {
          if spec.policy == RoundRobin {
            lastRrInitiator := order[n];
          }
          return;
        }
        n := n + 1;
      }
      return |pending|;
    }

    method ServeAt(pos: nat)
      requires Shape(Snapshot()) && pos < |pending|
      requires spec.policy == RoundRobin ==> lastRrInitiator == records[pending[pos]].initiator
      modifies this
      ensures Snapshot() == Serve(spec, old(Snapshot()), pos) && completed == old(completed) + 1
    {
      var index := pending[pos];
      pending := pending[..pos] + pending[pos + 1..];
      var record := ServedRecord(spec, records[index], timeNs);
      records := records[index := record];
      if spec.tokenGap > 0.0 && record.initiator == NPU {
        nextNpuTokenNs := record.start + spec.tokenGap;
      }
      timeNs := record.end;
      completed := completed + 1;
      queuePeak := NatMax(queuePeak, |pending|);
      served := served + [index];
    }

    /** Refills the pending list; `more` is false at the early exit of the loop. */
    method RefillPending() returns (more: bool)
      requires nextRecord <= |records|
      modifies this
      ensures Snapshot() == Refill(old(Snapshot())) && completed == old(completed)
      ensures nextRecord <= |records| ==> more == !(|pending| == 0 && nextRecord >= |records|)
    {
      EnqueueReadyRecords();
      if |pending| == 0 {
        if nextRecord >= |records| {
          return false;
        }
        timeNs := Max(timeNs, records[nextRecord].issue);
        EnqueueReadyRecords();
      }
      return |pending| > 0 || nextRecord < |records|;
    }

    /** One iteration of the loop; `more` is false at its early exit. */
    method RunIteration() returns (more: bool)
      requires Inv(spec, Snapshot())
      modifies this
      ensures |records| == old(|records|)
      ensures match Iterate(spec, old(Snapshot()))
              case Go(f) => more && Snapshot() == f && completed - |served| == old(completed - |served|)
              case Abandon(f) => !more && Snapshot() == f && completed == old(completed)
    {
      hide Inv;
      ArrivedBounded(spec, Snapshot());
      RefillKeeps(spec, Snapshot());
      more := RefillPending();
      InvImpliesShape(spec, Snapshot());
      if !more {
        return;
      }
      var pos := SelectPendingPosition();
      if pos >= |pending| {
        var wakeUp := nextNpuTokenNs;
        if nextRecord < |records| {
          wakeUp := Min(wakeUp, records[nextRecord].issue);
        }
        timeNs := Max(timeNs, wakeUp);
        return;
      }
      ServeAt(pos);
    }

    /** The whole run: it ends with every record served, exactly as the
        specification of the run says. */
    method RunFabricModel() returns (peak: nat)
      requires InputValid(records) && Snapshot() == Init(records) && completed == 0
      modifies this
      ensures Snapshot() == RunFabric(spec, old(records))
      ensures RunDone(spec, old(records), Snapshot())
      ensures completed == |records| && peak == queuePeak
    {
      hide Inv, Iterate;
      ghost var input := records;
      InitKeeps(spec, input);
      RunEnds(spec, input);
      while completed < |records|
        invariant Inv(spec, Snapshot()) && completed == |served| && |records| == |input|
        invariant RunFrom(spec, Snapshot()) == RunFabric(spec, input)
        decreases |records| - |served|,
                  (ArrivedBounded(spec, Snapshot()); |records| - EnqueueReady(Snapshot()).next),
                  if timeNs < nextNpuTokenNs then 1 else 0
      {
        ArrivedBounded(spec, Snapshot());
        IterateProgresses(spec, Snapshot());
        var more := RunIteration();
        if !more {
          break;
        }
      }
      peak := queuePeak;
      ArrivedBounded(spec, Snapshot());
    }
  }
}
