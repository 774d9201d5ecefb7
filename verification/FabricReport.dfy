/** When the services of an AT-6 run start, exactly, NPU-like ones included. */
module FabricReport {
  import opened SimTime
  import opened FabricModel
  import opened FabricInvariant
  import opened FabricTheorems

  /** The start of the last NPU-like service among the first `k`, if any. */
  function LastNpuStart(f: Fabric, k: nat): Option<real>
    requires k <= |f.served| && forall a :: 0 <= a < |f.served| ==> f.served[a] < |f.records|
  {
    if k == 0 then None
    else if f.records[f.served[k - 1]].initiator == NPU then Some(f.records[f.served[k - 1]].start)
    else LastNpuStart(f, k - 1)
  }

  /** The earliest start that the token allows record `i` after the first `k` services. */
  function TokenFree(spec: CaseSpec, f: Fabric, k: nat, i: nat): real
    requires k <= |f.served| && i < |f.records| && forall a :: 0 <= a < |f.served| ==> f.served[a] < |f.records|
  {
    var last := LastNpuStart(f, k);
    if spec.tokenGap <= 0.0 || f.records[i].initiator != NPU || last.None? then 0.0 else last.value + spec.tokenGap
  }

  lemma {:induction false} TokenIsLastStart(spec: CaseSpec, f: Fabric, k: nat)
    requires k <= |f.served| && spec.tokenGap > 0.0
    requires forall a :: 0 <= a < |f.served| ==> f.served[a] < |f.records|
    ensures TokenAt(spec, f.records, f.served, k)
            == var last := LastNpuStart(f, k); if last.None? then 0.0 else last.value + spec.tokenGap
  {
    if k == 0 {
    } else {
      TokenIsLastStart(spec, f, k - 1);
    }
  }

  lemma HeldIsTokenFree(spec: CaseSpec, f: Fabric, k: nat, i: nat)
    requires k <= |f.served| && i < |f.records| && forall a :: 0 <= a < |f.served| ==> f.served[a] < |f.records|
    ensures HeldUntil(spec, f.records, f.served, k, i) == TokenFree(spec, f, k, i)
  {
    if spec.tokenGap > 0.0 {
      TokenIsLastStart(spec, f, k);
    }
  }

  /** No record that has arrived is made to wait by more than the service before and, if it
      is NPU-like, one token gap after the last NPU-like start. */
  lemma NoLongerThanTheToken(spec: CaseSpec, f: Fabric, k: nat, i: nat)
    requires Inv(spec, f) && k < |f.served| && i < |f.records| && Waiting(f.served, k, i)
    ensures forall a :: 0 <= a < |f.served| ==> f.served[a] < |f.records|
    ensures f.records[f.served[k]].start
            <= Max(Max(PreviousEnd(f.records, f.served, k), f.records[i].issue), TokenFree(spec, f, k, i))
  {
    hide Inv, OldestFirst, ByPriority, NearestTurn, TokenSpaced, TimesRight;
    InvImpliesLog(spec, f);
    assert Entry(spec, f.records, f.served, k);
    HeldIsTokenFree(spec, f, k, i);
  }

  lemma {:induction false} LastNpuStartIsStart(f: Fabric, k: nat) returns (a: nat)
    requires k <= |f.served| && forall a :: 0 <= a < |f.served| ==> f.served[a] < |f.records|
    requires LastNpuStart(f, k).Some?
    ensures a < k && f.records[f.served[a]].initiator == NPU
    ensures LastNpuStart(f, k).value == f.records[f.served[a]].start
  {
    if f.records[f.served[k - 1]].initiator == NPU {
      a := k - 1;
    } else {
      a := LastNpuStartIsStart(f, k - 1);
    }
  }

  /** Every service starts exactly when the one before has ended, its record has arrived
      and, for an NPU-like record, one gap has passed since the last NPU-like start. */
  lemma StartsAreExact(spec: CaseSpec, f: Fabric, k: nat)
    requires Inv(spec, f) && k < |f.served|
    ensures forall a :: 0 <= a < |f.served| ==> f.served[a] < |f.records|
    ensures var r := f.records[f.served[k]];
            && r.start == Max(Max(PreviousEnd(f.records, f.served, k), r.issue), TokenFree(spec, f, k, f.served[k]))
            && r.end == r.start + r.service && r.serviceDelay == r.service
            && r.queueDelay == r.start - r.issue && r.latency == r.end - r.issue
  {
    hide Inv, OldestFirst, ByPriority, NearestTurn, NeverIdle;
    InvImpliesLog(spec, f);
    var c := f.served[k];
    assert forall x :: 0 <= x < k ==> f.served[..k][x] != c;
    assert Waiting(f.served, k, c);
    NoLongerThanTheToken(spec, f, k, c);
    assert Entry(spec, f.records, f.served, k);
    if TokenFree(spec, f, k, c) != 0.0 {
      var a := LastNpuStartIsStart(f, k);
    }
  }
}
