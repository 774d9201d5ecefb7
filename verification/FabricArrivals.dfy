/** What the records of an AT-6 run found on arrival, and what they report of it. */
module FabricArrivals {
  import opened SimTime
  import opened FabricModel
  import opened FabricInvariant
  import opened FabricTheorems
  import opened FabricReport

  /** The records before the i-th that were not served before it arrived. */
  function AheadOf(records: seq<Record>, served: seq<nat>, i: nat): set<nat>
    requires i < |records|
  {
    set j | 0 <= j < i && !(j in served && records[j].start < records[i].issue)
  }

  /** The largest depth reached by the first `n` arrivals. */
  function PeakOf(records: seq<Record>, n: nat): nat
    requires n <= |records|
  {
    if n == 0 then 0 else NatMax(PeakOf(records, n - 1), records[n - 1].depthOnArrival + 1)
  }

  /** What the records report of the pending list. */
  predicate Depths(spec: CaseSpec, f: Fabric)
    requires Exact(f)
  {
    && (forall i :: 0 <= i < f.next ==> f.records[i].depthOnArrival == |AheadOf(f.records, f.served, i)|)
    && f.queuePeak == PeakOf(f.records, f.next)
    && (forall k, i :: 0 <= k < |f.served| && f.next <= i < |f.records| ==>
          f.records[f.served[k]].start < f.records[i].issue)
    && (forall k :: 0 <= k < |f.served| ==> StarvedRight(spec, f.records[f.served[k]]))
  }

  predicate StarvedRight(spec: CaseSpec, r: Record) {
    r.starved <==> r.queueDelay > spec.starvationThreshold || r.depthOnArrival >= spec.queueCapacity
  }

  // ---- Enqueueing ----

  function Elements(xs: seq<nat>): set<nat> {
    set x | x in xs
  }

  lemma ElementsSnoc(xs: seq<nat>, x: nat)
    requires x !in xs
    ensures |Elements(xs + [x])| == |Elements(xs)| + 1
  {
    assert Elements(xs + [x]) == Elements(xs) + {x};
  }

  lemma {:induction false} IncreasingCard(xs: seq<nat>)
    requires forall p, q :: 0 <= p < q < |xs| ==> xs[p] < xs[q]
    ensures |Elements(xs)| == |xs|
  {
    if |xs| == 0 {
      assert Elements(xs) == {};
    } else {
      hide Elements;
      var front, last := xs[..|xs| - 1], xs[|xs| - 1];
      IncreasingCard(front);
      assert forall p :: 0 <= p < |front| ==> front[p] < last;
      ElementsSnoc(front, last);
      assert xs == front + [last];
    }
  }

  lemma {:induction false} PeakOfSame(xs: seq<Record>, ys: seq<Record>, n: nat)
    requires n <= |xs| && |xs| == |ys|
    requires forall i :: 0 <= i < n ==> xs[i].depthOnArrival == ys[i].depthOnArrival
    ensures PeakOf(xs, n) == PeakOf(ys, n)
  {
    if n == 0 {
    } else {
      PeakOfSame(xs, ys, n - 1);
    }
  }

  /** Who was ahead depends on issue times, and on the starts of those served. */
  lemma AheadOfSame(xs: seq<Record>, ys: seq<Record>, served: seq<nat>, longer: seq<nat>, i: nat)
    requires i < |xs| == |ys|
    requires forall j :: 0 <= j <= i ==> xs[j].issue == ys[j].issue
    requires forall j :: 0 <= j < i && j in served ==> j in longer && xs[j].start == ys[j].start
    requires forall j :: 0 <= j < i && j in longer && j !in served ==> ys[i].issue <= ys[j].start
    ensures AheadOf(xs, served, i) == AheadOf(ys, longer, i)
  {
  }

  /** A record that arrives finds exactly the pending ones ahead. */
  lemma AheadIsPending(spec: CaseSpec, f: Fabric)
    requires Exact(f) && Depths(spec, f) && f.next < |f.records|
    ensures |AheadOf(f.records, f.served, f.next)| == |f.pending|
  {
    hide PeakOf, StarvedRight;
    IncreasingCard(f.pending);
    forall j | 0 <= j < f.next
      ensures j in AheadOf(f.records, f.served, f.next) <==> j in f.pending
    {
    }
    assert AheadOf(f.records, f.served, f.next) == Elements(f.pending);
  }

  lemma EnqueueNextIs(f: Fabric)
    requires Exact(f) && f.next < |f.records|
    ensures var g := EnqueueNext(f);
            && |g.records| == |f.records| && g.served == f.served && g.next == f.next + 1
            && g.records[f.next].depthOnArrival == |f.pending|
            && g.queuePeak == NatMax(f.queuePeak, |f.pending| + 1)
            && (forall i :: 0 <= i < |f.records| ==> g.records[i].issue == f.records[i].issue)
            && (forall i :: 0 <= i < |f.records| && i != f.next ==> g.records[i] == f.records[i])
            && (forall a :: 0 <= a < |f.served| ==> f.served[a] < f.next)
  {
  }

  lemma EnqueueNextKeepsDepths(spec: CaseSpec, f: Fabric)
    requires Exact(f) && Depths(spec, f) && NextIsReady(f) && Exact(EnqueueNext(f))
    ensures Depths(spec, EnqueueNext(f))
  {
    var g := EnqueueNext(f);
    AheadIsPending(spec, f);
    EnqueueNextIs(f);
    EnqueueNextAhead(f);
    PeakOfSame(f.records, g.records, f.next);
    hide AheadOf, StarvedRight, Exact, EnqueueNext;
  }

  lemma EnqueueNextAhead(f: Fabric)
    requires Exact(f) && f.next < |f.records|
    ensures var g := EnqueueNext(f);
            forall i :: 0 <= i < g.next ==> AheadOf(g.records, g.served, i) == AheadOf(f.records, f.served, i)
  {
    var g := EnqueueNext(f);
    EnqueueNextIs(f);
    hide AheadOf, Exact, EnqueueNext;
    forall i | 0 <= i < g.next ensures AheadOf(g.records, g.served, i) == AheadOf(f.records, f.served, i) {
      AheadOfSame(f.records, g.records, f.served, g.served, i);
    }
  }

  /** Only the clock moves. */
  lemma TimeKeepsDepths(spec: CaseSpec, f: Fabric, t: real)
    requires Exact(f) && Depths(spec, f)
    ensures Exact(f.(time := t)) && Depths(spec, f.(time := t))
  {
    hide AheadOf, StarvedRight, PeakOf;
  }

  // ---- Serving ----

  lemma ServeKeepsAhead(spec: CaseSpec, g: Fabric, pos: nat)
    requires Exact(g) && Clock(spec, g) && InputValid(g.records) && pos < |g.pending|
    ensures var h := Serve(spec, g, pos);
            |h.records| == |g.records|
            && forall i :: 0 <= i < g.next ==> AheadOf(h.records, h.served, i) == AheadOf(g.records, g.served, i)
  {
    hide TokenAt, HeldUntil, PreviousEnd, PreviousTurn;
    var h := Serve(spec, g, pos);
    assert h.records[g.pending[pos]].start == g.time;
    forall i | 0 <= i < g.next ensures AheadOf(h.records, h.served, i) == AheadOf(g.records, g.served, i) {
      AheadOfSame(g.records, h.records, g.served, h.served, i);
    }
  }

  lemma ServeKeepsDepths(spec: CaseSpec, g: Fabric, pos: nat)
    requires Exact(g) && Clock(spec, g) && Depths(spec, g) && Arrived(g) && InputValid(g.records)
    requires pos < |g.pending| && Exact(Serve(spec, g, pos))
    ensures Depths(spec, Serve(spec, g, pos))
  {
    var h, c := Serve(spec, g, pos), g.pending[pos];
    ServeKeepsAhead(spec, g, pos);
    ServedIs(spec, g, pos);
    PeakOfSame(g.records, h.records, g.next);
    hide AheadOf, PeakOf, StarvedRight, Clock, Exact, Serve;
    assert forall i :: g.next <= i < |g.records| ==> g.time < g.records[i].issue;
  }

  /** What a service writes, and that it leaves the earlier ones as they were. */
  lemma ServedIs(spec: CaseSpec, g: Fabric, pos: nat)
    requires Exact(g) && Clock(spec, g) && pos < |g.pending|
    ensures var h, c := Serve(spec, g, pos), g.pending[pos];
            && c < |g.records| == |h.records| && h.served == g.served + [c] && h.next == g.next
            && h.records[c].start == g.time && StarvedRight(spec, h.records[c])
            && (forall k :: 0 <= k < |g.served| ==>
                  g.served[k] < |g.records| && h.records[g.served[k]] == g.records[g.served[k]])
            && (forall i :: 0 <= i < |g.records| ==>
                  h.records[i].issue == g.records[i].issue
                  && h.records[i].depthOnArrival == g.records[i].depthOnArrival)
            && h.queuePeak == NatMax(g.queuePeak, |g.pending| - 1) == g.queuePeak
  {
    hide TokenAt, HeldUntil, PreviousEnd, PreviousTurn;
    assert g.records[g.pending[pos]].issue <= g.time;
  }

  // ---- Whole runs ----

  lemma {:induction false} ReadyKeepsDepths(spec: CaseSpec, f: Fabric)
    requires Inv(spec, f) && Depths(spec, f)
    ensures Exact(EnqueueReady(f)) && Depths(spec, EnqueueReady(f))
    decreases |f.records| - f.next
  {
    hide Depths, Entry, Clock;
    if NextIsReady(f) {
      EnqueueNextKeeps(spec, f);
      EnqueueNextKeepsDepths(spec, f);
      hide Exact, EnqueueNext;
      ReadyKeepsDepths(spec, EnqueueNext(f));
    }
  }

  lemma RefillKeepsDepths(spec: CaseSpec, f: Fabric)
    requires Inv(spec, f) && Depths(spec, f)
    ensures Exact(Refill(f)) && Depths(spec, Refill(f))
  {
    InvImpliesExact(spec, f);
    hide Inv, Depths, Exact, EnqueueReady, Clock, InputValid;
    EnqueueReadyKeeps(spec, f);
    ReadyKeepsDepths(spec, f);
    var g := EnqueueReady(f);
    InvImpliesExact(spec, g);
    if |g.pending| == 0 && g.next < |g.records| {
      var jumped := g.(time := Max(g.time, g.records[g.next].issue));
      JumpKeeps(spec, g);
      TimeKeepsDepths(spec, g, jumped.time);
      ReadyKeepsDepths(spec, jumped);
    }
  }

  lemma InvImpliesExact(spec: CaseSpec, f: Fabric)
    requires Inv(spec, f)
    ensures Exact(f) && Clock(spec, f) && InputValid(f.records) && f.next <= |f.records|
  {
  }

  lemma IterateKeepsDepths(spec: CaseSpec, f: Fabric)
    requires Inv(spec, f) && Depths(spec, f) && |f.served| < |f.records|
    ensures Iterate(spec, f).Go?
    ensures Exact(Iterate(spec, f).next) && Depths(spec, Iterate(spec, f).next)
  {
    IterateProgresses(spec, f);
    RefillKeeps(spec, f);
    RefillKeepsDepths(spec, f);
    var g := Refill(f);
    InvImpliesExact(spec, g);
    hide Depths, Exact, Refill, Serve, Clock, InputValid;
    if Select(spec, g) < |g.pending| {
      ServeKeeps(spec, g);
      InvImpliesExact(spec, Serve(spec, g, Select(spec, g)));
      ServeKeepsDepths(spec, g, Select(spec, g));
    } else {
      TimeKeepsDepths(spec, g, WakeUp(g));
    }
  }

  lemma {:induction false} RunFromKeepsDepths(spec: CaseSpec, f: Fabric)
    requires Inv(spec, f) && Depths(spec, f)
    ensures Exact(RunFrom(spec, f)) && Depths(spec, RunFrom(spec, f))
    decreases |f.records| - |f.served|,
              (ArrivedBounded(spec, f); |f.records| - EnqueueReady(f).next),
              if f.time < f.token then 1 else 0
  {
    InvImpliesExact(spec, f);
    hide Inv, Iterate, Depths, Exact;
    if |f.served| < |f.records| {
      IterateProgresses(spec, f);
      ArrivedBounded(spec, f);
      IterateKeepsDepths(spec, f);
      RunFromKeepsDepths(spec, Iterate(spec, f).next);
    }
  }

  /** Every run ends with the depths, the peak and the starvation marks right. */
  lemma RunKeepsDepths(spec: CaseSpec, input: seq<Record>)
    requires InputValid(input)
    ensures var f := RunFabric(spec, input); RunDone(spec, input, f) && Exact(f) && Depths(spec, f)
  {
    RunEnds(spec, input);
    InitKeeps(spec, input);
    hide Inv, RunFrom, Exact;
    InitHasDepths(spec, input);
    RunFromKeepsDepths(spec, Init(input));
  }

  lemma InitHasDepths(spec: CaseSpec, input: seq<Record>)
    requires InputValid(input)
    ensures Exact(Init(input)) && Depths(spec, Init(input))
  {
  }

  // ---- What a finished run reports ----

  /** The records before the i-th that started only when it had arrived. */
  function StillThere(records: seq<Record>, i: nat): set<nat>
    requires i < |records|
  {
    set j | 0 <= j < i && records[j].issue <= records[i].issue <= records[j].start
  }

  lemma ReportedDepth(spec: CaseSpec, input: seq<Record>, f: Fabric, i: nat)
    requires RunDone(spec, input, f) && Depths(spec, f) && i < |f.records|
    ensures var r := f.records[i];
            && r.depthOnArrival == |StillThere(f.records, i)| && r.queueDelay == r.start - r.issue
            && StarvedRight(spec, r)
    ensures f.queuePeak == PeakOf(f.records, |f.records|)
  {
    ServedExactlyOnce(spec, input, f, i);
    AllServed(spec, input, f);
    var k :| 0 <= k < |f.served| && f.served[k] == i;
    StartsAreExact(spec, f, k);
    hide Inv, PeakOf, AheadOf, StarvedRight, StillThere;
    assert StarvedRight(spec, f.records[f.served[k]]);
    AheadIsStillThere(f.records, f.served, i);
  }

  lemma AllServed(spec: CaseSpec, input: seq<Record>, f: Fabric)
    requires RunDone(spec, input, f)
    ensures f.next == |f.records| && InputValid(f.records)
    ensures forall j :: 0 <= j < |f.records| ==> j in f.served
  {
    hide Entry, Clock;
  }

  lemma AheadIsStillThere(records: seq<Record>, served: seq<nat>, i: nat)
    requires InputValid(records) && i < |records| && forall j :: 0 <= j < |records| ==> j in served
    ensures AheadOf(records, served, i) == StillThere(records, i)
  {
  }

  /** In every run every record reports as its depth the older ones that had not started
      before it arrived, and starvation by its own delay and that depth. */
  lemma DepthsAreExact(spec: CaseSpec, input: seq<Record>, i: nat)
    requires InputValid(input) && i < |input|
    ensures |RunFabric(spec, input).records| == |input|
    ensures var records := RunFabric(spec, input).records;
            var r, depth := records[i], |StillThere(records, i)|;
            && r.depthOnArrival == depth
            && (r.starved <==> r.start - r.issue > spec.starvationThreshold || depth >= spec.queueCapacity)
  {
    hide Inv, RunFabric, Depths, Exact, StillThere;
    RunKeepsDepths(spec, input);
    ReportedDepth(spec, input, RunFabric(spec, input), i);
  }

  lemma {:induction false} PeakOfIsLargest(records: seq<Record>, n: nat)
    requires n <= |records|
    ensures forall i :: 0 <= i < n ==> records[i].depthOnArrival + 1 <= PeakOf(records, n)
    ensures n > 0 ==> exists i :: 0 <= i < n && PeakOf(records, n) == records[i].depthOnArrival + 1
  {
    if n == 0 {
    } else {
      PeakOfIsLargest(records, n - 1);
      if PeakOf(records, n) != records[n - 1].depthOnArrival + 1 {
        var i :| 0 <= i < n - 1 && PeakOf(records, n - 1) == records[i].depthOnArrival + 1;
        assert PeakOf(records, n) == records[i].depthOnArrival + 1;
      }
    }
  }

  /** The reported queue peak is reached by some arrival and exceeded by none. */
  lemma PeakIsReached(spec: CaseSpec, input: seq<Record>, i: nat) returns (q: nat)
    requires InputValid(input) && i < |input|
    ensures q < |input| == |RunFabric(spec, input).records|
    ensures var f := RunFabric(spec, input);
            f.queuePeak == |StillThere(f.records, q)| + 1 && |StillThere(f.records, i)| + 1 <= f.queuePeak
  {
    var f := RunFabric(spec, input);
    hide Inv, RunFabric, Depths, Exact, StillThere;
    RunKeepsDepths(spec, input);
    ReportedDepth(spec, input, f, i);
    PeakOfIsLargest(f.records, |f.records|);
    hide PeakOf;
    q :| 0 <= q < |f.records| && f.queuePeak == f.records[q].depthOnArrival + 1;
    ReportedDepth(spec, input, f, q);
  }
}
