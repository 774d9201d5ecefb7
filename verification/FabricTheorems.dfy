/** Whole runs of the AT-6 scheduler: they end, they serve every record exactly
    once, and each policy keeps the promise it is named for. */
module FabricTheorems {
  import opened SimTime
  import opened FabricModel
  import opened FabricInvariant

  // ---- Termination ----

  function Iterate(spec: CaseSpec, f: Fabric): Step
    requires Inv(spec, f)
  {
    RefillKeeps(spec, f);
    Decide(spec, Refill(f))
  }

  /** The later state is closer to the end: more records served, or as many and
      more arrived by now, or as many of both and the token wait is over. */
  predicate Closer(f: Fabric, h: Fabric)
    requires f.next <= |f.records| && h.next <= |h.records|
  {
    || |h.served| > |f.served|
    || (|h.served| == |f.served| && EnqueueReady(h).next > EnqueueReady(f).next)
    || (|h.served| == |f.served| && EnqueueReady(h).next == EnqueueReady(f).next
        && f.time < f.token && h.token <= h.time)
  }

  /** One iteration with work left: the early exit is not taken, nothing stored
      is lost, and the run gets closer to its end. */
  lemma IterateProgresses(spec: CaseSpec, f: Fabric)
    requires Inv(spec, f) && |f.served| < |f.records|
    ensures Iterate(spec, f).Go?
    ensures Inv(spec, Iterate(spec, f).next) && SameInput(f.records, Iterate(spec, f).next.records)
    ensures Closer(f, Iterate(spec, f).next)
    ensures var h := Iterate(spec, f).next; EnqueueReady(h).next <= |h.records| && |h.served| <= |h.records|
  {
    hide Inv;
    ArrivedBounded(spec, f);
    RefillKeeps(spec, f);
    var g := Refill(f);
    StillPending(spec, g);
    if Select(spec, g) < |g.pending| {
      ServeKeeps(spec, g);
      ArrivedBounded(spec, Serve(spec, g, Select(spec, g)));
    } else {
      WakeKeeps(spec, g);
      WakeArrives(spec, g);
      ArrivedBounded(spec, g.(time := WakeUp(g)));
    }
  }

  /** The early exit of the loop never abandons work. */
  lemma StillPending(spec: CaseSpec, g: Fabric)
    requires Inv(spec, g) && |g.served| < |g.records|
    requires |g.pending| == 0 ==> g.next == |g.records|
    ensures |g.pending| > 0 && Shape(g)
  {
  }

  lemma WakeArrives(spec: CaseSpec, g: Fabric)
    requires Inv(spec, g) && Inv(spec, g.(time := WakeUp(g))) && Arrived(g)
    requires WakeUp(g) == g.token || (g.next < |g.records| && WakeUp(g) == g.records[g.next].issue)
    ensures var h := g.(time := WakeUp(g));
            g.next <= EnqueueReady(h).next && (WakeUp(g) != g.token ==> g.next < EnqueueReady(h).next)
  {
    hide Inv;
    ArrivedBounded(spec, g);
    var h := g.(time := WakeUp(g));
    EnqueueReadyKeeps(spec, h);
    if WakeUp(g) != g.token {
      EnqueueNextKeeps(spec, h);
      EnqueueReadyKeeps(spec, EnqueueNext(h));
    }
  }

  lemma ArrivedBounded(spec: CaseSpec, f: Fabric)
    requires Inv(spec, f)
    ensures f.next <= |f.records| && EnqueueReady(f).next <= |f.records| && |f.served| <= |f.records|
  {
    EnqueueReadyKeeps(spec, f);
  }

  function RunFrom(spec: CaseSpec, f: Fabric): Fabric
    requires Inv(spec, f)
    decreases |f.records| - |f.served|,
              (ArrivedBounded(spec, f); |f.records| - EnqueueReady(f).next),
              if f.time < f.token then 1 else 0
  {
    if |f.served| >= |f.records| then f
    else
      IterateProgresses(spec, f);
      ArrivedBounded(spec, f);
      RunFrom(spec, Iterate(spec, f).next)
  }

  function RunFabric(spec: CaseSpec, records: seq<Record>): Fabric
    requires InputValid(records)
  {
    InitKeeps(spec, records);
    RunFrom(spec, Init(records))
  }

  /** A finished run over the given input. */
  predicate RunDone(spec: CaseSpec, input: seq<Record>, f: Fabric) {
    && Inv(spec, f)
    && SameInput(input, f.records)
    && |f.served| == |f.records|
  }

  lemma {:induction false} RunFromEnds(spec: CaseSpec, f: Fabric)
    requires Inv(spec, f)
    ensures RunDone(spec, f.records, RunFrom(spec, f))
    decreases |f.records| - |f.served|,
              (ArrivedBounded(spec, f); |f.records| - EnqueueReady(f).next),
              if f.time < f.token then 1 else 0
  {
    hide Entry, Clock, Iterate, EnqueueReady;
    ArrivedBounded(spec, f);
    if |f.served| < |f.records| {
      IterateProgresses(spec, f);
      RunFromEnds(spec, Iterate(spec, f).next);
    }
  }

  /** Every run ends, under every policy and token gap, with every record served. */
  lemma RunEnds(spec: CaseSpec, records: seq<Record>)
    requires InputValid(records)
    ensures RunDone(spec, records, RunFabric(spec, records))
  {
    InitKeeps(spec, records);
    RunFromEnds(spec, Init(records));
  }

  /** Exactly once: the order of service is a permutation of the records. */
  lemma ServedExactlyOnce(spec: CaseSpec, input: seq<Record>, f: Fabric, i: nat)
    requires RunDone(spec, input, f) && i < |input|
    ensures exists k :: 0 <= k < |f.served| && f.served[k] == i
    ensures forall a, b :: 0 <= a < |f.served| && 0 <= b < |f.served| && f.served[a] == i && f.served[b] == i ==> a == b
  {
    assert i in f.served;
  }

  // ---- Work conservation ----

  /** When a single server that takes the records in issue order, one after the
      other, finishes the first `k`. */
  function FifoFinish(records: seq<Record>, k: nat): real
    requires k <= |records|
  {
    if k == 0 then 0.0 else Max(FifoFinish(records, k - 1), records[k - 1].issue) + records[k - 1].service
  }

  /** The service time of the pending records. */
  function Backlog(records: seq<Record>, pending: seq<nat>): real
    requires forall q :: 0 <= q < |pending| ==> pending[q] < |records|
  {
    if |pending| == 0 then 0.0
    else Backlog(records, pending[..|pending| - 1]) + records[pending[|pending| - 1]].service
  }

  lemma {:induction false} FifoFinishSame(xs: seq<Record>, ys: seq<Record>, k: nat)
    requires SameInput(xs, ys) && k <= |xs|
    ensures FifoFinish(xs, k) == FifoFinish(ys, k)
  {
    if k == 0 {
    } else {
      FifoFinishSame(xs, ys, k - 1);
    }
  }

  lemma {:induction false} BacklogSame(xs: seq<Record>, ys: seq<Record>, pending: seq<nat>)
    requires SameInput(xs, ys) && forall q :: 0 <= q < |pending| ==> pending[q] < |xs|
    ensures Backlog(xs, pending) == Backlog(ys, pending)
  {
    if |pending| == 0 {
    } else {
      BacklogSame(xs, ys, pending[..|pending| - 1]);
    }
  }

  lemma {:induction false} BacklogNonNegative(records: seq<Record>, pending: seq<nat>)
    requires InputValid(records) && forall q :: 0 <= q < |pending| ==> pending[q] < |records|
    ensures Backlog(records, pending) >= 0.0
  {
    if |pending| == 0 {
    } else {
      BacklogNonNegative(records, pending[..|pending| - 1]);
    }
  }

  lemma {:induction false} BacklogRemove(records: seq<Record>, pending: seq<nat>, pos: nat)
    requires pos < |pending| && forall q :: 0 <= q < |pending| ==> pending[q] < |records|
    ensures Backlog(records, pending[..pos] + pending[pos + 1..])
            == Backlog(records, pending) - records[pending[pos]].service
  {
    var n := |pending| - 1;
    var rest := pending[..pos] + pending[pos + 1..];
    if pos < n {
      BacklogRemove(records, pending[..n], pos);
      assert rest[..n - 1] == pending[..n][..pos] + pending[..n][pos + 1..];
    } else {
      assert rest == pending[..n];
    }
  }

  /** The clock plus the pending work is where the FIFO server would be. */
  predicate Conserved(f: Fabric)
    requires Shape(f)
  {
    f.time + Backlog(f.records, f.pending) == FifoFinish(f.records, f.next)
  }

  lemma EnqueueNextConserves(spec: CaseSpec, f: Fabric)
    requires Inv(spec, f) && NextIsReady(f)
    requires f.time + Backlog(f.records, f.pending) == Max(FifoFinish(f.records, f.next), f.records[f.next].issue)
    ensures Shape(EnqueueNext(f)) && Conserved(EnqueueNext(f))
  {
    hide Inv, FifoFinish, Backlog;
    var g := EnqueueNext(f);
    var n, r := f.next, f.records[f.next];
    EnqueueNextKeeps(spec, f);
    InvImpliesShape(spec, g);
    InvImpliesShape(spec, f);
    FifoFinishSame(f.records, g.records, n);
    FifoFinishSnoc(g.records, n);
    BacklogSame(f.records, g.records, f.pending);
    BacklogSnoc(g.records, f.pending, n);
    assert g.records[n].issue == r.issue && g.records[n].service == r.service;
  }

  lemma FifoFinishSnoc(records: seq<Record>, k: nat)
    requires k < |records|
    ensures FifoFinish(records, k + 1) == Max(FifoFinish(records, k), records[k].issue) + records[k].service
  {
  }

  lemma BacklogSnoc(records: seq<Record>, pending: seq<nat>, i: nat)
    requires i < |records| && forall q :: 0 <= q < |pending| ==> pending[q] < |records|
    ensures Backlog(records, pending + [i]) == Backlog(records, pending) + records[i].service
  {
    assert (pending + [i])[..|pending|] == pending;
  }

  lemma InvImpliesShape(spec: CaseSpec, f: Fabric)
    requires Inv(spec, f)
    ensures Shape(f) && InputValid(f.records)
  {
  }

  lemma {:induction false} EnqueueReadyConserves(spec: CaseSpec, f: Fabric)
    requires Inv(spec, f) && Conserved(f)
    ensures Shape(EnqueueReady(f)) && Conserved(EnqueueReady(f))
    decreases |f.records| - f.next
  {
    hide Inv;
    InvImpliesShape(spec, f);
    if NextIsReady(f) {
      BacklogNonNegative(f.records, f.pending);
      EnqueueNextConserves(spec, f);
      EnqueueNextKeeps(spec, f);
      EnqueueReadyConserves(spec, EnqueueNext(f));
    }
  }

  lemma RefillConserves(spec: CaseSpec, f: Fabric)
    requires Inv(spec, f) && Conserved(f)
    ensures Shape(Refill(f)) && Conserved(Refill(f))
  {
    hide Inv;
    EnqueueReadyConserves(spec, f);
    EnqueueReadyKeeps(spec, f);
    var g := EnqueueReady(f);
    if |g.pending| == 0 && g.next < |g.records| {
      var jumped := g.(time := Max(g.time, g.records[g.next].issue));
      JumpKeeps(spec, g);
      EnqueueNextConserves(spec, jumped);
      EnqueueNextKeeps(spec, jumped);
      EnqueueReadyConserves(spec, EnqueueNext(jumped));
    }
  }

  lemma ServeConserves(spec: CaseSpec, g: Fabric)
    requires Inv(spec, g) && Arrived(g) && Conserved(g) && Select(spec, g) < |g.pending|
    ensures Shape(Serve(spec, g, Select(spec, g))) && Conserved(Serve(spec, g, Select(spec, g)))
  {
    hide Entry;
    var pos := Select(spec, g);
    var h := Serve(spec, g, pos);
    ServeKeeps(spec, g);
    BacklogRemove(g.records, g.pending, pos);
    BacklogSame(g.records, h.records, h.pending);
    FifoFinishSame(g.records, h.records, g.next);
    assert g.records[g.pending[pos]].issue <= g.time;
  }

  /** One iteration keeps the law; without a token gap the server never stalls. */
  lemma IterateConserves(spec: CaseSpec, f: Fabric)
    requires Inv(spec, f) && Conserved(f) && spec.tokenGap <= 0.0 && |f.served| < |f.records|
    ensures var step := Iterate(spec, f);
            step.Go? && Inv(spec, step.next) && Conserved(step.next) && SameInput(f.records, step.next.records)
            && Closer(f, step.next)
  {
    hide Inv, Closer, Conserved;
    IterateProgresses(spec, f);
    RefillKeeps(spec, f);
    RefillConserves(spec, f);
    var g := Refill(f);
    StillPending(spec, g);
    if Select(spec, g) < |g.pending| {
      ServeConserves(spec, g);
    } else {
      WakeKeeps(spec, g);
      assert false;
    }
  }

  lemma {:induction false} RunFromConserves(spec: CaseSpec, f: Fabric)
    requires Inv(spec, f) && Conserved(f) && spec.tokenGap <= 0.0
    ensures RunFrom(spec, f).time == FifoFinish(f.records, |f.records|)
    decreases |f.records| - |f.served|,
              (ArrivedBounded(spec, f); |f.records| - EnqueueReady(f).next),
              if f.time < f.token then 1 else 0
  {
    hide Inv, Iterate, EnqueueReady, FifoFinish, Backlog;
    ArrivedBounded(spec, f);
    if |f.served| < |f.records| {
      IterateConserves(spec, f);
      var h := Iterate(spec, f).next;
      ArrivedBounded(spec, h);
      RunFromConserves(spec, h);
      FifoFinishSame(f.records, h.records, |f.records|);
    } else {
      NothingLeft(spec, f);
    }
  }

  lemma NothingLeft(spec: CaseSpec, f: Fabric)
    requires Inv(spec, f) && Conserved(f) && |f.served| >= |f.records|
    ensures f.time == FifoFinish(f.records, |f.records|)
  {
    hide Entry, Clock, FifoFinish;
    assert |f.pending| == 0 && f.next == |f.records|;
  }

  /** Without a token gap no policy creates or loses capacity: whatever the
      policy, the run ends when the plain FIFO server would. */
  lemma PolicyDoesNotMoveTheEnd(spec: CaseSpec, records: seq<Record>)
    requires InputValid(records) && spec.tokenGap <= 0.0
    ensures RunFabric(spec, records).time == FifoFinish(records, |records|)
  {
    InitKeeps(spec, records);
    RunFromConserves(spec, Init(records));
  }

  // ---- Reading the log of a finished run ----

  /** Services do not overlap. */
  lemma {:induction false} ServicesDisjoint(spec: CaseSpec, f: Fabric, a: nat, b: nat)
    requires Inv(spec, f) && a < b < |f.served|
    ensures f.records[f.served[a]].end <= f.records[f.served[b]].start
  {
    hide Inv, NeverIdle, OldestFirst, ByPriority, NearestTurn, TokenSpaced;
    InvImpliesLog(spec, f);
    assert Entry(spec, f.records, f.served, b);
    if a < b - 1 {
      ServicesDisjoint(spec, f, a, b - 1);
      assert Entry(spec, f.records, f.served, b - 1);
    }
  }

  /** Each initiator is served in issue order. */
  lemma InitiatorOrderKept(spec: CaseSpec, f: Fabric, a: nat, b: nat)
    requires Inv(spec, f) && a < b < |f.served|
    requires f.records[f.served[a]].initiator == f.records[f.served[b]].initiator
    ensures f.served[a] < f.served[b]
  {
    assert Entry(spec, f.records, f.served, a);
    assert Waiting(f.served, a, f.served[b]);
  }

  // ---- The token gap ----

  /** The start times of the NPU-like services among the first `k`. */
  function NpuStarts(f: Fabric, k: nat): seq<real>
    requires k <= |f.served| && forall a :: 0 <= a < |f.served| ==> f.served[a] < |f.records|
  {
    if k == 0 then []
    else
      var r := f.records[f.served[k - 1]];
      NpuStarts(f, k - 1) + (if r.initiator == NPU then [r.start] else [])
  }

  lemma {:induction false} NpuStartsAreStarts(f: Fabric, k: nat, m: nat)
    requires k <= |f.served| && forall a :: 0 <= a < |f.served| ==> f.served[a] < |f.records|
    requires m < |NpuStarts(f, k)|
    ensures exists a :: 0 <= a < k && f.records[f.served[a]].initiator == NPU
                        && NpuStarts(f, k)[m] == f.records[f.served[a]].start
  {
    var shorter := NpuStarts(f, k - 1);
    if m < |shorter| {
      NpuStartsAreStarts(f, k - 1, m);
    } else {
      assert f.records[f.served[k - 1]].initiator == NPU;
    }
  }

  lemma NpuSpaced(spec: CaseSpec, f: Fabric, k: nat)
    requires Inv(spec, f) && spec.tokenGap > 0.0 && k < |f.served| && f.records[f.served[k]].initiator == NPU
    ensures forall m :: 0 <= m < |NpuStarts(f, k)| ==>
              NpuStarts(f, k)[m] + spec.tokenGap <= f.records[f.served[k]].start
  {
    assert Entry(spec, f.records, f.served, k);
    forall m | 0 <= m < |NpuStarts(f, k)|
      ensures NpuStarts(f, k)[m] + spec.tokenGap <= f.records[f.served[k]].start
    {
      NpuStartsAreStarts(f, k, m);
    }
  }

  function Gaps(n: nat, gap: real): real {
    n as real * gap
  }

  lemma OneMore(n: nat, gap: real)
    ensures Gaps(0, gap) == 0.0 && Gaps(n + 1, gap) == Gaps(n, gap) + gap
  {
  }

  lemma {:induction false} StartsSpread(spec: CaseSpec, f: Fabric, k: nat, i: nat, j: nat)
    requires Inv(spec, f) && spec.tokenGap > 0.0 && k <= |f.served|
    requires i <= j < |NpuStarts(f, k)|
    ensures Gaps(j - i, spec.tokenGap) <= NpuStarts(f, k)[j] - NpuStarts(f, k)[i]
  {
    hide Inv, Entry, Gaps;
    InvImpliesLog(spec, f);
    var shorter := NpuStarts(f, k - 1);
    if j < |shorter| {
      StartsSpread(spec, f, k - 1, i, j);
    } else if i < j {
      StartsSpread(spec, f, k - 1, i, j - 1);
      NpuSpaced(spec, f, k - 1);
      OneMore(j - 1 - i, spec.tokenGap);
    } else {
      OneMore(0, spec.tokenGap);
    }
  }

  /** With a gap `g`, the i-th and j-th NPU-like services start at least
      (j - i) g apart. */
  lemma TokenRate(spec: CaseSpec, f: Fabric, k: nat, i: nat, j: nat)
    requires Inv(spec, f) && spec.tokenGap > 0.0 && k <= |f.served|
    requires i <= j < |NpuStarts(f, k)|
    ensures (j - i) as real * spec.tokenGap <= NpuStarts(f, k)[j] - NpuStarts(f, k)[i]
  {
    hide Inv, NpuStarts;
    StartsSpread(spec, f, k, i, j);
  }

  /** How many of the times lie between two instants. */
  function CountBetween(times: seq<real>, from: real, to: real): nat {
    if |times| == 0 then 0
    else CountBetween(times[..|times| - 1], from, to) + (if from <= times[|times| - 1] <= to then 1 else 0)
  }

  /** Times within a window are at most those from its first to its last. */
  lemma {:induction false} FirstAndLast(times: seq<real>, from: real, to: real) returns (i: nat, j: nat)
    requires CountBetween(times, from, to) > 0
    ensures i <= j < |times| && from <= times[i] <= to && from <= times[j] <= to
    ensures CountBetween(times, from, to) <= j - i + 1
  {
    var n := |times| - 1;
    if CountBetween(times[..n], from, to) > 0 {
      i, j := FirstAndLast(times[..n], from, to);
      if from <= times[n] <= to {
        j := n;
      }
    } else {
      i, j := n, n;
    }
  }

  /** The gaps that fit into a window, and one more. */
  function MostStarts(length: real, gap: real): int
    requires gap > 0.0
  {
    (length / gap).Floor + 1
  }

  /** The cap the token gap is for: at any moment of a run, a window of length L holds
      at most floor(L / g) + 1 NPU-like starts. */
  lemma TokenWindow(spec: CaseSpec, f: Fabric, from: real, to: real)
    requires Inv(spec, f) && spec.tokenGap > 0.0 && from <= to
    ensures CountBetween(NpuStarts(f, |f.served|), from, to) <= MostStarts(to - from, spec.tokenGap)
  {
    InvImpliesLog(spec, f);
    hide Inv, Entry, NpuStarts, CountBetween, Gaps, MostStarts;
    var starts := NpuStarts(f, |f.served|);
    forall i, j | 0 <= i <= j < |starts| ensures Gaps(j - i, spec.tokenGap) <= starts[j] - starts[i] {
      StartsSpread(spec, f, |f.served|, i, j);
    }
    FewInWindow(starts, spec.tokenGap, from, to);
  }

  lemma FewInWindow(starts: seq<real>, gap: real, from: real, to: real)
    requires gap > 0.0 && from <= to
    requires forall i, j :: 0 <= i <= j < |starts| ==> Gaps(j - i, gap) <= starts[j] - starts[i]
    ensures CountBetween(starts, from, to) <= MostStarts(to - from, gap)
  {
    hide CountBetween, Gaps, MostStarts;
    if CountBetween(starts, from, to) > 0 {
      var i, j := FirstAndLast(starts, from, to);
      AtMostQuotient(j - i, to - from, gap);
    } else {
      OneMore(0, gap);
      AtMostQuotient(0, to - from, gap);
    }
  }

  lemma AtMostQuotient(n: nat, length: real, gap: real)
    requires gap > 0.0 && Gaps(n, gap) <= length
    ensures n + 1 <= MostStarts(length, gap)
  {
    QuotientOf(length, gap);
    ScaledLess(length / gap, n as real, gap);
    assert Scaled(n as real, gap) == Gaps(n, gap);
    hide Scaled, Gaps;
  }

  function Scaled(x: real, gap: real): real { x * gap }

  lemma QuotientOf(length: real, gap: real)
    requires gap > 0.0
    ensures Scaled(length / gap, gap) == length
  {
  }

  lemma ScaledLess(x: real, y: real, gap: real)
    requires gap > 0.0
    ensures x < y ==> Scaled(x, gap) < Scaled(y, gap)
  {
  }

  /** What a log lets its readers index. */
  lemma InvImpliesLog(spec: CaseSpec, f: Fabric)
    requires Inv(spec, f)
    ensures forall a :: 0 <= a < |f.served| ==> f.served[a] < |f.records|
    ensures forall a, b :: 0 <= a < b < |f.served| ==> f.served[a] != f.served[b]
    ensures forall i :: 0 <= i < |f.records| ==> f.records[i].initiator < INITIATORS && f.records[i].service >= 0.0
    ensures forall k :: 0 <= k < |f.served| ==> Entry(spec, f.records, f.served, k)
    ensures forall a :: 0 <= a < |f.served| ==> 0.0 <= f.records[f.served[a]].issue <= f.records[f.served[a]].start
  {
    forall a | 0 <= a < |f.served|
      ensures 0.0 <= f.records[f.served[a]].issue <= f.records[f.served[a]].start
    {
      assert Entry(spec, f.records, f.served, a);
    }
  }

  // ---- Round robin ----

  /** One turn closer: a service given to another initiator strictly reduces the
      turns left for one that waits. */
  lemma TurnShrinks(last: nat, served: nat, waiting: nat)
    requires last < INITIATORS && served < INITIATORS && waiting < INITIATORS && served != waiting
    requires Turn(last, served) <= Turn(last, waiting)
    ensures Turn(served, waiting) < Turn(last, waiting)
  {
  }

  /** Bounded waiting: once a prompt record has arrived, at most three other
      services start before its initiator is served. */
  lemma RoundRobinWait(spec: CaseSpec, input: seq<Record>, f: Fabric, i: nat, k: nat)
    requires RunDone(spec, input, f) && spec.policy == RoundRobin
    requires i < |f.records| && Prompt(spec, f.records[i])
    requires k < |f.served| && Waiting(f.served, k, i) && f.records[i].issue <= f.records[f.served[k]].start
    ensures exists m :: k <= m < |f.served| && m < k + INITIATORS
                        && f.records[f.served[m]].initiator == f.records[i].initiator
  {
    ServedExactlyOnce(spec, input, f, i);
    var m :| 0 <= m < |f.served| && f.served[m] == i;
    assert forall a :: 0 <= a < k ==> f.served[..k][a] == f.served[a];
    if k + INITIATORS <= |f.served|
       && forall m :: k <= m < k + INITIATORS ==> f.records[f.served[m]].initiator != f.records[i].initiator {
      TurnsLeft(spec, f, i, k, INITIATORS);
    }
  }

  lemma {:induction false} TurnsLeft(spec: CaseSpec, f: Fabric, i: nat, k: nat, n: nat)
    requires Inv(spec, f) && spec.policy == RoundRobin
    requires i < |f.records| && Prompt(spec, f.records[i])
    requires k + n <= |f.served| && 0 < n && Waiting(f.served, k, i)
    requires f.records[i].issue <= f.records[f.served[k]].start
    requires forall m :: k <= m < k + n ==> f.records[f.served[m]].initiator != f.records[i].initiator
    ensures Turn(PreviousTurn(f.records, f.served, k + n), f.records[i].initiator) + n
            <= Turn(PreviousTurn(f.records, f.served, k), f.records[i].initiator)
  {
    hide Inv, Turn, Entry, PreviousTurn, Prompt;
    InvImpliesLog(spec, f);
    var x := f.records[i].initiator;
    var m := k + n - 1;
    if n > 1 {
      TurnsLeft(spec, f, i, k, n - 1);
    }
    StillWaiting(spec, f, i, k, m);
    NearestTurnFor(spec, f, m, i);
    assert PreviousTurn(f.records, f.served, m + 1) == f.records[f.served[m]].initiator by {
      TurnPassed(f, m);
    }
    assert PreviousTurn(f.records, f.served, m) < INITIATORS by {
      TurnInRange(spec, f, m);
    }
    TurnShrinks(PreviousTurn(f.records, f.served, m), f.records[f.served[m]].initiator, x);
  }

  lemma TurnPassed(f: Fabric, m: nat)
    requires m < |f.served| && forall a :: 0 <= a < |f.served| ==> f.served[a] < |f.records|
    ensures PreviousTurn(f.records, f.served, m + 1) == f.records[f.served[m]].initiator
  {
  }

  lemma TurnInRange(spec: CaseSpec, f: Fabric, m: nat)
    requires Inv(spec, f) && m <= |f.served|
    ensures PreviousTurn(f.records, f.served, m) < INITIATORS
  {
    hide Entry, Clock;
  }

  /** The turn of the m-th service is no farther than that of a waiting prompt record. */
  lemma NearestTurnFor(spec: CaseSpec, f: Fabric, m: nat, i: nat)
    requires Inv(spec, f) && spec.policy == RoundRobin && m < |f.served| && i < |f.records|
    requires Prompt(spec, f.records[i]) && Waiting(f.served, m, i)
    requires f.records[i].issue <= f.records[f.served[m]].start
    ensures Turn(PreviousTurn(f.records, f.served, m), f.records[f.served[m]].initiator)
            <= Turn(PreviousTurn(f.records, f.served, m), f.records[i].initiator)
  {
    hide Inv, Turn, PreviousTurn, TimesRight, NeverIdle, OldestFirst, ByPriority, TokenSpaced, TokenAt;
    InvImpliesLog(spec, f);
    assert Entry(spec, f.records, f.served, m);
    assert HeldUntil(spec, f.records, f.served, m, i) == 0.0;
  }

  lemma StillWaiting(spec: CaseSpec, f: Fabric, i: nat, k: nat, m: nat)
    requires Inv(spec, f) && k <= m < |f.served| && i < |f.records| && Waiting(f.served, k, i)
    requires forall j :: k <= j < m ==> f.records[f.served[j]].initiator != f.records[i].initiator
    ensures Waiting(f.served, m, i)
    ensures f.records[f.served[k]].start <= f.records[f.served[m]].start
  {
    assert forall a :: 0 <= a < k ==> f.served[..k][a] == f.served[a];
    if k < m {
      ServicesDisjoint(spec, f, k, m);
      assert Entry(spec, f.records, f.served, k);
    }
  }

  // ---- Latency priority ----

  /** The service time of positions `from` to `to` of the log. */
  function ServiceBetween(f: Fabric, from: nat, to: nat): real
    requires from <= to <= |f.served| && forall a :: 0 <= a < |f.served| ==> f.served[a] < |f.records|
  {
    if from == to then 0.0 else ServiceBetween(f, from, to - 1) + f.records[f.served[to - 1]].service
  }

  /** The bound of a non-preemptive priority server, under both orders and for every
      record that no token can hold back.  It waits for the service in progress when it
      is issued, if any, and then only for records that stand no lower, older ones if
      they are of the same initiator; in between the server never idles. */
  lemma PriorityWait(spec: CaseSpec, f: Fabric, b: nat) returns (a: nat)
    requires Inv(spec, f) && spec.policy != RoundRobin && b < |f.served|
    requires Prompt(spec, f.records[f.served[b]])
    ensures a <= b
    ensures a > 0 ==> f.records[f.served[a - 1]].start < f.records[f.served[b]].issue
    ensures forall k :: a <= k < b ==> StandsAhead(spec, f, k, b)
    ensures f.records[f.served[b]].start
            == Max(f.records[f.served[b]].issue, PreviousEnd(f.records, f.served, a)) + ServiceBetween(f, a, b)
  {
    hide Inv, Entry, StandsAhead;
    InvImpliesLog(spec, f);
    a := b;
    var c := f.served[b];
    while a > 0 && f.records[c].issue <= f.records[f.served[a - 1]].start
      invariant a <= b
      invariant forall k :: a <= k < b ==> StandsAhead(spec, f, k, b)
      invariant forall k :: a <= k < b ==> f.records[c].issue <= f.records[f.served[k]].start
    {
      a := a - 1;
      OnlyHigherAhead(spec, f, a, b);
    }
    BackToBack(spec, f, a, b, b);
  }

  /** The k-th service is of an initiator that stands no lower than that of the b-th,
      and of an older record if it is the same. */
  predicate StandsAhead(spec: CaseSpec, f: Fabric, k: nat, b: nat)
    requires k < |f.served| && b < |f.served| && forall a :: 0 <= a < |f.served| ==> f.served[a] < |f.records|
  {
    var x, y := f.records[f.served[k]].initiator, f.records[f.served[b]].initiator;
    Standing(spec.policy, x) <= Standing(spec.policy, y) && (x == y ==> f.served[k] < f.served[b])
  }

  /** A CPU-like record waits only for older CPU-like ones. */
  lemma CpuWait(spec: CaseSpec, f: Fabric, b: nat) returns (a: nat)
    requires Inv(spec, f) && spec.policy != RoundRobin && b < |f.served|
    requires f.records[f.served[b]].initiator == CPU
    ensures a <= b
    ensures a > 0 ==> f.records[f.served[a - 1]].start < f.records[f.served[b]].issue
    ensures forall k :: a <= k < b ==> f.records[f.served[k]].initiator == CPU && f.served[k] < f.served[b]
    ensures f.records[f.served[b]].start
            == Max(f.records[f.served[b]].issue, PreviousEnd(f.records, f.served, a)) + ServiceBetween(f, a, b)
  {
    hide Inv;
    InvImpliesLog(spec, f);
    a := PriorityWait(spec, f, b);
    forall k | a <= k < b
      ensures f.records[f.served[k]].initiator == CPU && f.served[k] < f.served[b]
    {
      assert StandsAhead(spec, f, k, b);
    }
  }

  /** An ISP-like record, second in both orders, waits only for CPU-like records and
      older ISP-like ones. */
  lemma IspWait(spec: CaseSpec, f: Fabric, b: nat) returns (a: nat)
    requires Inv(spec, f) && spec.policy != RoundRobin && b < |f.served|
    requires f.records[f.served[b]].initiator == ISP
    ensures a <= b
    ensures a > 0 ==> f.records[f.served[a - 1]].start < f.records[f.served[b]].issue
    ensures forall k :: a <= k < b ==>
              f.records[f.served[k]].initiator == CPU
              || (f.records[f.served[k]].initiator == ISP && f.served[k] < f.served[b])
    ensures f.records[f.served[b]].start
            == Max(f.records[f.served[b]].issue, PreviousEnd(f.records, f.served, a)) + ServiceBetween(f, a, b)
  {
    hide Inv;
    InvImpliesLog(spec, f);
    a := PriorityWait(spec, f, b);
    forall k | a <= k < b
      ensures f.records[f.served[k]].initiator == CPU
              || (f.records[f.served[k]].initiator == ISP && f.served[k] < f.served[b])
    {
      assert StandsAhead(spec, f, k, b);
    }
  }

  /** The two orders differ for the DMA-like initiator: capped, it does not wait for the
      NPU-like one. */
  lemma CappedDmaWait(spec: CaseSpec, f: Fabric, b: nat) returns (a: nat)
    requires Inv(spec, f) && spec.policy == CappedPriority && b < |f.served|
    requires f.records[f.served[b]].initiator == DMA
    ensures a <= b
    ensures a > 0 ==> f.records[f.served[a - 1]].start < f.records[f.served[b]].issue
    ensures forall k :: a <= k < b ==> f.records[f.served[k]].initiator != NPU
    ensures f.records[f.served[b]].start
            == Max(f.records[f.served[b]].issue, PreviousEnd(f.records, f.served, a)) + ServiceBetween(f, a, b)
  {
    hide Inv;
    InvImpliesLog(spec, f);
    a := PriorityWait(spec, f, b);
    forall k | a <= k < b
      ensures f.records[f.served[k]].initiator != NPU
    {
      assert StandsAhead(spec, f, k, b);
    }
  }

  /** What starts while the record waits stands no lower. */
  lemma OnlyHigherAhead(spec: CaseSpec, f: Fabric, a: nat, b: nat)
    requires Inv(spec, f) && spec.policy != RoundRobin && a < b < |f.served|
    requires Prompt(spec, f.records[f.served[b]])
    requires f.records[f.served[b]].issue <= f.records[f.served[a]].start
    ensures StandsAhead(spec, f, a, b)
  {
    hide Standing, Inv, NeverIdle, NearestTurn, TokenSpaced, TimesRight, TokenAt;
    InvImpliesLog(spec, f);
    assert HeldUntil(spec, f.records, f.served, a, f.served[b]) == 0.0;
    assert Entry(spec, f.records, f.served, a);
    assert forall x :: 0 <= x < a ==> f.served[..a][x] == f.served[x];
    assert Waiting(f.served, a, f.served[b]);
  }

  lemma {:induction false} BackToBack(spec: CaseSpec, f: Fabric, a: nat, m: nat, b: nat)
    requires Inv(spec, f) && spec.policy != RoundRobin && a <= m <= b < |f.served|
    requires Prompt(spec, f.records[f.served[b]])
    requires forall k :: a <= k < b ==> f.records[f.served[b]].issue <= f.records[f.served[k]].start
    ensures f.records[f.served[m]].start
            == Max(f.records[f.served[b]].issue, PreviousEnd(f.records, f.served, a)) + ServiceBetween(f, a, m)
  {
    hide Inv, Entry, Prompt;
    InvImpliesLog(spec, f);
    PromptBounds(spec, f, m, b);
    if m > a {
      BackToBack(spec, f, a, m - 1, b);
      PromptBounds(spec, f, m - 1, b);
    }
  }

  /** No service up to the prompt record's own starts later than it could have. */
  lemma PromptBounds(spec: CaseSpec, f: Fabric, m: nat, b: nat)
    requires Inv(spec, f) && m <= b < |f.served| && Prompt(spec, f.records[f.served[b]])
    ensures var r := f.records[f.served[m]];
            && PreviousEnd(f.records, f.served, m) <= r.start
            && r.start <= Max(PreviousEnd(f.records, f.served, m), f.records[f.served[b]].issue)
            && r.end == r.start + r.service && r.issue <= r.start
  {
    var c := f.served[b];
    assert Entry(spec, f.records, f.served, m);
    assert forall x :: 0 <= x < m ==> f.served[..m][x] != c;
    assert Waiting(f.served, m, c);
  }
}
