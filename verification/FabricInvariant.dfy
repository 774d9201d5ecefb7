/** What every step of the AT-6 scheduler keeps, for every policy. */
module FabricInvariant {
  import opened SimTime
  import opened FabricModel

  // ---- The service log ----

  /** The end of the service before the k-th. */
  function PreviousEnd(records: seq<Record>, served: seq<nat>, k: nat): real
    requires k <= |served| && forall a :: 0 <= a < |served| ==> served[a] < |records|
  {
    if k == 0 then 0.0 else records[served[k - 1]].end
  }

  /** The initiator of the service before the k-th. */
  function PreviousTurn(records: seq<Record>, served: seq<nat>, k: nat): nat
    requires k <= |served| && forall a :: 0 <= a < |served| ==> served[a] < |records|
  {
    if k == 0 then INITIATORS - 1 else records[served[k - 1]].initiator
  }

  /** How many initiators a round starting after `last` tries before `initiator`. */
  function Turn(last: nat, initiator: nat): nat {
    (initiator + INITIATORS - 1 - last) % INITIATORS
  }

  /** No token can hold this record back. */
  predicate Prompt(spec: CaseSpec, r: Record) {
    spec.tokenGap <= 0.0 || r.initiator != NPU
  }

  /** Index `i` was not among the first `k` services. */
  predicate Waiting(served: seq<nat>, k: nat, i: nat)
    requires k <= |served|
  {
    i !in served[..k]
  }

  /** When the next NPU-like service may start after the first `k` services: one gap after
      the last one started. */
  function TokenAt(spec: CaseSpec, records: seq<Record>, served: seq<nat>, k: nat): real
    requires k <= |served| && forall a :: 0 <= a < |served| ==> served[a] < |records|
  {
    if k == 0 then 0.0
    else if spec.tokenGap > 0.0 && records[served[k - 1]].initiator == NPU
    then records[served[k - 1]].start + spec.tokenGap
    else TokenAt(spec, records, served, k - 1)
  }

  /** Until when the token holds record `i` back. */
  function HeldUntil(spec: CaseSpec, records: seq<Record>, served: seq<nat>, k: nat, i: nat): real
    requires k <= |served| && i < |records| && forall a :: 0 <= a < |served| ==> served[a] < |records|
  {
    if Prompt(spec, records[i]) then 0.0 else TokenAt(spec, records, served, k)
  }

  lemma {:induction false} TokenAtSame(spec: CaseSpec, xs: seq<Record>, ys: seq<Record>, served: seq<nat>,
                                       longer: seq<nat>, k: nat)
    requires k <= |served| && |xs| == |ys| && served <= longer
    requires forall a :: 0 <= a < |longer| ==> longer[a] < |xs|
    requires forall a :: 0 <= a < k ==>
               xs[served[a]].start == ys[served[a]].start && xs[served[a]].initiator == ys[served[a]].initiator
    ensures TokenAt(spec, xs, served, k) == TokenAt(spec, ys, longer, k)
  {
    if k == 0 {
    } else {
      TokenAtSame(spec, xs, ys, served, longer, k - 1);
    }
  }

  /** The server never idles while a record waits that no token holds back. */
  predicate NeverIdle(spec: CaseSpec, records: seq<Record>, served: seq<nat>, k: nat)
    requires k < |served| && forall a :: 0 <= a < |served| ==> served[a] < |records|
  {
    forall i :: 0 <= i < |records| && Waiting(served, k, i)
                ==> records[served[k]].start
                    <= Max(Max(PreviousEnd(records, served, k), records[i].issue),
                           HeldUntil(spec, records, served, k, i))
  }

  /** Each initiator is served in issue order. */
  predicate OldestFirst(records: seq<Record>, served: seq<nat>, k: nat)
    requires k < |served| && forall a :: 0 <= a < |served| ==> served[a] < |records|
  {
    forall i :: 0 <= i < |records| && Waiting(served, k, i) && records[i].initiator == records[served[k]].initiator
                ==> served[k] <= i
  }

  /** Where an initiator stands in the two priority orders. */
  function Standing(policy: Policy, initiator: nat): nat {
    if initiator == CPU then 0
    else if initiator == ISP then 1
    else if initiator == (if policy == CappedPriority then DMA else NPU) then 2
    else 3
  }

  /** Under the priority orders nothing that stands lower starts while a record waits
      that no token holds back. */
  predicate ByPriority(spec: CaseSpec, records: seq<Record>, served: seq<nat>, k: nat)
    requires k < |served| && forall a :: 0 <= a < |served| ==> served[a] < |records|
  {
    spec.policy != RoundRobin ==>
      forall i :: 0 <= i < |records| && Waiting(served, k, i)
                  && HeldUntil(spec, records, served, k, i) <= records[served[k]].start
                  && records[i].issue <= records[served[k]].start
                  ==> Standing(spec.policy, records[served[k]].initiator)
                      <= Standing(spec.policy, records[i].initiator)
  }

  /** Under round robin the turn passes to the nearest initiator that can be served. */
  predicate NearestTurn(spec: CaseSpec, records: seq<Record>, served: seq<nat>, k: nat)
    requires k < |served| && forall a :: 0 <= a < |served| ==> served[a] < |records|
  {
    spec.policy == RoundRobin ==>
      forall i :: 0 <= i < |records| && Waiting(served, k, i)
                  && HeldUntil(spec, records, served, k, i) <= records[served[k]].start
                  && records[i].issue <= records[served[k]].start
                  ==> Turn(PreviousTurn(records, served, k), records[served[k]].initiator)
                      <= Turn(PreviousTurn(records, served, k), records[i].initiator)
  }

  /** With a token gap, NPU-like services start at least one gap apart. */
  predicate TokenSpaced(spec: CaseSpec, records: seq<Record>, served: seq<nat>, k: nat)
    requires k < |served| && forall a :: 0 <= a < |served| ==> served[a] < |records|
  {
    spec.tokenGap > 0.0 && records[served[k]].initiator == NPU ==>
      forall a :: 0 <= a < k && records[served[a]].initiator == NPU
                  ==> records[served[a]].start + spec.tokenGap <= records[served[k]].start
  }

  predicate TimesRight(records: seq<Record>, served: seq<nat>, k: nat)
    requires k < |served| && forall a :: 0 <= a < |served| ==> served[a] < |records|
  {
    var r := records[served[k]];
    && Max(PreviousEnd(records, served, k), r.issue) <= r.start
    && r.end == r.start + r.service
    && r.serviceDelay == r.service
    && r.queueDelay == r.start - r.issue
    && r.latency == r.end - r.issue
  }

  predicate Entry(spec: CaseSpec, records: seq<Record>, served: seq<nat>, k: nat)
    requires k < |served| && forall a :: 0 <= a < |served| ==> served[a] < |records|
  {
    && TimesRight(records, served, k)
    && NeverIdle(spec, records, served, k)
    && OldestFirst(records, served, k)
    && ByPriority(spec, records, served, k)
    && NearestTurn(spec, records, served, k)
    && TokenSpaced(spec, records, served, k)
  }

  // ---- The invariant ----

  /** Every record is waiting to arrive, pending or served, and only one of these. */
  predicate Exact(f: Fabric) {
    && Shape(f)
    && (forall q :: 0 <= q < |f.pending| ==> f.pending[q] < f.next)
    && (forall p, q :: 0 <= p < q < |f.pending| ==> f.pending[p] < f.pending[q])
    && (forall k :: 0 <= k < |f.served| ==> f.served[k] < f.next)
    && (forall a, b :: 0 <= a < b < |f.served| ==> f.served[a] != f.served[b])
    && (forall q :: 0 <= q < |f.pending| ==> f.pending[q] !in f.served)
    && (forall i :: 0 <= i < f.next ==> i in f.served || i in f.pending)
    && |f.served| + |f.pending| == f.next
    && |f.pending| <= f.queuePeak
  }

  predicate Clock(spec: CaseSpec, f: Fabric)
    requires Exact(f)
  {
    && f.time >= 0.0
    && (forall i :: 0 <= i < f.next ==> f.records[i].issue <= f.time)
    && PreviousEnd(f.records, f.served, |f.served|) <= f.time
    && f.token == TokenAt(spec, f.records, f.served, |f.served|)
    && (forall i :: 0 <= i < |f.records| && i !in f.served
                    ==> f.time <= Max(Max(PreviousEnd(f.records, f.served, |f.served|), f.records[i].issue),
                                      HeldUntil(spec, f.records, f.served, |f.served|, i)))
    && (spec.policy == RoundRobin ==> f.lastTurn == PreviousTurn(f.records, f.served, |f.served|))
    && (spec.tokenGap > 0.0 ==>
          forall a :: 0 <= a < |f.served| && f.records[f.served[a]].initiator == NPU
                      ==> f.records[f.served[a]].start + spec.tokenGap <= f.token)
  }

  predicate Inv(spec: CaseSpec, f: Fabric) {
    && InputValid(f.records)
    && Exact(f)
    && Clock(spec, f)
    && (forall k :: 0 <= k < |f.served| ==> Entry(spec, f.records, f.served, k))
  }

  /** The fields the scheduler only reads. */
  predicate SameInput(xs: seq<Record>, ys: seq<Record>) {
    && |xs| == |ys|
    && (forall i :: 0 <= i < |xs| ==>
          xs[i].requestId == ys[i].requestId && xs[i].initiator == ys[i].initiator
          && xs[i].issue == ys[i].issue && xs[i].service == ys[i].service)
  }

  // ---- Selection ----

  lemma {:induction false} PositionFromIsFirst(spec: CaseSpec, f: Fabric, initiator: nat, pos: nat)
    requires Shape(f) && pos <= |f.pending|
    ensures var p := PositionFrom(spec, f, initiator, pos);
            && pos <= p
            && (forall q :: pos <= q < p && f.records[f.pending[q]].initiator == initiator
                            ==> !TokenReady(spec, initiator, f.time, f.token))
            && (p < |f.pending| ==> f.records[f.pending[p]].initiator == initiator
                                    && TokenReady(spec, initiator, f.time, f.token))
    decreases |f.pending| - pos
  {
    if pos < |f.pending|
       && !(f.records[f.pending[pos]].initiator == initiator && TokenReady(spec, initiator, f.time, f.token)) {
      PositionFromIsFirst(spec, f, initiator, pos + 1);
    }
  }

  /** Whether the record at a pending position could be served now. */
  predicate Eligible(spec: CaseSpec, f: Fabric, q: nat)
    requires Shape(f) && q < |f.pending|
  {
    TokenReady(spec, f.records[f.pending[q]].initiator, f.time, f.token)
  }

  /** Where in an order the initiator stands. */
  function Rank(order: seq<nat>, initiator: nat): nat {
    if |order| == 0 || order[0] == initiator then 0 else 1 + Rank(order[1..], initiator)
  }

  /** No eligible position has an initiator that stands earlier in the order. */
  predicate NoneEarlier(spec: CaseSpec, f: Fabric, order: seq<nat>, chosen: nat)
    requires Shape(f)
  {
    forall q :: 0 <= q < |f.pending| && Eligible(spec, f, q) && f.records[f.pending[q]].initiator in order ==>
                  Rank(order, chosen) <= Rank(order, f.records[f.pending[q]].initiator)
  }

  predicate NoneEligible(spec: CaseSpec, f: Fabric, order: seq<nat>)
    requires Shape(f)
  {
    forall q :: 0 <= q < |f.pending| && f.records[f.pending[q]].initiator in order ==> !Eligible(spec, f, q)
  }

  /** The chosen position is eligible, the oldest of its initiator, and no
      eligible position has an initiator earlier in the order. */
  lemma {:induction false} SelectInOrderIsBest(spec: CaseSpec, f: Fabric, order: seq<nat>)
    requires Shape(f)
    ensures var p := SelectInOrder(spec, f, order);
            && (p < |f.pending| ==>
                  var chosen := f.records[f.pending[p]].initiator;
                  && Eligible(spec, f, p)
                  && (forall q :: 0 <= q < p ==> f.records[f.pending[q]].initiator != chosen)
                  && NoneEarlier(spec, f, order, chosen))
            && (p == |f.pending| ==> NoneEligible(spec, f, order))
  {
    if |order| == 0 {
    } else {
      PositionFromIsFirst(spec, f, order[0], 0);
      SelectInOrderIsBest(spec, f, order[1..]);
      assert forall i :: i in order ==> i == order[0] || i in order[1..];
    }
  }

  lemma RoundRobinRank(last: nat, initiator: nat)
    requires last < INITIATORS && initiator < INITIATORS
    ensures var order := TryOrder(RoundRobin, last);
            initiator in order && Rank(order, initiator) == Turn(last, initiator)
  {
    var order := TryOrder(RoundRobin, last);
    var second, third, fourth := order[1..], order[1..][1..], order[1..][1..][1..];
    assert fourth == [last];
    assert Rank(third, initiator) == if third[0] == initiator then 0 else 1 + Rank(fourth, initiator);
    assert Rank(second, initiator) == if second[0] == initiator then 0 else 1 + Rank(third, initiator);
    assert initiator == order[0] || initiator == order[1] || initiator == order[2] || initiator == order[3];
  }

  lemma PriorityRank(policy: Policy, last: nat, initiator: nat)
    requires policy != RoundRobin && initiator < INITIATORS
    ensures var order := TryOrder(policy, last);
            initiator in order && Rank(order, initiator) == Standing(policy, initiator)
  {
    var order := TryOrder(policy, last);
    var second, third, fourth := order[1..], order[1..][1..], order[1..][1..][1..];
    assert fourth == [order[3]] && third[0] == order[2] && second[0] == order[1];
    assert Rank(third, initiator) == if third[0] == initiator then 0 else 1 + Rank(fourth, initiator);
    assert Rank(second, initiator) == if second[0] == initiator then 0 else 1 + Rank(third, initiator);
    assert initiator == order[0] || initiator == order[1] || initiator == order[2] || initiator == order[3];
  }

  /** What the policies promise of the position they select: it is eligible and the
      oldest of its initiator, and its initiator is the first in the policy's order of
      those eligible. */
  lemma SelectIsBest(spec: CaseSpec, f: Fabric)
    requires Shape(f) && InputValid(f.records)
    ensures var p := Select(spec, f);
            && (p == |f.pending| ==> forall q :: 0 <= q < |f.pending| ==> !Eligible(spec, f, q))
            && (p < |f.pending| ==>
                  var chosen := f.records[f.pending[p]].initiator;
                  && Eligible(spec, f, p)
                  && (forall q :: 0 <= q < p ==> f.records[f.pending[q]].initiator != chosen)
                  && (spec.policy != RoundRobin ==>
                        forall q :: 0 <= q < |f.pending| && Eligible(spec, f, q) ==>
                          Standing(spec.policy, chosen) <= Standing(spec.policy, f.records[f.pending[q]].initiator))
                  && (spec.policy == RoundRobin ==>
                        forall q :: 0 <= q < |f.pending| && Eligible(spec, f, q) ==>
                          Turn(f.lastTurn, chosen) <= Turn(f.lastTurn, f.records[f.pending[q]].initiator)))
  {
    hide Standing, Turn, SelectInOrder, Rank;
    var order := TryOrder(spec.policy, f.lastTurn);
    SelectInOrderIsBest(spec, f, order);
    forall q | 0 <= q < |f.pending|
      ensures var i := f.records[f.pending[q]].initiator;
              && i in order
              && (spec.policy == RoundRobin ==> Rank(order, i) == Turn(f.lastTurn, i))
              && (spec.policy != RoundRobin ==> Rank(order, i) == Standing(spec.policy, i))
    {
      var i := f.records[f.pending[q]].initiator;
      if spec.policy == RoundRobin {
        RoundRobinRank(f.lastTurn, i);
      } else {
        PriorityRank(spec.policy, f.lastTurn, i);
      }
    }
  }

  // ---- Enqueueing ----

  lemma EntryDependsOnInput(spec: CaseSpec, xs: seq<Record>, ys: seq<Record>, served: seq<nat>, k: nat)
    requires k < |served| && |xs| == |ys|
    requires forall a :: 0 <= a < |served| ==> served[a] < |xs|
    requires SameInput(xs, ys)
    requires forall a :: 0 <= a <= k ==>
               xs[served[a]].start == ys[served[a]].start && xs[served[a]].end == ys[served[a]].end
               && xs[served[a]].queueDelay == ys[served[a]].queueDelay && xs[served[a]].latency == ys[served[a]].latency
               && xs[served[a]].serviceDelay == ys[served[a]].serviceDelay
    requires Entry(spec, xs, served, k)
    ensures Entry(spec, ys, served, k)
  {
    assert PreviousEnd(xs, served, k) == PreviousEnd(ys, served, k);
    assert PreviousTurn(xs, served, k) == PreviousTurn(ys, served, k);
    TokenAtSame(spec, xs, ys, served, served, k);
    hide TokenAt, Standing, Turn;
    assert forall i :: 0 <= i < |xs| ==> HeldUntil(spec, xs, served, k, i) == HeldUntil(spec, ys, served, k, i);
  }

  lemma EnqueueNextKeepsExact(f: Fabric)
    requires Exact(f) && NextIsReady(f)
    ensures Exact(EnqueueNext(f))
  {
    var g := EnqueueNext(f);
    forall i | 0 <= i < g.next ensures i in g.served || i in g.pending {
      if i < f.next && i !in f.served {
        var q :| 0 <= q < |f.pending| && f.pending[q] == i;
        assert g.pending[q] == i;
      }
    }
  }

  lemma EnqueueNextKeepsClock(spec: CaseSpec, f: Fabric)
    requires Exact(f) && Clock(spec, f) && NextIsReady(f) && Exact(EnqueueNext(f))
    ensures Clock(spec, EnqueueNext(f))
  {
    var g := EnqueueNext(f);
    TokenAtSame(spec, f.records, g.records, f.served, f.served, |f.served|);
    hide TokenAt;
  }

  lemma ExactLog(f: Fabric)
    requires Exact(f)
    ensures Shape(f) && forall a :: 0 <= a < |f.served| ==> f.served[a] < f.next
  {
  }

  lemma EnqueueNextKeeps(spec: CaseSpec, f: Fabric)
    requires Inv(spec, f) && NextIsReady(f)
    ensures Inv(spec, EnqueueNext(f)) && SameInput(f.records, EnqueueNext(f).records)
  {
    hide Entry, Exact, Clock;
    var g := EnqueueNext(f);
    EnqueueNextKeepsExact(f);
    EnqueueNextKeepsClock(spec, f);
    ExactLog(f);
    EnqueueNextIsSame(f);
    assert InputValid(g.records);
    hide EnqueueNext, InputValid;
    forall k | 0 <= k < |g.served| ensures Entry(spec, g.records, g.served, k) {
      EntryDependsOnInput(spec, f.records, g.records, g.served, k);
    }
  }

  /** Enqueueing writes only the depth found on arrival. */
  lemma EnqueueNextIsSame(f: Fabric)
    requires f.next < |f.records|
    ensures var g := EnqueueNext(f);
            && g.served == f.served && SameInput(f.records, g.records)
            && forall i :: 0 <= i < |f.records| ==>
                 && g.records[i].start == f.records[i].start && g.records[i].end == f.records[i].end
                 && g.records[i].queueDelay == f.records[i].queueDelay && g.records[i].latency == f.records[i].latency
                 && g.records[i].serviceDelay == f.records[i].serviceDelay
  {
  }

  /** The records have all arrived that are due. */
  predicate Arrived(f: Fabric) {
    !NextIsReady(f)
  }

  lemma {:induction false} EnqueueReadyKeeps(spec: CaseSpec, f: Fabric)
    requires Inv(spec, f)
    ensures var g := EnqueueReady(f);
            && Inv(spec, g) && Arrived(g) && SameInput(f.records, g.records)
            && g.time == f.time && g.served == f.served && g.token == f.token && f.next <= g.next
            && (NextIsReady(f) ==> |g.pending| > 0)
    decreases |f.records| - f.next
  {
    if NextIsReady(f) {
      EnqueueNextKeeps(spec, f);
      EnqueueReadyKeeps(spec, EnqueueNext(f));
    }
  }

  /** An idle server jumps to the next issue time: nobody is waiting before it. */
  lemma JumpKeeps(spec: CaseSpec, f: Fabric)
    requires Inv(spec, f) && Arrived(f) && |f.pending| == 0 && f.next < |f.records|
    ensures Inv(spec, f.(time := Max(f.time, f.records[f.next].issue)))
  {
    var g := f.(time := Max(f.time, f.records[f.next].issue));
    hide TokenAt;
    assert forall i :: 0 <= i < |f.records| && i !in f.served ==> f.next <= i;
  }

  lemma RefillKeeps(spec: CaseSpec, f: Fabric)
    requires Inv(spec, f)
    ensures var g := Refill(f);
            && Inv(spec, g) && Arrived(g) && SameInput(f.records, g.records)
            && g.served == f.served && g.token == f.token && EnqueueReady(f).next <= g.next
            && (|g.pending| == 0 ==> g.next == |g.records|)
            && (g.time == f.time || EnqueueReady(f).next < g.next)
  {
    hide Entry, Clock, Arrived;
    EnqueueReadyKeeps(spec, f);
    var g := EnqueueReady(f);
    if |g.pending| == 0 && g.next < |g.records| {
      JumpKeeps(spec, g);
      var jumped := g.(time := Max(g.time, g.records[g.next].issue));
      assert NextIsReady(jumped);
      EnqueueReadyKeeps(spec, jumped);
      EnqueueReadyKeeps(spec, EnqueueNext(jumped)) by { EnqueueNextKeeps(spec, jumped); }
    }
  }

  // ---- Stalling ----

  /** A record not yet served when `pos` is selected is pending or still to come. */
  lemma WaitingIsPendingOrLater(spec: CaseSpec, g: Fabric, i: nat)
    requires Inv(spec, g) && Arrived(g) && i < |g.records| && i !in g.served
    ensures (exists q :: 0 <= q < |g.pending| && g.pending[q] == i) || (g.next <= i && g.time < g.records[i].issue)
  {
    if i < g.next {
      assert i in g.pending;
    }
  }

  /** A stalled scheduler has only NPU-like records pending and wakes strictly later. */
  lemma WakeKeeps(spec: CaseSpec, g: Fabric)
    requires Inv(spec, g) && Arrived(g) && |g.pending| > 0 && Select(spec, g) == |g.pending|
    ensures Inv(spec, g.(time := WakeUp(g)))
    ensures g.time < WakeUp(g) <= g.token && spec.tokenGap > 0.0
    ensures WakeUp(g) == g.token || (g.next < |g.records| && WakeUp(g) == g.records[g.next].issue)
  {
    SelectIsBest(spec, g);
    assert !Eligible(spec, g, 0);
    WakeKeepsClock(spec, g);
    hide TokenAt, Clock, Exact, Entry, Standing, Turn;
  }

  lemma WakeKeepsClock(spec: CaseSpec, g: Fabric)
    requires InputValid(g.records) && Exact(g) && Clock(spec, g) && Arrived(g)
    requires forall q :: 0 <= q < |g.pending| ==> !Eligible(spec, g, q)
    requires Exact(g.(time := WakeUp(g))) && g.time < WakeUp(g)
    ensures Clock(spec, g.(time := WakeUp(g)))
  {
    hide TokenAt, PreviousEnd, PreviousTurn;
    var h := g.(time := WakeUp(g));
    forall i | 0 <= i < |g.records| && i !in g.served
      ensures h.time <= Max(g.records[i].issue, HeldUntil(spec, g.records, g.served, |g.served|, i))
    {
      if i < g.next {
        var q :| 0 <= q < |g.pending| && g.pending[q] == i;
        assert !Eligible(spec, g, q);
      }
    }
  }

  // ---- Serving ----

  lemma PendingExcept(pending: seq<nat>, pos: nat, i: nat)
    requires pos < |pending| && i in pending && i != pending[pos]
    ensures i in pending[..pos] + pending[pos + 1..]
  {
    var q :| 0 <= q < |pending| && pending[q] == i;
    var rest := pending[..pos] + pending[pos + 1..];
    if q < pos {
      assert rest[q] == i;
    } else {
      assert rest[q - 1] == i;
    }
  }

  lemma ServeKeepsPending(g: Fabric, pos: nat)
    requires Exact(g) && pos < |g.pending|
    ensures var rest := g.pending[..pos] + g.pending[pos + 1..];
            && (forall q :: 0 <= q < |rest| ==> rest[q] in g.pending && rest[q] != g.pending[pos])
            && (forall p, q :: 0 <= p < q < |rest| ==> rest[p] < rest[q])
  {
    var rest := g.pending[..pos] + g.pending[pos + 1..];
    forall q | 0 <= q < |rest| ensures rest[q] == g.pending[if q < pos then q else q + 1] {
    }
  }

  lemma ServeKeepsExact(spec: CaseSpec, g: Fabric, pos: nat)
    requires InputValid(g.records) && Exact(g) && pos < |g.pending|
    ensures Exact(Serve(spec, g, pos))
  {
    hide ServedRecord;
    var h := Serve(spec, g, pos);
    ServeKeepsPending(g, pos);
    assert g.pending[pos] in g.pending;
    forall i | 0 <= i < h.next ensures i in h.served || i in h.pending {
      if i !in g.served && i != g.pending[pos] {
        PendingExcept(g.pending, pos, i);
      }
    }
    ServedInitiator(spec, g.records[g.pending[pos]], g.time);
  }

  lemma ServedInitiator(spec: CaseSpec, r: Record, time: real)
    ensures ServedRecord(spec, r, time).initiator == r.initiator
  {
  }

  lemma NewEntry(spec: CaseSpec, g: Fabric, pos: nat)
    requires Inv(spec, g) && Arrived(g) && pos == Select(spec, g) < |g.pending|
    requires Exact(Serve(spec, g, pos))
    ensures var h := Serve(spec, g, pos); Entry(spec, h.records, h.served, |g.served|)
  {
    hide Inv, Exact, NeverIdle, OldestFirst, ByPriority, NearestTurn, TokenSpaced, TimesRight, Select;
    NewEntryTimes(spec, g, pos);
    NewEntryOldestFirst(spec, g, pos);
    NewEntryByPriority(spec, g, pos);
    NewEntryNearestTurn(spec, g, pos);
  }

  lemma NewEntryTimes(spec: CaseSpec, g: Fabric, pos: nat)
    requires Inv(spec, g) && Arrived(g) && pos == Select(spec, g) < |g.pending|
    requires Exact(Serve(spec, g, pos))
    ensures var h := Serve(spec, g, pos);
            && TimesRight(h.records, h.served, |g.served|)
            && NeverIdle(spec, h.records, h.served, |g.served|)
            && TokenSpaced(spec, h.records, h.served, |g.served|)
  {
    hide Entry;
    var h := Serve(spec, g, pos);
    var k := |g.served|;
    assert h.served[..k] == g.served;
    SelectIsBest(spec, g);
    assert PreviousEnd(h.records, h.served, k) == PreviousEnd(g.records, g.served, k);
    HeldSame(spec, g, pos);
    hide TokenAt;
  }

  /** A service changes nothing about what the earlier ones left held. */
  lemma HeldSame(spec: CaseSpec, g: Fabric, pos: nat)
    requires Exact(g) && pos < |g.pending| && Exact(Serve(spec, g, pos))
    ensures var h, k := Serve(spec, g, pos), |g.served|;
            && TokenAt(spec, h.records, h.served, k) == TokenAt(spec, g.records, g.served, k)
            && |h.records| == |g.records|
            && forall i :: 0 <= i < |g.records| ==>
                 HeldUntil(spec, h.records, h.served, k, i) == HeldUntil(spec, g.records, g.served, k, i)
  {
    var h, k := Serve(spec, g, pos), |g.served|;
    TokenAtSame(spec, g.records, h.records, g.served, h.served, k);
    hide TokenAt;
  }

  /** What a service logs, and what it leaves as it was. */
  lemma ServiceIs(spec: CaseSpec, g: Fabric, pos: nat)
    requires Inv(spec, g) && pos < |g.pending|
    ensures var h, k, c := Serve(spec, g, pos), |g.served|, g.pending[pos];
            && c < |g.records| && |h.records| == |g.records|
            && h.served == g.served + [c] && h.served[..k] == g.served
            && (forall a :: 0 <= a < |h.served| ==> h.served[a] < |h.records|)
            && h.records[c].start == g.time
            && (forall i :: 0 <= i < |g.records| ==>
                  h.records[i].initiator == g.records[i].initiator && h.records[i].issue == g.records[i].issue)
  {
    hide Entry, PreviousEnd, PreviousTurn, TokenAt, HeldUntil;
    assert g.records[g.pending[pos]].issue <= g.time;
    assert forall a :: 0 <= a < |g.served| ==> g.served[a] < |g.records|;
  }

  /** Whoever waits in time and is not held back is pending and eligible. */
  lemma WaitingIsEligible(spec: CaseSpec, g: Fabric, i: nat) returns (q: nat)
    requires Inv(spec, g) && Arrived(g) && i < |g.records| && i !in g.served
    requires HeldUntil(spec, g.records, g.served, |g.served|, i) <= g.time && g.records[i].issue <= g.time
    ensures q < |g.pending| && g.pending[q] == i && Eligible(spec, g, q)
  {
    WaitingIsPendingOrLater(spec, g, i);
    hide Entry, PreviousEnd, PreviousTurn, TokenAt;
    q :| 0 <= q < |g.pending| && g.pending[q] == i;
  }

  lemma NewEntryOldestFirst(spec: CaseSpec, g: Fabric, pos: nat)
    requires Inv(spec, g) && Arrived(g) && pos == Select(spec, g) < |g.pending|
    requires Exact(Serve(spec, g, pos))
    ensures var h := Serve(spec, g, pos); OldestFirst(h.records, h.served, |g.served|)
  {
    var h, k := Serve(spec, g, pos), |g.served|;
    ServiceIs(spec, g, pos);
    SelectIsBest(spec, g);
    assert Shape(g) && forall q :: 0 <= q < pos ==> g.pending[q] < |g.records|;
    hide Inv, Exact, Serve, Select, Arrived, Eligible;
    forall i | 0 <= i < |h.records| && Waiting(h.served, k, i)
               && h.records[i].initiator == h.records[h.served[k]].initiator
      ensures h.served[k] <= i
    {
      OldestIsFirst(spec, g, pos, i);
    }
  }

  lemma OldestIsFirst(spec: CaseSpec, g: Fabric, pos: nat, i: nat)
    requires Inv(spec, g) && pos < |g.pending| && i < |g.records| && i !in g.served
    requires forall q :: 0 <= q < pos ==> g.records[g.pending[q]].initiator != g.records[i].initiator
    ensures g.pending[pos] <= i
  {
    hide Clock, Entry;
    if i < g.next {
      assert i in g.pending;
    }
  }

  lemma NewEntryByPriority(spec: CaseSpec, g: Fabric, pos: nat)
    requires Inv(spec, g) && Arrived(g) && pos == Select(spec, g) < |g.pending|
    requires Exact(Serve(spec, g, pos))
    ensures var h := Serve(spec, g, pos); ByPriority(spec, h.records, h.served, |g.served|)
  {
    HeldSame(spec, g, pos);
    ServiceIs(spec, g, pos);
    SelectIsBest(spec, g);
    hide Standing, HeldUntil, Serve, Select, Clock, Entry, Arrived, Eligible;
    var h, k := Serve(spec, g, pos), |g.served|;
    if spec.policy != RoundRobin {
      forall i | 0 <= i < |h.records| && Waiting(h.served, k, i)
                 && HeldUntil(spec, h.records, h.served, k, i) <= h.records[h.served[k]].start
                 && h.records[i].issue <= h.records[h.served[k]].start
        ensures Standing(spec.policy, h.records[h.served[k]].initiator)
                <= Standing(spec.policy, h.records[i].initiator)
      {
        var q := WaitingIsEligible(spec, g, i);
      }
    }
  }

  lemma NewEntryNearestTurn(spec: CaseSpec, g: Fabric, pos: nat)
    requires Inv(spec, g) && Arrived(g) && pos == Select(spec, g) < |g.pending|
    requires Exact(Serve(spec, g, pos))
    ensures var h := Serve(spec, g, pos); NearestTurn(spec, h.records, h.served, |g.served|)
  {
    HeldSame(spec, g, pos);
    ServiceIs(spec, g, pos);
    SelectIsBest(spec, g);
    var h, k := Serve(spec, g, pos), |g.served|;
    if spec.policy == RoundRobin {
      TurnStays(spec, g, pos);
      hide Turn, HeldUntil, Serve, Select, Clock, Entry, Arrived, Eligible, PreviousTurn;
      forall i | 0 <= i < |h.records| && Waiting(h.served, k, i)
                 && HeldUntil(spec, h.records, h.served, k, i) <= h.records[h.served[k]].start
                 && h.records[i].issue <= h.records[h.served[k]].start
        ensures Turn(g.lastTurn, h.records[h.served[k]].initiator) <= Turn(g.lastTurn, h.records[i].initiator)
      {
        var q := WaitingIsEligible(spec, g, i);
      }
    }
  }

  lemma TurnStays(spec: CaseSpec, g: Fabric, pos: nat)
    requires Inv(spec, g) && pos < |g.pending| && spec.policy == RoundRobin
    requires Exact(Serve(spec, g, pos))
    ensures var h := Serve(spec, g, pos); PreviousTurn(h.records, h.served, |g.served|) == g.lastTurn
  {
    ServiceIs(spec, g, pos);
    hide Serve, Entry, TokenAt, HeldUntil;
  }

  lemma OldEntry(spec: CaseSpec, g: Fabric, pos: nat, k: nat)
    requires Inv(spec, g) && pos < |g.pending| && k < |g.served|
    requires Exact(Serve(spec, g, pos))
    ensures var h := Serve(spec, g, pos); Entry(spec, h.records, h.served, k)
  {
    var h := Serve(spec, g, pos);
    EntryDependsOnInput(spec, g.records, h.records, g.served, k);
    EntryOfPrefix(spec, h.records, g.served, h.served, k);
  }

  lemma EntryOfPrefix(spec: CaseSpec, records: seq<Record>, served: seq<nat>, longer: seq<nat>, k: nat)
    requires k < |served| <= |longer| && served <= longer
    requires forall a :: 0 <= a < |longer| ==> longer[a] < |records|
    requires Entry(spec, records, served, k)
    ensures Entry(spec, records, longer, k)
  {
    assert longer[..k] == served[..k];
    assert PreviousEnd(records, longer, k) == PreviousEnd(records, served, k);
    assert PreviousTurn(records, longer, k) == PreviousTurn(records, served, k);
    TokenAtSame(spec, records, records, served, longer, k);
    hide TokenAt, Standing, Turn;
    assert forall i :: 0 <= i < |records| ==>
             HeldUntil(spec, records, longer, k, i) == HeldUntil(spec, records, served, k, i);
  }

  lemma ServeKeepsClock(spec: CaseSpec, g: Fabric, pos: nat)
    requires InputValid(g.records) && Exact(g) && Clock(spec, g) && pos < |g.pending| && Eligible(spec, g, pos)
    requires Exact(Serve(spec, g, pos))
    ensures Clock(spec, Serve(spec, g, pos))
  {
    var h := Serve(spec, g, pos);
    HeldSame(spec, g, pos);
    ServeKeepsToken(spec, g, pos);
    ServedLast(spec, g, pos);
    hide TokenAt, HeldUntil, Exact, Eligible;
    assert forall i :: 0 <= i < |g.records| ==> h.records[i].issue == g.records[i].issue;
  }

  /** The log ends with the service just given, which ends where the clock now stands. */
  lemma ServedLast(spec: CaseSpec, g: Fabric, pos: nat)
    requires InputValid(g.records) && Exact(g) && Clock(spec, g) && pos < |g.pending|
    requires Exact(Serve(spec, g, pos))
    ensures var h := Serve(spec, g, pos);
            && h.time == PreviousEnd(h.records, h.served, |h.served|) && g.time <= h.time
            && h.next == g.next && |h.records| == |g.records|
            && (spec.policy == RoundRobin ==> h.lastTurn == PreviousTurn(h.records, h.served, |h.served|))
  {
    hide TokenAt, HeldUntil;
    assert g.records[g.pending[pos]].service >= 0.0;
  }

  lemma ServeKeepsToken(spec: CaseSpec, g: Fabric, pos: nat)
    requires Exact(g) && Clock(spec, g) && pos < |g.pending| && Exact(Serve(spec, g, pos))
    requires Eligible(spec, g, pos) && InputValid(g.records)
    ensures var h := Serve(spec, g, pos);
            && h.token == TokenAt(spec, h.records, h.served, |h.served|)
            && (spec.tokenGap > 0.0 ==>
                  forall a :: 0 <= a < |h.served| && h.records[h.served[a]].initiator == NPU
                              ==> h.records[h.served[a]].start + spec.tokenGap <= h.token)
  {
    HeldSame(spec, g, pos);
    hide HeldUntil, PreviousEnd;
  }

  lemma ServeKeeps(spec: CaseSpec, g: Fabric)
    requires Inv(spec, g) && Arrived(g) && Select(spec, g) < |g.pending|
    ensures var h := Serve(spec, g, Select(spec, g)); Inv(spec, h) && SameInput(g.records, h.records)
  {
    hide Entry, Clock, Select, Eligible, Standing, Turn;
    var pos := Select(spec, g);
    var h := Serve(spec, g, pos);
    ServeKeepsExact(spec, g, pos);
    SelectIsBest(spec, g);
    ServeKeepsClock(spec, g, pos);
    forall k | 0 <= k < |h.served| ensures Entry(spec, h.records, h.served, k) {
      if k < |g.served| {
        OldEntry(spec, g, pos, k);
      } else {
        NewEntry(spec, g, pos);
      }
    }
  }

  lemma InitKeeps(spec: CaseSpec, records: seq<Record>)
    requires InputValid(records)
    ensures Inv(spec, Init(records))
  {
  }
}
