/** The back-pressure model of project AT-5.

    Records are processed in schedule order, which is no particular time order.
    Each passes a bounded ingress queue and a bounded downstream queue in front
    of one server; both queues are lists of future release times.
 */
module TandemQueues {
  import opened SimTime
  import opened EndTimes

  const INGRESS_PIPELINE: real := 1.0
  const BEGIN_RESP_DELAY: real := 1.0
  const END_RESP_DELAY: real := 1.0

  datatype Options = Options(ingressCapacity: nat, downstreamCapacity: nat)

  /** `beginReq`, `arbitration` and `service` are the case's choices; the other
      fields are written by the model. */
  datatype Record = Record(
    beginReq: real,
    arbitration: real,
    service: real,
    ingressDepth: nat,
    ingressFull: bool,
    accept: real,
    ingressEnqueue: real,
    ingressDequeue: real,
    downstreamDepth: nat,
    downstreamFull: bool,
    downstreamEnqueue: real,
    serviceBegin: real,
    serviceEnd: real,
    serviceTime: real,
    beginResp: real,
    endResp: real,
    stall: real,
    blocked: real)

  predicate InputValid(o: Options, input: seq<Record>) {
    && o.ingressCapacity >= 1 && o.downstreamCapacity >= 1
    && (forall i :: 0 <= i < |input| ==>
          input[i].beginReq >= 0.0 && input[i].arbitration >= 0.0 && input[i].service > 0.0)
  }

  // ---- One bounded queue ----

  /** The entries that still hold a place at the candidate time. */
  function Live(times: seq<real>, candidate: real): seq<real> {
    RemoveCompleted(times, candidate)
  }

  predicate IsFull(capacity: nat, live: seq<real>) {
    |live| >= capacity
  }

  /** When the candidate gets a place. */
  function AdmitTime(capacity: nat, live: seq<real>, candidate: real): real
    requires capacity >= 1
  {
    if IsFull(capacity, live) then Max(candidate, MinOf(live)) else candidate
  }

  /** The entries left once it has. */
  function Kept(capacity: nat, live: seq<real>, candidate: real): seq<real>
    requires capacity >= 1
  {
    if IsFull(capacity, live) then RemoveCompleted(live, AdmitTime(capacity, live, candidate)) else live
  }

  // ---- The model, record by record ----

  datatype Queues = Queues(ingress: seq<real>, downstream: seq<real>, available: real, done: seq<Record>)

  function AcceptCandidate(r: Record): real {
    r.beginReq + r.arbitration
  }

  /** When the ingress queue lets the record in. */
  function AcceptTime(o: Options, q: Queues, r: Record): real
    requires o.ingressCapacity >= 1
  {
    AdmitTime(o.ingressCapacity, Live(q.ingress, AcceptCandidate(r)), AcceptCandidate(r))
  }

  function DownstreamCandidate(o: Options, q: Queues, r: Record): real
    requires o.ingressCapacity >= 1
  {
    AcceptTime(o, q, r) + INGRESS_PIPELINE
  }

  function ProcessedRecord(o: Options, q: Queues, r: Record): Record
    requires o.ingressCapacity >= 1 && o.downstreamCapacity >= 1
  {
    var ingress := Live(q.ingress, AcceptCandidate(r));
    var accept := AcceptTime(o, q, r);
    var candidate := DownstreamCandidate(o, q, r);
    var downstream := Live(q.downstream, candidate);
    var enqueue := AdmitTime(o.downstreamCapacity, downstream, candidate);
    var ingressWait :=
      if IsFull(o.ingressCapacity, ingress) then Max(0.0, MinOf(ingress) - AcceptCandidate(r)) else 0.0;
    var downstreamWait :=
      if IsFull(o.downstreamCapacity, downstream) then Max(0.0, MinOf(downstream) - candidate) else 0.0;
    var serviceWait := Max(0.0, q.available - enqueue);
    var begin := Max(enqueue, q.available);
    var end := begin + r.service;
    r.(ingressDepth := |ingress|, ingressFull := IsFull(o.ingressCapacity, ingress) || r.ingressFull,
       accept := accept, ingressEnqueue := accept, ingressDequeue := enqueue,
       downstreamDepth := |downstream|, downstreamFull := IsFull(o.downstreamCapacity, downstream) || r.downstreamFull,
       downstreamEnqueue := enqueue, serviceBegin := begin, serviceTime := r.service, serviceEnd := end,
       beginResp := end + BEGIN_RESP_DELAY, endResp := end + BEGIN_RESP_DELAY + END_RESP_DELAY,
       stall := ingressWait + downstreamWait + serviceWait,
       blocked := Max(0.0, accept - r.beginReq) + downstreamWait + serviceWait)
  }

  function Process(o: Options, q: Queues, r: Record): Queues
    requires o.ingressCapacity >= 1 && o.downstreamCapacity >= 1
  {
    var done := ProcessedRecord(o, q, r);
    var candidate := DownstreamCandidate(o, q, r);
    Queues(
      Kept(o.ingressCapacity, Live(q.ingress, AcceptCandidate(r)), AcceptCandidate(r)) + [done.ingressDequeue],
      Kept(o.downstreamCapacity, Live(q.downstream, candidate), candidate) + [done.serviceEnd],
      done.serviceEnd,
      q.done + [done])
  }

  /** The queues after the first `k` records. */
  function After(o: Options, input: seq<Record>, k: nat): (q: Queues)
    requires o.ingressCapacity >= 1 && o.downstreamCapacity >= 1 && k <= |input|
    ensures |q.done| == k
  {
    if k == 0 then Queues([], [], 0.0, []) else Process(o, After(o, input, k - 1), input[k - 1])
  }

  function Done(o: Options, input: seq<Record>, k: nat): Record
    requires o.ingressCapacity >= 1 && o.downstreamCapacity >= 1 && k < |input|
  {
    ProcessedRecord(o, After(o, input, k), input[k])
  }

  /** The record's downstream candidate before any downstream wait. */
  function Raw(o: Options, input: seq<Record>, k: nat): real
    requires o.ingressCapacity >= 1 && o.downstreamCapacity >= 1 && k < |input|
  {
    DownstreamCandidate(o, After(o, input, k), input[k])
  }

  function Enqueue(o: Options, input: seq<Record>, k: nat): real
    requires o.ingressCapacity >= 1 && o.downstreamCapacity >= 1 && k < |input|
  {
    Done(o, input, k).downstreamEnqueue
  }

  function End(o: Options, input: seq<Record>, k: nat): real
    requires o.ingressCapacity >= 1 && o.downstreamCapacity >= 1 && k < |input|
  {
    Done(o, input, k).serviceEnd
  }

  /** Records are processed once and not touched again. */
  lemma {:induction false} DoneIsStored(o: Options, input: seq<Record>, k: nat, i: nat)
    requires InputValid(o, input) && i < k <= |input|
    ensures After(o, input, k).done[i] == Done(o, input, i)
  {
    if i < k - 1 {
      DoneIsStored(o, input, k - 1, i);
    }
  }

  // ---- Capacities ----

  lemma AdmitKeepsCapacity(capacity: nat, times: seq<real>, candidate: real)
    requires capacity >= 1 && |times| <= capacity
    ensures |Kept(capacity, Live(times, candidate), candidate)| < capacity
    ensures candidate <= AdmitTime(capacity, Live(times, candidate), candidate)
  {
    var live := Live(times, candidate);
    RemoveKeepsLater(times, candidate, candidate);
    LaterAntitone(times, candidate, candidate);
    if IsFull(capacity, live) {
      var t := AdmitTime(capacity, live, candidate);
      MinOfIsLeast(live);
      RemoveKeepsLater(live, t, t);
      LaterBelowAll(live, t);
      LaterAntitone(live, t, t);
    }
  }

  /** The candidate gets in at the first moment with a free place. */
  lemma AdmitIsFirstFree(capacity: nat, times: seq<real>, candidate: real)
    requires capacity >= 1 && |times| <= capacity
    ensures var time := AdmitTime(capacity, Live(times, candidate), candidate);
            && candidate <= time && Later(times, time) < capacity
            && forall t :: candidate <= t < time ==> Later(times, t) >= capacity
  {
    hide Later, RemoveCompleted, MinOf;
    var live := Live(times, candidate);
    RemoveKeepsLater(times, candidate, candidate);
    LaterAntitone(times, candidate, candidate);
    if IsFull(capacity, live) {
      var time := AdmitTime(capacity, live, candidate);
      MinOfIsLeast(live);
      LaterBelowAll(live, time);
      LaterAntitone(live, time, time);
      RemoveKeepsLater(times, candidate, time);
      forall t | candidate <= t < time ensures Later(times, t) >= capacity {
        RemoveKeepsLater(times, candidate, t);
        LaterBelowAll(live, t);
      }
    }
  }

  /** Neither list ever holds more entries than its queue has places, whatever
      the order in which the records are processed. */
  lemma {:induction false} ListsBounded(o: Options, input: seq<Record>, k: nat)
    requires InputValid(o, input) && k <= |input|
    ensures |After(o, input, k).ingress| <= o.ingressCapacity
    ensures |After(o, input, k).downstream| <= o.downstreamCapacity
  {
    if k == 0 {
    } else {
      ListsBounded(o, input, k - 1);
      var q, r := After(o, input, k - 1), input[k - 1];
      AdmitKeepsCapacity(o.ingressCapacity, q.ingress, AcceptCandidate(r));
      AdmitKeepsCapacity(o.downstreamCapacity, q.downstream, DownstreamCandidate(o, q, r));
    }
  }

  // ---- The server ----

  /** Every trace row has its nine timestamps in order, and its latency is the
      sum of its stall, its fixed delays and its service. */
  lemma TimestampsOrdered(o: Options, input: seq<Record>, k: nat)
    requires InputValid(o, input) && k < |input|
    ensures var r := Done(o, input, k);
            && r.beginReq == input[k].beginReq && r.beginReq + INGRESS_PIPELINE <= r.downstreamEnqueue
            && r.beginReq <= r.accept <= r.ingressEnqueue <= r.ingressDequeue <= r.downstreamEnqueue
            && r.downstreamEnqueue <= r.serviceBegin < r.serviceEnd <= r.beginResp <= r.endResp
            && r.endResp - r.beginReq
               == r.arbitration + r.stall + r.service + INGRESS_PIPELINE + BEGIN_RESP_DELAY + END_RESP_DELAY
            && 0.0 <= r.stall && 0.0 <= r.blocked
  {
    var q, r := After(o, input, k), input[k];
    ListsBounded(o, input, k);
    AdmitKeepsCapacity(o.ingressCapacity, q.ingress, AcceptCandidate(r));
    AdmitKeepsCapacity(o.downstreamCapacity, q.downstream, DownstreamCandidate(o, q, r));
    LiveIsLater(q.ingress, AcceptCandidate(r));
    LiveIsLater(q.downstream, DownstreamCandidate(o, q, r));
  }

  lemma LiveIsLater(times: seq<real>, candidate: real)
    ensures |Live(times, candidate)| > 0 ==> candidate < MinOf(Live(times, candidate))
  {
    RemoveKeepsLater(times, candidate, candidate);
    if |Live(times, candidate)| > 0 {
      MinOfIsLeast(Live(times, candidate));
    }
  }

  /** One server, in processing order: it starts each record when both are free. */
  lemma SingleServer(o: Options, input: seq<Record>, k: nat)
    requires InputValid(o, input) && k < |input|
    ensures Done(o, input, k).serviceBegin
            == Max(Enqueue(o, input, k), if k == 0 then 0.0 else End(o, input, k - 1))
    ensures End(o, input, k) == Done(o, input, k).serviceBegin + input[k].service
  {
    if k > 0 {
      assert After(o, input, k).available == End(o, input, k - 1);
    }
  }

  lemma {:induction false} EndsIncrease(o: Options, input: seq<Record>, j: nat, k: nat)
    requires InputValid(o, input) && j < k < |input|
    ensures End(o, input, j) < End(o, input, k)
    ensures End(o, input, j) <= Done(o, input, k).serviceBegin
  {
    SingleServer(o, input, k);
    if j < k - 1 {
      EndsIncrease(o, input, j, k - 1);
    }
  }

  /** The service time of records `from` to `to`. */
  function Work(input: seq<Record>, from: nat, to: nat): real
    requires from <= to <= |input|
  {
    if from == to then 0.0 else Work(input, from, to - 1) + input[to - 1].service
  }

  /** The server ends record `k` no earlier than any earlier record's enqueue
      plus all service from there on, and for one of them exactly then: no
      schedule order creates service capacity. */
  lemma {:induction false} EndIsLongestBacklog(o: Options, input: seq<Record>, k: nat)
    requires InputValid(o, input) && k < |input|
    ensures forall i :: 0 <= i <= k ==> Enqueue(o, input, i) + Work(input, i, k + 1) <= End(o, input, k)
    ensures exists i :: 0 <= i <= k && Enqueue(o, input, i) + Work(input, i, k + 1) == End(o, input, k)
  {
    hide ProcessedRecord;
    SingleServer(o, input, k);
    assert Work(input, k, k + 1) == input[k].service;
    if k == 0 {
      TimestampsOrdered(o, input, 0);
    } else {
      EndIsLongestBacklog(o, input, k - 1);
      assert forall i :: 0 <= i < k ==> Work(input, i, k + 1) == Work(input, i, k) + input[k].service;
      if Enqueue(o, input, k) <= End(o, input, k - 1) {
        var i :| 0 <= i <= k - 1 && Enqueue(o, input, i) + Work(input, i, k) == End(o, input, k - 1);
        assert Enqueue(o, input, i) + Work(input, i, k + 1) == End(o, input, k);
      }
    }
  }

  /** The utilization ratio needs no upper clamp: the service of a whole trace
      fits between its first request and its last response. */
  lemma ServiceFitsTrace(o: Options, input: seq<Record>, begin: real, end: real)
    requires InputValid(o, input) && |input| > 0
    requires forall i :: 0 <= i < |input| ==> begin <= Done(o, input, i).beginReq && Done(o, input, i).endResp <= end
    ensures Work(input, 0, |input|) < end - begin
  {
    hide ProcessedRecord;
    var last := |input| - 1;
    EndIsLongestBacklog(o, input, last);
    TimestampsOrdered(o, input, 0);
    TimestampsOrdered(o, input, last);
    assert begin <= Done(o, input, 0).beginReq < Enqueue(o, input, 0);
    assert Enqueue(o, input, 0) + Work(input, 0, |input|) <= End(o, input, last);
  }

  // ---- The bounded buffer ----

  /** The downstream list is the newest of the service ends, in order. */
  ghost predicate IsNewestEnds(o: Options, input: seq<Record>, k: nat, times: seq<real>)
    requires o.ingressCapacity >= 1 && o.downstreamCapacity >= 1 && k <= |input|
  {
    |times| <= k && forall i :: 0 <= i < |times| ==> times[i] == End(o, input, k - |times| + i)
  }

  predicate Increasing(xs: seq<real>) {
    forall i, j :: 0 <= i < j < |xs| ==> xs[i] < xs[j]
  }

  /** Pruning drops a prefix when just the ends from there on lie after the time. */
  lemma {:induction false} PruneAt(xs: seq<real>, t: real, m: nat)
    requires m <= |xs|
    requires forall i :: 0 <= i < m ==> xs[i] <= t
    requires forall i :: m <= i < |xs| ==> xs[i] > t
    ensures RemoveCompleted(xs, t) == xs[m..]
  {
    if |xs| == 0 {
    } else {
      var front, x := xs[..|xs| - 1], xs[|xs| - 1];
      assert xs == front + [x];
      RemoveSnoc(front, x, t);
      hide RemoveCompleted;
      PruneAt(front, t, if m == |xs| then m - 1 else m);
    }
  }

  lemma {:induction false} FirstAbove(xs: seq<real>, t: real) returns (m: nat)
    requires Increasing(xs)
    ensures m <= |xs|
    ensures forall i :: 0 <= i < m ==> xs[i] <= t
    ensures forall i :: m <= i < |xs| ==> xs[i] > t
  {
    if |xs| == 0 {
      m := 0;
    } else {
      var front, last := xs[..|xs| - 1], |xs| - 1;
      m := FirstAbove(front, t);
      assert forall i :: 0 <= i < last ==> front[i] == xs[i];
      if m < last {
        assert t < front[m] == xs[m] < xs[last];
      } else if xs[last] <= t {
        m := |xs|;
      }
    }
  }

  /** So pruning an increasing list drops a prefix. */
  lemma PruneDropsPrefix(xs: seq<real>, t: real)
    requires Increasing(xs)
    ensures var kept := RemoveCompleted(xs, t);
            && |kept| <= |xs| && kept == xs[|xs| - |kept|..]
            && (forall i :: 0 <= i < |xs| - |kept| ==> xs[i] <= t)
            && (forall i :: |xs| - |kept| <= i < |xs| ==> xs[i] > t)
  {
    var m := FirstAbove(xs, t);
    hide Increasing, RemoveCompleted;
    PruneAt(xs, t, m);
  }

  lemma IncreasingMin(xs: seq<real>)
    requires Increasing(xs) && |xs| > 0
    ensures MinOf(xs) == xs[0]
  {
    MinOfIsLeast(xs);
  }

  /** A place was given up for an end that an earlier candidate had passed, or the
      newest `capacity` ends no longer reach back to it. */
  ghost predicate ForgottenFor(o: Options, input: seq<Record>, k: nat, i: nat)
    requires o.ingressCapacity >= 1 && o.downstreamCapacity >= 1 && i < k <= |input|
  {
    (exists j :: 0 <= j < k && End(o, input, i) <= Raw(o, input, j)) || i + o.downstreamCapacity < k
  }

  ghost predicate BufferInv(o: Options, input: seq<Record>, k: nat)
    requires o.ingressCapacity >= 1 && o.downstreamCapacity >= 1 && k <= |input|
  {
    var times := After(o, input, k).downstream;
    && IsNewestEnds(o, input, k, times)
    && (forall i :: 0 <= i < k - |times| ==> ForgottenFor(o, input, k, i))
    && (forall i, j :: k - |times| <= i < k && 0 <= j < k ==> Raw(o, input, j) < End(o, input, i))
  }

  lemma RawPrecedesEnd(o: Options, input: seq<Record>, j: nat, k: nat)
    requires InputValid(o, input) && j <= k < |input|
    ensures Raw(o, input, j) <= Enqueue(o, input, j) <= Done(o, input, k).serviceBegin < End(o, input, k)
  {
    TimestampsOrdered(o, input, j);
    TimestampsOrdered(o, input, k);
    ListsBounded(o, input, j);
    AdmitKeepsCapacity(o.downstreamCapacity, After(o, input, j).downstream, Raw(o, input, j));
    if j < k {
      EndsIncrease(o, input, j, k);
    }
  }

  /** The formula of a buffer with `capacity` places in front of one server. */
  predicate BufferFormula(o: Options, input: seq<Record>, k: nat)
    requires o.ingressCapacity >= 1 && o.downstreamCapacity >= 1 && k < |input|
  {
    Enqueue(o, input, k)
    == if k < o.downstreamCapacity then Raw(o, input, k)
       else Max(Raw(o, input, k), End(o, input, k - o.downstreamCapacity))
  }

  /** The end that should hold the record back was already pruned at a later
      candidate of an earlier record. */
  predicate Overtaken(o: Options, input: seq<Record>, k: nat)
    requires o.ingressCapacity >= 1 && o.downstreamCapacity >= 1 && k < |input|
  {
    k >= o.downstreamCapacity
    && exists j :: 0 <= j < k && Raw(o, input, k) < End(o, input, k - o.downstreamCapacity) <= Raw(o, input, j)
  }

  /** The downstream list of record `k` after pruning at its candidate. */
  lemma PrunedIsNewest(o: Options, input: seq<Record>, k: nat)
    requires InputValid(o, input) && k < |input| && BufferInv(o, input, k)
    ensures var times := After(o, input, k).downstream;
            var live := Live(times, Raw(o, input, k));
            && |live| <= |times| && IsNewestEnds(o, input, k, live) && Increasing(live)
            && (forall i :: k - |times| <= i < k - |live| ==> End(o, input, i) <= Raw(o, input, k))
            && (forall i :: k - |live| <= i < k ==> Raw(o, input, k) < End(o, input, i))
  {
    NewestPruned(o, input, k, After(o, input, k).downstream, Raw(o, input, k));
    hide ProcessedRecord, Process, DownstreamCandidate, Raw, End, Done, RemoveCompleted, IsNewestEnds, Increasing;
  }

  lemma NewestPruned(o: Options, input: seq<Record>, k: nat, times: seq<real>, t: real)
    requires InputValid(o, input) && k < |input| && IsNewestEnds(o, input, k, times)
    ensures var live := RemoveCompleted(times, t);
            && |live| <= |times| && IsNewestEnds(o, input, k, live) && Increasing(live)
            && (forall i :: k - |times| <= i < k - |live| ==> End(o, input, i) <= t)
            && (forall i :: k - |live| <= i < k ==> t < End(o, input, i))
  {
    NewestIncrease(o, input, k, times);
    var m := FirstAbove(times, t);
    PruneAt(times, t, m);
    NewestSplit(o, input, k, times, m, t);
    hide RemoveCompleted, Increasing, End, IsNewestEnds, InputValid;
  }

  /** Newest ends cut in two at a time between them. */
  lemma NewestSplit(o: Options, input: seq<Record>, k: nat, times: seq<real>, dropped: nat, t: real)
    requires InputValid(o, input) && k < |input| && IsNewestEnds(o, input, k, times)
    requires dropped <= |times| && Increasing(times)
    requires forall i :: 0 <= i < dropped ==> times[i] <= t
    requires forall i :: dropped <= i < |times| ==> times[i] > t
    ensures IsNewestEnds(o, input, k, times[dropped..]) && Increasing(times[dropped..])
    ensures forall i :: k - |times| <= i < k - |times| + dropped ==> End(o, input, i) <= t
    ensures forall i :: k - |times| + dropped <= i < k ==> t < End(o, input, i)
  {
    hide End;
    var first, live := k - |times|, times[dropped..];
    forall i | 0 <= i < |live| ensures live[i] == End(o, input, k - |live| + i) {
      assert live[i] == times[dropped + i];
    }
    forall i | first <= i < first + dropped ensures End(o, input, i) <= t {
      assert times[i - first] <= t;
    }
    forall i | first + dropped <= i < k ensures t < End(o, input, i) {
      assert times[i - first] > t;
    }
  }

  lemma NewestIncrease(o: Options, input: seq<Record>, k: nat, times: seq<real>)
    requires InputValid(o, input) && k < |input| && IsNewestEnds(o, input, k, times)
    ensures Increasing(times)
  {
    hide End, Done;
    forall i, j | 0 <= i < j < |times| ensures times[i] < times[j] {
      EndsIncrease(o, input, k - |times| + i, k - |times| + j);
    }
  }

  /** How one record moves the downstream list. */
  lemma DownstreamStep(o: Options, input: seq<Record>, k: nat)
    requires InputValid(o, input) && k < |input|
    ensures var live := Live(After(o, input, k).downstream, Raw(o, input, k));
            && Enqueue(o, input, k) == AdmitTime(o.downstreamCapacity, live, Raw(o, input, k))
            && After(o, input, k + 1).downstream
               == Kept(o.downstreamCapacity, live, Raw(o, input, k)) + [End(o, input, k)]
  {
  }

  /** Record `k` obeys the buffer formula exactly when its place was not given up early. */
  lemma FormulaIffNotOvertaken(o: Options, input: seq<Record>, k: nat)
    requires InputValid(o, input) && k < |input| && BufferInv(o, input, k)
    ensures BufferFormula(o, input, k) <==> !Overtaken(o, input, k)
  {
    hide Done, Raw, After, Live, Kept;
    var c := o.downstreamCapacity;
    var times, raw := After(o, input, k).downstream, Raw(o, input, k);
    var live := Live(times, raw);
    PrunedIsNewest(o, input, k);
    ListsBounded(o, input, k);
    DownstreamStep(o, input, k);
    if IsFull(c, live) {
      IncreasingMin(live);
      assert live[0] == End(o, input, k - c);
      assert !Overtaken(o, input, k);
    } else if k >= c && k - c < k - |times| {
      assert ForgottenFor(o, input, k, k - c);
    }
  }

  lemma {:induction false} BufferInvAlways(o: Options, input: seq<Record>, k: nat)
    requires InputValid(o, input) && k <= |input|
    ensures BufferInv(o, input, k)
  {
    if k == 0 {
      assert After(o, input, 0).downstream == [];
    } else {
      hide BufferInv;
      BufferInvAlways(o, input, k - 1);
      BufferStep(o, input, k - 1);
    }
  }

  lemma BufferStep(o: Options, input: seq<Record>, k: nat)
    requires InputValid(o, input) && k < |input| && BufferInv(o, input, k)
    ensures BufferInv(o, input, k + 1)
  {
    hide Done, Raw, After, Live, Kept;
    var c := o.downstreamCapacity;
    var raw, live := Raw(o, input, k), Live(After(o, input, k).downstream, Raw(o, input, k));
    var kept := Kept(c, live, raw);
    PrunedIsNewest(o, input, k);
    ListsBounded(o, input, k);
    DownstreamStep(o, input, k);
    assert forall i :: 0 <= i < |live| ==> live[i] == End(o, input, k - |live| + i);
    KeptDropsOne(c, live, raw, |After(o, input, k).downstream|);
    var next, n := kept + [End(o, input, k)], k + 1;
    var first := n - |next|;
    assert IsNewestEnds(o, input, n, next);
    forall i | 0 <= i < first ensures ForgottenFor(o, input, n, i) {
      if i < k - |After(o, input, k).downstream| {
        assert ForgottenFor(o, input, k, i);
      } else if i < k - |live| {
        assert End(o, input, i) <= Raw(o, input, k);
      }
    }
    forall i, j | first <= i < n && 0 <= j < n ensures Raw(o, input, j) < End(o, input, i) {
      if i == k {
        RawPrecedesEnd(o, input, j, k);
      }
    }
  }

  /** A full queue gives up exactly its oldest entry. */
  lemma KeptDropsOne(capacity: nat, live: seq<real>, candidate: real, n: nat)
    requires capacity >= 1 && Increasing(live) && |live| <= n <= capacity
    requires forall i :: 0 <= i < |live| ==> candidate < live[i]
    ensures Kept(capacity, live, candidate) == if |live| == capacity then live[1..] else live
  {
    if IsFull(capacity, live) {
      IncreasingMin(live);
      PruneDropsPrefix(live, live[0]);
      var kept := RemoveCompleted(live, live[0]);
      assert |live| - |kept| >= 1;
      assert |live| > 1 ==> live[0] < live[1];
    }
  }

  /** The downstream queue is a bounded buffer in front of one server, exactly
      for the records that are not overtaken; a schedule whose candidates never
      decrease overtakes none. */
  lemma DownstreamIsBoundedBuffer(o: Options, input: seq<Record>, k: nat)
    requires InputValid(o, input) && k < |input|
    ensures BufferFormula(o, input, k) <==> !Overtaken(o, input, k)
    ensures (forall i, j :: 0 <= i <= j <= k ==> Raw(o, input, i) <= Raw(o, input, j)) ==> BufferFormula(o, input, k)
  {
    BufferInvAlways(o, input, k);
    FormulaIffNotOvertaken(o, input, k);
  }

  /** An earlier record had already arrived after the end that should hold record `k`
      back, so that the end is no longer stored. */
  predicate Passed(o: Options, input: seq<Record>, k: nat)
    requires o.ingressCapacity >= 1 && o.downstreamCapacity >= 1 && k < |input|
  {
    k >= o.downstreamCapacity
    && exists j :: 0 <= j < k && End(o, input, k - o.downstreamCapacity) <= Raw(o, input, j)
  }

  lemma FullIsFormula(o: Options, input: seq<Record>, k: nat)
    requires InputValid(o, input) && k < |input| && BufferInv(o, input, k)
    ensures IsFull(o.downstreamCapacity, Live(After(o, input, k).downstream, Raw(o, input, k))) ==>
              BufferFormula(o, input, k)
    ensures !IsFull(o.downstreamCapacity, Live(After(o, input, k).downstream, Raw(o, input, k))) ==>
              Enqueue(o, input, k) == Raw(o, input, k)
  {
    hide Done, Raw, After, Live, Kept;
    var live := Live(After(o, input, k).downstream, Raw(o, input, k));
    PrunedIsNewest(o, input, k);
    ListsBounded(o, input, k);
    DownstreamStep(o, input, k);
    if IsFull(o.downstreamCapacity, live) {
      IncreasingMin(live);
      assert live[0] == End(o, input, k - o.downstreamCapacity);
    }
  }

  /** When every record enters, overtaken or not: it is held back for the end `capacity`
      places before it, unless an earlier record has passed that end. */
  lemma EnqueueIs(o: Options, input: seq<Record>, k: nat)
    requires InputValid(o, input) && k < |input|
    ensures Enqueue(o, input, k)
            == if k < o.downstreamCapacity || Passed(o, input, k) then Raw(o, input, k)
               else Max(Raw(o, input, k), End(o, input, k - o.downstreamCapacity))
  {
    hide Done, Raw, After, Live;
    BufferInvAlways(o, input, k);
    FormulaIffNotOvertaken(o, input, k);
    FullIsFormula(o, input, k);
  }

  /** How many of the first `k` records are queued or in service at `t`. */
  function Occupancy(o: Options, input: seq<Record>, k: nat, t: real): nat
    requires o.ingressCapacity >= 1 && o.downstreamCapacity >= 1 && k <= |input|
  {
    if k == 0 then 0
    else Occupancy(o, input, k - 1, t)
         + (if Enqueue(o, input, k - 1) <= t < End(o, input, k - 1) then 1 else 0)
  }

  lemma {:induction false} OccupancyFrom(o: Options, input: seq<Record>, from: nat, k: nat, t: real)
    requires InputValid(o, input) && from <= k <= |input|
    requires forall i :: 0 <= i < from ==> End(o, input, i) <= t
    ensures Occupancy(o, input, k, t) <= k - from
    decreases k
  {
    if k > from {
      OccupancyFrom(o, input, from, k - 1, t);
    } else if k > 0 {
      OccupancyFrom(o, input, from - 1, k - 1, t);
    }
  }

  /** Without overtaking, the records really queued or in service never exceed
      the downstream capacity. */
  lemma {:induction false} OccupancyBounded(o: Options, input: seq<Record>, k: nat, t: real)
    requires InputValid(o, input) && k <= |input|
    requires forall i :: 0 <= i < |input| ==> !Overtaken(o, input, i)
    ensures Occupancy(o, input, k, t) <= o.downstreamCapacity
  {
    hide Done, Raw;
    var c := o.downstreamCapacity;
    if k == 0 {
    } else {
      OccupancyBounded(o, input, k - 1, t);
      if k > c && Enqueue(o, input, k - 1) <= t {
        DownstreamIsBoundedBuffer(o, input, k - 1);
        forall i | 0 <= i < k - c ensures End(o, input, i) <= t {
          if i < k - 1 - c {
            EndsIncrease(o, input, i, k - 1 - c);
          }
        }
        OccupancyFrom(o, input, k - c, k, t);
      } else if k <= c {
        OccupancyFrom(o, input, 0, k, t);
      }
    }
  }

  // ---- Fairness ----

  function Product(x: real, y: real): real {
    x * y
  }

  function Square(x: real): real {
    Product(x, x)
  }

  /** The Jain index of the three initiators' throughputs, before it is clamped. */
  function JainIndex(a: real, b: real, c: real): real {
    var squares := Square(a) + Square(b) + Square(c);
    if 3.0 * squares <= 0.0 then 0.0 else Square(a + b + c) / (3.0 * squares)
  }

  /** Throughputs are non-negative, so the index lies between a third and one,
      and reaches one exactly when they are equal. */
  lemma JainIndexNeedsNoClamp(a: real, b: real, c: real)
    requires a >= 0.0 && b >= 0.0 && c >= 0.0 && a + b + c > 0.0
    ensures 1.0 / 3.0 <= JainIndex(a, b, c) <= 1.0
    ensures JainIndex(a, b, c) == 1.0 <==> a == b == c
  {
    hide Square;
    SumOfSquares(a, b, c);
    SquareSign(a - b);
    SquareSign(b - c);
    SquareSign(a - c);
    SquareSign(a + b + c);
    ShareBounds(Square(a + b + c), Square(a) + Square(b) + Square(c));
  }

  lemma SumOfSquares(a: real, b: real, c: real)
    requires a >= 0.0 && b >= 0.0 && c >= 0.0
    ensures 3.0 * (Square(a) + Square(b) + Square(c)) - Square(a + b + c)
            == Square(a - b) + Square(b - c) + Square(a - c)
    ensures Square(a) + Square(b) + Square(c) <= Square(a + b + c)
  {
    assert a * b >= 0.0 && b * c >= 0.0 && a * c >= 0.0;
  }

  lemma SquareSign(x: real)
    ensures Square(x) >= 0.0
    ensures Square(x) == 0.0 <==> x == 0.0
  {
    hide Product;
    ProductSign(x, x);
  }

  lemma ProductSign(x: real, y: real)
    ensures (x > 0.0 && y > 0.0) || (x < 0.0 && y < 0.0) ==> Product(x, y) > 0.0
    ensures x == 0.0 ==> Product(x, y) == 0.0
  {
  }

  lemma ShareBounds(total: real, squares: real)
    requires 0.0 < total && squares <= total <= 3.0 * squares
    ensures 1.0 / 3.0 <= total / (3.0 * squares) <= 1.0
    ensures total / (3.0 * squares) == 1.0 <==> total == 3.0 * squares
  {
    var d := 3.0 * squares;
    var index := total / d;
    QuotientTimes(total, d);
    hide Product;
    OrderedProducts(1.0 / 3.0, index, d);
    OrderedProducts(index, 1.0, d);
    ProductOfThird(d);
  }

  lemma QuotientTimes(x: real, d: real)
    requires d > 0.0
    ensures Product(x / d, d) == x && Product(1.0, d) == d
  {
  }

  lemma ProductOfThird(d: real)
    ensures 3.0 * Product(1.0 / 3.0, d) == d
  {
  }

  /** Factors are ordered as their products with a positive number. */
  lemma OrderedProducts(x: real, y: real, d: real)
    requires d > 0.0
    ensures x < y <==> Product(x, d) < Product(y, d)
    ensures x == y <==> Product(x, d) == Product(y, d)
  {
    ProductDifference(x, y, d);
    hide Product;
    ProductSign(y - x, d);
    ProductSign(x - y, d);
  }

  lemma ProductDifference(x: real, y: real, d: real)
    ensures Product(y - x, d) == Product(y, d) - Product(x, d)
    ensures Product(x - y, d) == Product(x, d) - Product(y, d)
  {
  }

  // ---- The loop ----

  /** One queue admits a candidate: it prunes, waits for the earliest release if
      full, and prunes again. */
  method Admit(capacity: nat, times: seq<real>, candidate: real)
    returns (live: seq<real>, kept: seq<real>, time: real, full: bool, wait: real)
    requires capacity >= 1
    ensures live == Live(times, candidate) && full == IsFull(capacity, live)
    ensures time == AdmitTime(capacity, live, candidate) && kept == Kept(capacity, live, candidate)
    ensures wait == (if full then Max(0.0, MinOf(live) - candidate) else 0.0) == time - candidate
    ensures |times| <= capacity ==>
              && |kept| < capacity && candidate <= time && Later(times, time) < capacity
              && forall t :: candidate <= t < time ==> Later(times, t) >= capacity
  {
    hide Later, RemoveCompleted, MinOf, Filters;
    live := PruneCompleted(times, candidate);
    kept, time, full, wait := live, candidate, false, 0.0;
    if |live| >= capacity {
      full := true;
      var free := EarliestEnd(live);
      wait := Max(0.0, free - candidate);
      time := Max(candidate, free);
      kept := PruneCompleted(live, time);
    }
    if |times| <= capacity {
      AdmitKeepsCapacity(capacity, times, candidate);
      AdmitIsFirstFree(capacity, times, candidate);
    }
  }

  /** The body of the loop: passes one record through both queues and the server. */
  method ProcessOne(o: Options, ghost q: Queues, ingress: seq<real>, downstream: seq<real>, available: real, r: Record)
    returns (done: Record, ingress': seq<real>, downstream': seq<real>)
    requires o.ingressCapacity >= 1 && o.downstreamCapacity >= 1
    requires ingress == q.ingress && downstream == q.downstream && available == q.available
    ensures done == ProcessedRecord(o, q, r)
    ensures ingress' == Process(o, q, r).ingress && downstream' == Process(o, q, r).downstream
    ensures done.serviceEnd == Process(o, q, r).available
  {
    hide RemoveCompleted, MinOf, Live, Kept, AdmitTime;
    var candidate := r.beginReq + r.arbitration;
    var inLive, inKept, accept, inFull, ingressWait := Admit(o.ingressCapacity, ingress, candidate);
    var enqueueCandidate := accept + INGRESS_PIPELINE;
    var downLive, downKept, enqueue, downFull, downstreamWait :=
      Admit(o.downstreamCapacity, downstream, enqueueCandidate);
    ingress' := inKept + [enqueue];
    var serviceWait := Max(0.0, available - enqueue);
    var begin := Max(enqueue, available);
    var end := begin + r.service;
    downstream' := downKept + [end];
    done := r.(ingressDepth := |inLive|, ingressFull := inFull || r.ingressFull,
               accept := accept, ingressEnqueue := accept, ingressDequeue := enqueue,
               downstreamDepth := |downLive|, downstreamFull := downFull || r.downstreamFull,
               downstreamEnqueue := enqueue, serviceBegin := begin, serviceTime := r.service, serviceEnd := end,
               beginResp := end + BEGIN_RESP_DELAY, endResp := end + BEGIN_RESP_DELAY + END_RESP_DELAY,
               stall := ingressWait + downstreamWait + serviceWait,
               blocked := Max(0.0, accept - r.beginReq) + downstreamWait + serviceWait);
  }

  /** Processes the records in the given order, updating each in place. */
  method RunBackpressureModel(o: Options, input: seq<Record>) returns (records: seq<Record>)
    requires InputValid(o, input)
    ensures |records| == |input| && forall k :: 0 <= k < |input| ==> records[k] == Done(o, input, k)
  {
    hide ProcessedRecord, Process;
    records := input;
    var ingress: seq<real>, downstream: seq<real>, available := [], [], 0.0;
    for k := 0 to |input|
      invariant |records| == |input|
      invariant forall i :: k <= i < |input| ==> records[i] == input[i]
      invariant forall i :: 0 <= i < k ==> records[i] == Done(o, input, i)
      invariant ingress == After(o, input, k).ingress && downstream == After(o, input, k).downstream
      invariant available == After(o, input, k).available
    {
      var r;
      r, ingress, downstream := ProcessOne(o, After(o, input, k), ingress, downstream, available, records[k]);
      available := r.serviceEnd;
      records := records[k := r];
    }
  }
}
