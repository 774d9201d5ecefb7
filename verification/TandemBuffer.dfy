/** Project AT-5's downstream queue against a bounded buffer that never forgets an end.

    The reference schedule processes the same records with the same ingress queue, but
    holds record `k` back until the end of the record `capacity` places before it.
 */
module TandemBuffer {
  import opened SimTime
  import opened EndTimes
  import opened TandemQueues

  // ---- The reference schedule ----

  datatype Buffer = Buffer(ingress: seq<real>, raws: seq<real>, enqueues: seq<real>, ends: seq<real>)

  function Admitted(o: Options, b: Buffer, r: Record): Buffer
    requires o.ingressCapacity >= 1 && o.downstreamCapacity >= 1
    requires |b.raws| == |b.enqueues| == |b.ends|
  {
    var k, c := |b.ends|, o.downstreamCapacity;
    var live := Live(b.ingress, AcceptCandidate(r));
    var raw := AdmitTime(o.ingressCapacity, live, AcceptCandidate(r)) + INGRESS_PIPELINE;
    var enqueue := if k < c then raw else Max(raw, b.ends[k - c]);
    var end := Max(enqueue, if k == 0 then 0.0 else b.ends[k - 1]) + r.service;
    Buffer(Kept(o.ingressCapacity, live, AcceptCandidate(r)) + [enqueue],
           b.raws + [raw], b.enqueues + [enqueue], b.ends + [end])
  }

  /** The schedule of the first `k` records, from the input alone. */
  function Reference(o: Options, input: seq<Record>, k: nat): (b: Buffer)
    requires o.ingressCapacity >= 1 && o.downstreamCapacity >= 1 && k <= |input|
    ensures |b.raws| == |b.enqueues| == |b.ends| == k
  {
    if k == 0 then Buffer([], [], [], []) else Admitted(o, Reference(o, input, k - 1), input[k - 1])
  }

  /** Record `k` arrives before the end that should hold it back, although an earlier
      record of the schedule arrived after that end. */
  predicate Overtakes(o: Options, b: Buffer, k: nat)
    requires k < |b.raws| == |b.ends|
  {
    k >= o.downstreamCapacity
    && exists j :: 0 <= j < k && b.raws[k] < b.ends[k - o.downstreamCapacity] <= b.raws[j]
  }

  /** The condition on the input. */
  predicate NoneOvertakes(o: Options, input: seq<Record>, n: nat)
    requires o.ingressCapacity >= 1 && o.downstreamCapacity >= 1 && n <= |input|
  {
    forall k :: 0 <= k < n ==> !Overtakes(o, Reference(o, input, n), k)
  }

  /** The run has followed the reference for the first `n` records. */
  predicate Follows(o: Options, input: seq<Record>, n: nat)
    requires o.ingressCapacity >= 1 && o.downstreamCapacity >= 1 && n <= |input|
  {
    var b := Reference(o, input, n);
    && After(o, input, n).ingress == b.ingress
    && After(o, input, n).available == (if n == 0 then 0.0 else b.ends[n - 1])
    && forall k :: 0 <= k < n ==>
         b.raws[k] == Raw(o, input, k) && b.enqueues[k] == Enqueue(o, input, k) && b.ends[k] == End(o, input, k)
  }

  /** What one record adds to the reference. */
  lemma ReferenceStep(o: Options, input: seq<Record>, n: nat)
    requires o.ingressCapacity >= 1 && o.downstreamCapacity >= 1 && n < |input|
    ensures var b, b', candidate := Reference(o, input, n), Reference(o, input, n + 1), AcceptCandidate(input[n]);
            && b'.raws == b.raws + [b'.raws[n]] && b'.enqueues == b.enqueues + [b'.enqueues[n]]
            && b'.ends == b.ends + [b'.ends[n]]
            && b'.raws[n]
               == AdmitTime(o.ingressCapacity, Live(b.ingress, candidate), candidate) + INGRESS_PIPELINE
            && b'.enqueues[n]
               == (if n < o.downstreamCapacity then b'.raws[n] else Max(b'.raws[n], b.ends[n - o.downstreamCapacity]))
            && b'.ends[n] == Max(b'.enqueues[n], if n == 0 then 0.0 else b.ends[n - 1]) + input[n].service
            && b'.ingress
               == Kept(o.ingressCapacity, Live(b.ingress, candidate), candidate) + [b'.enqueues[n]]
  {
    hide Live, AdmitTime, Kept;
  }

  /** What one record does to the ingress list and the server of the run. */
  lemma RunStep(o: Options, input: seq<Record>, k: nat)
    requires InputValid(o, input) && k < |input|
    ensures var q, candidate := After(o, input, k), AcceptCandidate(input[k]);
            && Raw(o, input, k)
               == AdmitTime(o.ingressCapacity, Live(q.ingress, candidate), candidate) + INGRESS_PIPELINE
            && After(o, input, k + 1).ingress
               == Kept(o.ingressCapacity, Live(q.ingress, candidate), candidate) + [Enqueue(o, input, k)]
            && After(o, input, k + 1).available == End(o, input, k)
  {
    hide Live, AdmitTime, Kept;
  }

  /** The next record finds the same ingress queue, so it arrives at the same time. */
  lemma RawFollows(o: Options, input: seq<Record>, n: nat)
    requires InputValid(o, input) && n < |input| && Follows(o, input, n)
    ensures Reference(o, input, n + 1).raws[n] == Raw(o, input, n)
  {
    hide Live, AdmitTime, Kept, Reference, After, Raw, Enqueue, End;
    ReferenceStep(o, input, n);
    RunStep(o, input, n);
  }

  lemma FollowsOnIfFormula(o: Options, input: seq<Record>, n: nat)
    requires InputValid(o, input) && n < |input| && Follows(o, input, n) && BufferFormula(o, input, n)
    ensures Follows(o, input, n + 1)
  {
    hide Live, AdmitTime, Kept, Reference, After, Done, Raw, Enqueue, End;
    RawFollows(o, input, n);
    ReferenceStep(o, input, n);
    RunStep(o, input, n);
    SingleServer(o, input, n);
  }

  /** The overtaking of the next record reads the same in run and reference. */
  lemma OvertakingFollows(o: Options, input: seq<Record>, n: nat)
    requires InputValid(o, input) && n < |input| && Follows(o, input, n)
    ensures Overtakes(o, Reference(o, input, n + 1), n) <==> Overtaken(o, input, n)
  {
    hide Live, AdmitTime, Kept, Reference, After, Raw, Enqueue, End;
    RawFollows(o, input, n);
    ReferenceStep(o, input, n);
    var b, b', c := Reference(o, input, n), Reference(o, input, n + 1), o.downstreamCapacity;
    assert forall j :: 0 <= j < n ==> b'.raws[j] == b.raws[j] == Raw(o, input, j);
    assert n >= c ==> b'.ends[n - c] == b.ends[n - c] == End(o, input, n - c);
    if Overtaken(o, input, n) {
      var j :| 0 <= j < n && Raw(o, input, n) < End(o, input, n - c) <= Raw(o, input, j);
      assert b'.raws[j] == Raw(o, input, j);
    }
  }

  lemma OvertakingStays(o: Options, input: seq<Record>, n: nat, k: nat)
    requires o.ingressCapacity >= 1 && o.downstreamCapacity >= 1 && k < n < |input|
    ensures Overtakes(o, Reference(o, input, n + 1), k) <==> Overtakes(o, Reference(o, input, n), k)
  {
    hide Live, AdmitTime, Kept, Reference;
    ReferenceStep(o, input, n);
    var b, b' := Reference(o, input, n), Reference(o, input, n + 1);
    assert forall j :: 0 <= j < n ==> b.raws[j] == b'.raws[j];
    assert forall j :: 0 <= j < n ==> b.ends[j] == b'.ends[j];
    assert forall j :: 0 <= j < k ==> b'.raws[j] == b.raws[j];
  }

  lemma NoneOvertakesSnoc(o: Options, input: seq<Record>, n: nat)
    requires o.ingressCapacity >= 1 && o.downstreamCapacity >= 1 && n < |input|
    ensures NoneOvertakes(o, input, n + 1)
            <==> NoneOvertakes(o, input, n) && !Overtakes(o, Reference(o, input, n + 1), n)
  {
    hide Overtakes, Admitted;
    var b, b' := Reference(o, input, n), Reference(o, input, n + 1);
    forall k | 0 <= k < n ensures Overtakes(o, b', k) <==> Overtakes(o, b, k) {
      OvertakingStays(o, input, n, k);
    }
    if NoneOvertakes(o, input, n + 1) {
      assert forall k :: 0 <= k < n ==> !Overtakes(o, b', k);
      assert forall k :: 0 <= k < n ==> !Overtakes(o, b, k);
    }
  }

  /** The first `n` records obey the buffer formula exactly when the reference schedule
      of the input has nobody overtaking; the run is then the reference. */
  lemma {:induction false} BoundedBufferIffNoneOvertakes(o: Options, input: seq<Record>, n: nat)
    requires InputValid(o, input) && n <= |input|
    ensures NoneOvertakes(o, input, n) <==> forall k :: 0 <= k < n ==> BufferFormula(o, input, k)
    ensures NoneOvertakes(o, input, n) ==> Follows(o, input, n)
  {
    hide BufferFormula, Overtakes, Overtaken, Follows, NoneOvertakes, Admitted;
    if n == 0 {
      FollowsAtStart(o, input);
      NobodyOvertakesAtStart(o, input);
    } else {
      BoundedBufferIffNoneOvertakes(o, input, n - 1);
      NoneOvertakesSnoc(o, input, n - 1);
      if NoneOvertakes(o, input, n - 1) {
        OvertakingFollows(o, input, n - 1);
        DownstreamIsBoundedBuffer(o, input, n - 1);
        if BufferFormula(o, input, n - 1) {
          FollowsOnIfFormula(o, input, n - 1);
        }
      }
    }
  }

  lemma NobodyOvertakesAtStart(o: Options, input: seq<Record>)
    requires o.ingressCapacity >= 1 && o.downstreamCapacity >= 1
    ensures NoneOvertakes(o, input, 0)
  {
  }

  lemma FollowsAtStart(o: Options, input: seq<Record>)
    requires InputValid(o, input)
    ensures Follows(o, input, 0)
  {
  }

  // ---- When the queue is really over its capacity ----

  /** How many of the records from `i` up to `n` are enqueued before record `i` ends. */
  function Entrants(o: Options, input: seq<Record>, i: nat, n: nat): nat
    requires o.ingressCapacity >= 1 && o.downstreamCapacity >= 1 && i < |input| && i <= n <= |input|
  {
    if n == i then 0
    else Entrants(o, input, i, n - 1) + (if Enqueue(o, input, n - 1) < End(o, input, i) then 1 else 0)
  }

  /** Those present at `t`, counted from record `i` on. */
  function PresentFrom(o: Options, input: seq<Record>, i: nat, n: nat, t: real): nat
    requires o.ingressCapacity >= 1 && o.downstreamCapacity >= 1 && i <= n <= |input|
  {
    if n == i then 0
    else PresentFrom(o, input, i, n - 1, t)
         + (if Enqueue(o, input, n - 1) <= t < End(o, input, n - 1) then 1 else 0)
  }

  lemma {:induction false} OccupancySplits(o: Options, input: seq<Record>, i: nat, n: nat, t: real)
    requires o.ingressCapacity >= 1 && o.downstreamCapacity >= 1 && i <= n <= |input|
    ensures Occupancy(o, input, n, t) == Occupancy(o, input, i, t) + PresentFrom(o, input, i, n, t)
  {
    hide Enqueue, End;
    if i < n {
      OccupancySplits(o, input, i, n - 1, t);
    }
  }

  /** The first record that ends after `t`. */
  lemma {:induction false} FirstOpen(o: Options, input: seq<Record>, n: nat, t: real) returns (i: nat)
    requires InputValid(o, input) && n <= |input|
    ensures i <= n && Occupancy(o, input, i, t) == 0
    ensures i < n ==> t < End(o, input, i)
  {
    hide Enqueue, End, Done;
    if n == 0 {
      i := 0;
    } else {
      i := FirstOpen(o, input, n - 1, t);
      if i == n - 1 && End(o, input, n - 1) <= t {
        i := n;
      }
    }
  }

  lemma {:induction false} PresentAreEntrants(o: Options, input: seq<Record>, i: nat, n: nat, t: real)
    requires o.ingressCapacity >= 1 && o.downstreamCapacity >= 1 && i < |input| && i <= n <= |input|
    requires t < End(o, input, i)
    ensures PresentFrom(o, input, i, n, t) <= Entrants(o, input, i, n)
  {
    hide Enqueue, End;
    if i < n {
      PresentAreEntrants(o, input, i, n - 1, t);
    }
  }

  /** A moment just before record `i` ends at which all its entrants are present. */
  lemma {:induction false} EntrantsMeet(o: Options, input: seq<Record>, i: nat, n: nat) returns (t: real)
    requires InputValid(o, input) && i < n <= |input|
    ensures t < End(o, input, i) && PresentFrom(o, input, i, n, t) == Entrants(o, input, i, n)
    ensures forall u :: t <= u < End(o, input, i) ==> PresentFrom(o, input, i, n, u) == Entrants(o, input, i, n)
  {
    hide Enqueue, Done;
    if n == i + 1 {
      TimestampsOrdered(o, input, i);
      EnqueueBeforeEnd(o, input, i);
      t := Enqueue(o, input, i);
      assert Entrants(o, input, i, i) == 0;
      assert forall u :: PresentFrom(o, input, i, i, u) == 0;
    } else {
      t := EntrantsMeet(o, input, i, n - 1);
      EndsIncrease(o, input, i, n - 1);
      if t < Enqueue(o, input, n - 1) < End(o, input, i) {
        t := Enqueue(o, input, n - 1);
      }
    }
  }

  lemma EnqueueBeforeEnd(o: Options, input: seq<Record>, i: nat)
    requires InputValid(o, input) && i < |input|
    ensures Enqueue(o, input, i) < End(o, input, i)
  {
    TimestampsOrdered(o, input, i);
  }

  /** The queue and the server never hold more records than the queue's capacity. */
  ghost predicate StaysWithin(o: Options, input: seq<Record>)
    requires o.ingressCapacity >= 1 && o.downstreamCapacity >= 1
  {
    forall t: real :: Occupancy(o, input, |input|, t) <= o.downstreamCapacity
  }

  predicate FewEntrants(o: Options, input: seq<Record>)
    requires o.ingressCapacity >= 1 && o.downstreamCapacity >= 1
  {
    forall i :: 0 <= i < |input| ==> Entrants(o, input, i, |input|) <= o.downstreamCapacity
  }

  /** The records queued or in service never exceed the capacity exactly when no record
      sees more than `capacity` records, itself included, enqueued before it ends. */
  lemma OccupancyIffEntrants(o: Options, input: seq<Record>)
    requires InputValid(o, input)
    ensures StaysWithin(o, input) <==> FewEntrants(o, input)
  {
    hide Occupancy, Entrants, End, PresentFrom;
    var n, c := |input|, o.downstreamCapacity;
    if forall i :: 0 <= i < n ==> Entrants(o, input, i, n) <= c {
      forall t: real ensures Occupancy(o, input, n, t) <= c {
        var i := FirstOpen(o, input, n, t);
        OccupancySplits(o, input, i, n, t);
        if i < n {
          PresentAreEntrants(o, input, i, n, t);
        }
      }
    } else {
      var i :| 0 <= i < n && Entrants(o, input, i, n) > c;
      var t := EntrantsMeet(o, input, i, n);
      OccupancySplits(o, input, i, n, t);
    }
  }

  // ---- A run that overtakes ----

  function ExampleRecord(beginReq: real, service: real): Record {
    Record(beginReq, 0.0, service, 0, false, 0.0, 0.0, 0.0, 0, false, 0.0, 0.0, 0.0, 0.0, 0.0, 0.0, 0.0, 0.0)
  }

  function ExampleInput(): seq<Record> {
    [ExampleRecord(0.0, 10.0), ExampleRecord(0.0, 10.0), ExampleRecord(29.0, 1.0), ExampleRecord(0.0, 1.0)]
  }

  predicate Issues(r: Record, beginReq: real, service: real) {
    r.beginReq == beginReq && r.arbitration == 0.0 && r.service == service
  }

  /** Two early records, a late one and a third early one, with two downstream places. */
  predicate IsExample(o: Options, input: seq<Record>) {
    && o.ingressCapacity == 5 && o.downstreamCapacity == 2
    && |input| == 4
    && Issues(input[0], 0.0, 10.0) && Issues(input[1], 0.0, 10.0)
    && Issues(input[2], 29.0, 1.0) && Issues(input[3], 0.0, 1.0)
  }

  lemma ExampleExists()
    ensures IsExample(Options(5, 2), ExampleInput())
  {
  }

  /** The two lists and the server before record `k`. */
  predicate StateAt(o: Options, input: seq<Record>, k: nat, ingress: seq<real>, downstream: seq<real>, available: real)
    requires o.ingressCapacity >= 1 && o.downstreamCapacity >= 1 && k <= |input|
  {
    var q := After(o, input, k);
    q.ingress == ingress && q.downstream == downstream && q.available == available
  }

  predicate Outcome(o: Options, input: seq<Record>, k: nat, enqueue: real, end: real)
    requires o.ingressCapacity >= 1 && o.downstreamCapacity >= 1 && k < |input|
  {
    Raw(o, input, k) == Enqueue(o, input, k) == enqueue && End(o, input, k) == end
  }

  /** What a record does that finds room in both queues. */
  lemma RoomyRecord(o: Options, input: seq<Record>, k: nat, ingress: seq<real>, downstream: seq<real>, available: real,
                    live: seq<real>, ahead: seq<real>, enqueue: real, end: real)
    requires InputValid(o, input) && k < |input| && StateAt(o, input, k, ingress, downstream, available)
    requires enqueue == AcceptCandidate(input[k]) + INGRESS_PIPELINE
    requires live == RemoveCompleted(ingress, AcceptCandidate(input[k])) && |live| < o.ingressCapacity
    requires ahead == RemoveCompleted(downstream, enqueue) && |ahead| < o.downstreamCapacity
    requires end == Max(enqueue, available) + input[k].service
    ensures Outcome(o, input, k, enqueue, end)
    ensures StateAt(o, input, k + 1, live + [enqueue], ahead + [end], end)
  {
    hide RemoveCompleted, MinOf;
  }

  lemma ExampleFirst(o: Options, input: seq<Record>, k: nat)
    requires IsExample(o, input) && k == 0
    ensures InputValid(o, input) && Outcome(o, input, k, 1.0, 11.0) && StateAt(o, input, k + 1, [1.0], [11.0], 11.0)
  {
    ExampleStart(o, input);
    hide StateAt, Outcome, RemoveCompleted;
    RemoveFromPair(1.0, 1.0, 0.0);
    RemoveFromPair(1.0, 1.0, 1.0);
    RoomyRecord(o, input, k, [], [], 0.0, [], [], 1.0, 11.0);
    assert [] + [1.0] == [1.0] && [] + [11.0] == [11.0];
  }

  lemma ExampleSecond(o: Options, input: seq<Record>, k: nat)
    requires IsExample(o, input) && k == 1
    ensures InputValid(o, input) && Outcome(o, input, k, 1.0, 21.0)
    ensures StateAt(o, input, k + 1, [1.0, 1.0], [11.0, 21.0], 21.0)
  {
    hide StateAt, Outcome, RemoveCompleted;
    ExampleFirst(o, input, k - 1);
    RemoveFromPair(1.0, 1.0, 0.0);
    RemoveFromPair(11.0, 21.0, 1.0);
    RoomyRecord(o, input, k, [1.0], [11.0], 11.0, [1.0], [11.0], 1.0, 21.0);
    assert [1.0] + [1.0] == [1.0, 1.0] && [11.0] + [21.0] == [11.0, 21.0];
  }

  lemma ExampleThird(o: Options, input: seq<Record>, k: nat)
    requires IsExample(o, input) && k == 2
    ensures InputValid(o, input) && Outcome(o, input, k, 30.0, 31.0) && StateAt(o, input, k + 1, [30.0], [31.0], 31.0)
  {
    hide StateAt, Outcome, RemoveCompleted;
    ExampleSecond(o, input, k - 1);
    RemoveFromPair(1.0, 1.0, 29.0);
    RemoveFromPair(11.0, 21.0, 30.0);
    assert RemoveCompleted([1.0, 1.0], 29.0) == [];
    assert RemoveCompleted([11.0, 21.0], 30.0) == [];
    RoomyRecord(o, input, k, [1.0, 1.0], [11.0, 21.0], 21.0, [], [], 30.0, 31.0);
    assert [] + [30.0] == [30.0] && [] + [31.0] == [31.0];
  }

  lemma ExampleFourth(o: Options, input: seq<Record>, k: nat)
    requires IsExample(o, input) && k == 3
    ensures InputValid(o, input) && Outcome(o, input, k, 1.0, 32.0)
  {
    hide StateAt, Outcome, RemoveCompleted;
    ExampleThird(o, input, k - 1);
    RemoveFromPair(30.0, 30.0, 0.0);
    RemoveFromPair(31.0, 31.0, 1.0);
    RoomyRecord(o, input, k, [30.0], [31.0], 31.0, [30.0], [31.0], 1.0, 32.0);
  }

  lemma ExampleStart(o: Options, input: seq<Record>)
    requires IsExample(o, input)
    ensures InputValid(o, input) && StateAt(o, input, 0, [], [], 0.0)
  {
  }

  /** A run that is no bounded buffer: a late record prunes the ends of two early ones,
      a third early record is let in at once, and a queue of two holds three. */
  lemma OvertakingExample(o: Options, input: seq<Record>, k: nat, t: real)
    requires IsExample(o, input) && k == 3 && t == 5.0
    ensures InputValid(o, input) && k < |input| && !NoneOvertakes(o, input, |input|)
    ensures Overtaken(o, input, k) && !BufferFormula(o, input, k)
    ensures Occupancy(o, input, |input|, t) == 3 > o.downstreamCapacity
  {
    hide Outcome, InputValid, NoneOvertakes, BufferFormula, Overtaken, Occupancy;
    ExampleFirst(o, input, k - 3);
    ExampleSecond(o, input, k - 2);
    ExampleThird(o, input, k - 1);
    ExampleFourth(o, input, k);
    ExampleBreaks(o, input, k);
    ExampleCrowds(o, input, k, t);
    BoundedBufferIffNoneOvertakes(o, input, |input|);
  }

  lemma ExampleBreaks(o: Options, input: seq<Record>, k: nat)
    requires o == Options(5, 2) && |input| == k + 1 && k == 3
    requires Outcome(o, input, k - 2, 1.0, 21.0) && Outcome(o, input, k - 1, 30.0, 31.0)
    requires Outcome(o, input, k, 1.0, 32.0)
    ensures Overtaken(o, input, k) && !BufferFormula(o, input, k)
  {
    hide Raw, Enqueue, End;
    var j := k - 1;
    assert Raw(o, input, k) < End(o, input, k - o.downstreamCapacity) <= Raw(o, input, j);
  }

  lemma ExampleCrowds(o: Options, input: seq<Record>, k: nat, t: real)
    requires o == Options(5, 2) && |input| == k + 1 && k == 3 && t == 5.0
    requires Outcome(o, input, k - 3, 1.0, 11.0) && Outcome(o, input, k - 2, 1.0, 21.0)
    requires Outcome(o, input, k - 1, 30.0, 31.0) && Outcome(o, input, k, 1.0, 32.0)
    ensures Occupancy(o, input, |input|, t) == 3
  {
    hide Raw, Enqueue, End;
    assert Occupancy(o, input, k - 3, t) == 0;
    assert Occupancy(o, input, k - 2, t) == 1;
    assert Occupancy(o, input, k - 1, t) == 2;
    assert Occupancy(o, input, k, t) == 2;
  }
}
