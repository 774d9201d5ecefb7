/** Project AT-5's run as a schedule that never prunes, and from it the exact condition on
    the input for the downstream queue to stay within its capacity.
 */
module TandemSchedule {
  import opened SimTime
  import opened EndTimes
  import opened TandemQueues
  import opened TandemBuffer

  // ---- The schedule ----

  /** Some record before the `k`-th arrived after the end `capacity` places before it. */
  predicate Released(o: Options, b: Buffer, k: nat)
    requires k <= |b.raws| && k <= |b.ends| && k >= o.downstreamCapacity >= 1
  {
    exists j :: 0 <= j < k && b.ends[k - o.downstreamCapacity] <= b.raws[j]
  }

  function Paced(o: Options, b: Buffer, r: Record): Buffer
    requires o.ingressCapacity >= 1 && o.downstreamCapacity >= 1
    requires |b.raws| == |b.enqueues| == |b.ends|
  {
    var k, c := |b.ends|, o.downstreamCapacity;
    var live := Live(b.ingress, AcceptCandidate(r));
    var raw := AdmitTime(o.ingressCapacity, live, AcceptCandidate(r)) + INGRESS_PIPELINE;
    var enqueue := if k < c || Released(o, b, k) then raw else Max(raw, b.ends[k - c]);
    var end := Max(enqueue, if k == 0 then 0.0 else b.ends[k - 1]) + r.service;
    Buffer(Kept(o.ingressCapacity, live, AcceptCandidate(r)) + [enqueue],
           b.raws + [raw], b.enqueues + [enqueue], b.ends + [end])
  }

  /** The first `k` records, from the input alone: all ends are kept, and a record is held
      back for the end `capacity` places before it unless that end has been passed. */
  function Schedule(o: Options, input: seq<Record>, k: nat): (b: Buffer)
    requires o.ingressCapacity >= 1 && o.downstreamCapacity >= 1 && k <= |input|
    ensures |b.raws| == |b.enqueues| == |b.ends| == k
  {
    if k == 0 then Buffer([], [], [], []) else Paced(o, Schedule(o, input, k - 1), input[k - 1])
  }

  /** What one record adds to the schedule. */
  lemma ScheduleStep(o: Options, input: seq<Record>, n: nat)
    requires o.ingressCapacity >= 1 && o.downstreamCapacity >= 1 && n < |input|
    ensures var b, b', candidate := Schedule(o, input, n), Schedule(o, input, n + 1), AcceptCandidate(input[n]);
            && b'.raws == b.raws + [b'.raws[n]] && b'.enqueues == b.enqueues + [b'.enqueues[n]]
            && b'.ends == b.ends + [b'.ends[n]]
            && b'.raws[n]
               == AdmitTime(o.ingressCapacity, Live(b.ingress, candidate), candidate) + INGRESS_PIPELINE
            && b'.enqueues[n]
               == (if n < o.downstreamCapacity || Released(o, b, n) then b'.raws[n]
                   else Max(b'.raws[n], b.ends[n - o.downstreamCapacity]))
            && b'.ends[n] == Max(b'.enqueues[n], if n == 0 then 0.0 else b.ends[n - 1]) + input[n].service
            && b'.ingress
               == Kept(o.ingressCapacity, Live(b.ingress, candidate), candidate) + [b'.enqueues[n]]
  {
    hide Live, AdmitTime, Kept, Released;
  }

  /** The schedule's times of the first `n` records are those of the run. */
  predicate Times(o: Options, input: seq<Record>, n: nat, b: Buffer)
    requires o.ingressCapacity >= 1 && o.downstreamCapacity >= 1 && n <= |input|
  {
    && |b.raws| == |b.enqueues| == |b.ends| == n
    && forall k :: 0 <= k < n ==>
         b.raws[k] == Raw(o, input, k) && b.enqueues[k] == Enqueue(o, input, k) && b.ends[k] == End(o, input, k)
  }

  lemma ReleasedIsPassed(o: Options, input: seq<Record>, n: nat, b: Buffer, k: nat)
    requires o.ingressCapacity >= 1 && o.downstreamCapacity >= 1 && o.downstreamCapacity <= k <= n <= |input|
    requires k < |input| && Times(o, input, n, b)
    ensures Released(o, b, k) <==> Passed(o, input, k)
  {
    hide Raw, Enqueue, End;
    var hold := k - o.downstreamCapacity;
    assert forall j :: 0 <= j < k ==> b.raws[j] == Raw(o, input, j);
    assert b.ends[hold] == End(o, input, hold);
    if j :| 0 <= j < k && End(o, input, hold) <= Raw(o, input, j) {
      assert b.ends[hold] <= b.raws[j];
    }
  }

  lemma TimesStep(o: Options, input: seq<Record>, n: nat)
    requires InputValid(o, input) && n < |input|
    requires Times(o, input, n, Schedule(o, input, n))
    requires After(o, input, n).ingress == Schedule(o, input, n).ingress
    ensures Times(o, input, n + 1, Schedule(o, input, n + 1))
    ensures After(o, input, n + 1).ingress == Schedule(o, input, n + 1).ingress
  {
    hide Live, AdmitTime, Kept, Schedule, After, Done, Raw, Enqueue, End, Released, Passed;
    var b, b' := Schedule(o, input, n), Schedule(o, input, n + 1);
    ScheduleStep(o, input, n);
    RunStep(o, input, n);
    SingleServer(o, input, n);
    EnqueueIs(o, input, n);
    if n >= o.downstreamCapacity {
      ReleasedIsPassed(o, input, n, b, n);
    }
    assert b'.raws[n] == Raw(o, input, n) && b'.enqueues[n] == Enqueue(o, input, n) && b'.ends[n] == End(o, input, n);
  }

  lemma EmptySchedule(o: Options, input: seq<Record>)
    requires o.ingressCapacity >= 1 && o.downstreamCapacity >= 1
    ensures Times(o, input, 0, Schedule(o, input, 0))
    ensures After(o, input, 0).ingress == Schedule(o, input, 0).ingress
  {
  }

  /** The schedule is the run, for every input: the pruned list of the model never holds
      a record back differently from the full history. */
  lemma {:induction false} ScheduleIsRun(o: Options, input: seq<Record>, n: nat)
    requires InputValid(o, input) && n <= |input|
    ensures Times(o, input, n, Schedule(o, input, n))
    ensures After(o, input, n).ingress == Schedule(o, input, n).ingress
  {
    hide Times, After, Paced;
    if n == 0 {
      EmptySchedule(o, input);
    } else {
      ScheduleIsRun(o, input, n - 1);
      TimesStep(o, input, n - 1);
    }
  }

  // ---- When the queue stays within its capacity ----

  /** Of the next `capacity - 1` records after the `i`-th, those that arrive only once it
      has ended. */
  function Late(o: Options, b: Buffer, i: nat, n: nat): nat
    requires i < n <= |b.raws| == |b.ends|
  {
    if n == i + 1 then 0
    else Late(o, b, i, n - 1)
         + (if n - 1 < i + o.downstreamCapacity && b.raws[n - 1] >= b.ends[i] then 1 else 0)
  }

  /** Of the records from `capacity` places after the `i`-th on, those that arrive during
      its stay and are not held back. */
  function Intruders(o: Options, b: Buffer, i: nat, n: nat): nat
    requires o.downstreamCapacity >= 1 && i < n <= |b.raws| == |b.ends|
  {
    if n <= i + o.downstreamCapacity then 0
    else Intruders(o, b, i, n - 1)
         + (if b.raws[n - 1] < b.ends[i] && Released(o, b, n - 1) then 1 else 0)
  }

  /** The condition on the input: into no record's stay do more records intrude than it
      has free places for. */
  predicate Uncrowded(o: Options, input: seq<Record>)
    requires o.ingressCapacity >= 1 && o.downstreamCapacity >= 1
  {
    var n := |input|;
    var b := Schedule(o, input, n);
    forall i :: 0 <= i < n ==> Intruders(o, b, i, n) <= Late(o, b, i, n)
  }

  /** Who is enqueued before record `i` ends. */
  lemma EntersDuring(o: Options, input: seq<Record>, i: nat, m: nat)
    requires InputValid(o, input) && i < m < |input|
    ensures m < i + o.downstreamCapacity ==>
              (Enqueue(o, input, m) < End(o, input, i) <==> Raw(o, input, m) < End(o, input, i))
    ensures m >= i + o.downstreamCapacity ==>
              (Enqueue(o, input, m) < End(o, input, i)
               <==> Raw(o, input, m) < End(o, input, i) && Passed(o, input, m))
  {
    hide Done, Raw, Enqueue, End, Passed;
    var c := o.downstreamCapacity;
    EnqueueIs(o, input, m);
    if c <= m < i + c {
      EndsIncrease(o, input, m - c, i);
    } else if i + c < m {
      EndsIncrease(o, input, i, m - c);
    }
  }

  /** Entrants and late records balance places and intruders. */
  lemma {:induction false} Balance(o: Options, input: seq<Record>, i: nat, n: nat, b: Buffer)
    requires InputValid(o, input) && i < n <= |input| && Times(o, input, |input|, b)
    ensures Entrants(o, input, i, n) + Late(o, b, i, n)
            == NatMin(n - i, o.downstreamCapacity) + Intruders(o, b, i, n)
  {
    hide Raw, Enqueue, End, Released, Passed;
    if n == i + 1 {
      EnqueueBeforeEnd(o, input, i);
      assert Entrants(o, input, i, i) == 0;
    } else {
      var m := n - 1;
      Balance(o, input, i, m, b);
      EntersDuring(o, input, i, m);
      if m >= i + o.downstreamCapacity {
        ReleasedIsPassed(o, input, |input|, b, m);
      }
      assert b.raws[m] == Raw(o, input, m) && b.ends[i] == End(o, input, i);
    }
  }

  lemma NoIntruders(o: Options, b: Buffer, i: nat, n: nat)
    requires o.downstreamCapacity >= 1 && i < n <= |b.raws| == |b.ends| && n <= i + o.downstreamCapacity
    ensures Intruders(o, b, i, n) == 0
  {
  }

  lemma EntrantsIffIntruders(o: Options, input: seq<Record>, i: nat, b: Buffer)
    requires InputValid(o, input) && i < |input| && Times(o, input, |input|, b)
    ensures Entrants(o, input, i, |input|) <= o.downstreamCapacity
            <==> Intruders(o, b, i, |input|) <= Late(o, b, i, |input|)
  {
    Balance(o, input, i, |input|, b);
    if |input| - i < o.downstreamCapacity {
      NoIntruders(o, b, i, |input|);
    }
  }

  lemma FewEntrantsIffUncrowded(o: Options, input: seq<Record>)
    requires InputValid(o, input)
    ensures FewEntrants(o, input) <==> Uncrowded(o, input)
  {
    hide Times, Paced;
    var b := Schedule(o, input, |input|);
    ScheduleIsRun(o, input, |input|);
    forall i: nat | i < |input|
      ensures Entrants(o, input, i, |input|) <= o.downstreamCapacity
              <==> Intruders(o, b, i, |input|) <= Late(o, b, i, |input|)
    {
      EntrantsIffIntruders(o, input, i, b);
    }
  }

  /** The records really queued or in service never exceed the capacity exactly when the
      schedule of the input is not crowded. */
  lemma OccupancyIffUncrowded(o: Options, input: seq<Record>)
    requires InputValid(o, input)
    ensures StaysWithin(o, input) <==> Uncrowded(o, input)
  {
    hide StaysWithin, FewEntrants, Uncrowded;
    OccupancyIffEntrants(o, input);
    FewEntrantsIffUncrowded(o, input);
  }

  /** The example run is crowded. */
  lemma CrowdedExample(o: Options, input: seq<Record>)
    requires IsExample(o, input)
    ensures InputValid(o, input) && !Uncrowded(o, input)
  {
    hide Uncrowded, Occupancy, IsExample, FewEntrants;
    OvertakingExample(o, input, 3, 5.0);
    OccupancyIffUncrowded(o, input);
  }
}
