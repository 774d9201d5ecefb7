/** What the records of an AT-5 run report: the blocked time, and what each record found
    in the two queues. */
module TandemReport {
  import opened SimTime
  import opened EndTimes
  import opened TandemQueues

  /** A record is blocked for all the time from its request to its service but the one
      spent in the ingress pipeline; that is its arbitration delay and its stall.  The
      other fields follow from the times. */
  lemma BlockedIsExact(o: Options, input: seq<Record>, k: nat)
    requires InputValid(o, input) && k < |input|
    ensures var r := Done(o, input, k);
            && r.blocked == r.serviceBegin - r.beginReq - 1.0 == r.arbitration + r.stall
            && r.beginReq == input[k].beginReq && r.arbitration == input[k].arbitration && r.service == input[k].service
            && r.ingressEnqueue == r.accept && r.ingressDequeue == r.downstreamEnqueue
            && r.serviceTime == r.service && r.serviceEnd == r.serviceBegin + r.service
            && r.beginResp == r.serviceEnd + 1.0 && r.endResp == r.serviceEnd + 2.0
            && (r.ingressFull <==> input[k].ingressFull || r.ingressDepth >= o.ingressCapacity)
            && (r.downstreamFull <==> input[k].downstreamFull || r.downstreamDepth >= o.downstreamCapacity)
            && (!r.ingressFull ==> r.accept == r.beginReq + r.arbitration)
            && (!r.downstreamFull ==> r.downstreamEnqueue == r.accept + 1.0)
  {
    var q, r := After(o, input, k), input[k];
    ListsBounded(o, input, k);
    AdmitKeepsCapacity(o.ingressCapacity, q.ingress, AcceptCandidate(r));
    AdmitKeepsCapacity(o.downstreamCapacity, q.downstream, DownstreamCandidate(o, q, r));
    LiveIsLater(q.ingress, AcceptCandidate(r));
    LiveIsLater(q.downstream, DownstreamCandidate(o, q, r));
    hide RemoveCompleted, MinOf, Live, After;
  }

  // ---- The places held in a queue ----

  /** How many of the first `n` entries are held at `t` after `k` admissions: released later
      than `t` and later than every admission since they entered. */
  function PlacesHeld(releases: seq<real>, admissions: seq<real>, k: nat, t: real, n: nat): nat
    requires n <= k <= |releases| && k <= |admissions|
  {
    if n == 0 then 0
    else PlacesHeld(releases, admissions, k, t, n - 1)
         + (if releases[n - 1] > t && forall j :: n <= j < k ==> releases[n - 1] > admissions[j] then 1 else 0)
  }

  lemma {:induction false} OneMoreAdmission(releases: seq<real>, admissions: seq<real>, k: nat, t: real, n: nat)
    requires n <= k < |releases| && k < |admissions|
    ensures PlacesHeld(releases, admissions, k + 1, t, n)
            == PlacesHeld(releases, admissions, k, Max(t, admissions[k]), n)
  {
    if n == 0 {
    } else {
      OneMoreAdmission(releases, admissions, k, t, n - 1);
      var e := releases[n - 1];
      assert (forall j :: n <= j < k + 1 ==> e > admissions[j])
        <==> e > admissions[k] && forall j :: n <= j < k ==> e > admissions[j];
    }
  }

  /** A list pruned at every admission. */
  function PrunedList(releases: seq<real>, admissions: seq<real>, k: nat): seq<real>
    requires k <= |releases| && k <= |admissions|
  {
    if k == 0 then []
    else RemoveCompleted(PrunedList(releases, admissions, k - 1), admissions[k - 1]) + [releases[k - 1]]
  }

  lemma RemovedLater(ends: seq<real>, a: real, t: real)
    ensures Later(RemoveCompleted(ends, a), t) == Later(ends, Max(t, a))
  {
    hide Later, RemoveCompleted;
    RemoveKeepsLater(ends, a, t);
    if t < a {
      RemoveKeepsLater(ends, a, a);
      LaterBelowAll(RemoveCompleted(ends, a), t);
    }
  }

  lemma NewestIsHeld(releases: seq<real>, admissions: seq<real>, k: nat, t: real)
    requires 0 < k <= |releases| && k <= |admissions|
    ensures PlacesHeld(releases, admissions, k, t, k)
            == PlacesHeld(releases, admissions, k, t, k - 1) + if releases[k - 1] > t then 1 else 0
  {
  }

  lemma {:induction false} PrunedListHolds(releases: seq<real>, admissions: seq<real>, k: nat, t: real)
    requires k <= |releases| && k <= |admissions|
    ensures Later(PrunedList(releases, admissions, k), t) == PlacesHeld(releases, admissions, k, t, k)
  {
    if k == 0 {
      assert PrunedList(releases, admissions, k) == [];
    } else {
      hide Later, RemoveCompleted, PlacesHeld;
      var before, a, e := PrunedList(releases, admissions, k - 1), admissions[k - 1], releases[k - 1];
      PrunedListHolds(releases, admissions, k - 1, Max(t, a));
      OneMoreAdmission(releases, admissions, k - 1, t, k - 1);
      NewestIsHeld(releases, admissions, k, t);
      RemovedLater(before, a, t);
      LaterSnoc(RemoveCompleted(before, a), e, t);
    }
  }

  lemma {:induction false} RemoveTwice(ends: seq<real>, t: real, u: real)
    requires t <= u
    ensures RemoveCompleted(RemoveCompleted(ends, t), u) == RemoveCompleted(ends, u)
  {
    if |ends| == 0 {
    } else {
      var front, e := ends[..|ends| - 1], ends[|ends| - 1];
      RemoveTwice(front, t, u);
      assert ends == front + [e];
      RemoveSnoc(front, e, t);
      RemoveSnoc(front, e, u);
      RemoveSnoc(RemoveCompleted(front, t), e, u);
    }
  }

  /** What an admission leaves is the list pruned at the admission time. */
  lemma KeptIsPruned(capacity: nat, times: seq<real>, candidate: real)
    requires capacity >= 1 && |times| <= capacity
    ensures Kept(capacity, Live(times, candidate), candidate)
            == RemoveCompleted(times, AdmitTime(capacity, Live(times, candidate), candidate))
  {
    AdmitKeepsCapacity(capacity, times, candidate);
    if IsFull(capacity, Live(times, candidate)) {
      RemoveTwice(times, candidate, AdmitTime(capacity, Live(times, candidate), candidate));
    }
  }

  // ---- The two queues of a run ----

  function Accepts(o: Options, input: seq<Record>): (xs: seq<real>)
    requires InputValid(o, input)
    ensures |xs| == |input| && forall k :: 0 <= k < |input| ==> xs[k] == Done(o, input, k).accept
  {
    seq(|input|, k requires 0 <= k < |input| => Done(o, input, k).accept)
  }

  function Enqueues(o: Options, input: seq<Record>): (xs: seq<real>)
    requires InputValid(o, input)
    ensures |xs| == |input| && forall k :: 0 <= k < |input| ==> xs[k] == Done(o, input, k).downstreamEnqueue
  {
    seq(|input|, k requires 0 <= k < |input| => Done(o, input, k).downstreamEnqueue)
  }

  function Ends(o: Options, input: seq<Record>): (xs: seq<real>)
    requires InputValid(o, input)
    ensures |xs| == |input| && forall k :: 0 <= k < |input| ==> xs[k] == Done(o, input, k).serviceEnd
  {
    seq(|input|, k requires 0 <= k < |input| => Done(o, input, k).serviceEnd)
  }

  lemma ListsStep(o: Options, input: seq<Record>, k: nat)
    requires InputValid(o, input) && k < |input|
    ensures After(o, input, k + 1).ingress
            == RemoveCompleted(After(o, input, k).ingress, Done(o, input, k).accept)
               + [Done(o, input, k).downstreamEnqueue]
    ensures After(o, input, k + 1).downstream
            == RemoveCompleted(After(o, input, k).downstream, Done(o, input, k).downstreamEnqueue)
               + [Done(o, input, k).serviceEnd]
  {
    var q, r := After(o, input, k), input[k];
    ListsBounded(o, input, k);
    KeptIsPruned(o.ingressCapacity, q.ingress, AcceptCandidate(r));
    KeptIsPruned(o.downstreamCapacity, q.downstream, DownstreamCandidate(o, q, r));
    hide Live, Kept, AdmitTime, RemoveCompleted;
    assert After(o, input, k + 1) == Process(o, q, r);
  }

  lemma {:induction false} ListsArePruned(o: Options, input: seq<Record>, k: nat)
    requires InputValid(o, input) && k <= |input|
    ensures After(o, input, k).ingress == PrunedList(Enqueues(o, input), Accepts(o, input), k)
    ensures After(o, input, k).downstream == PrunedList(Ends(o, input), Enqueues(o, input), k)
  {
    hide Enqueues, Accepts, Ends, Done, Process, RemoveCompleted;
    if k == 0 {
      assert After(o, input, k).ingress == [] && After(o, input, k).downstream == [];
    } else {
      ListsArePruned(o, input, k - 1);
      ListsStep(o, input, k - 1);
    }
  }

  /** Each record reports as queue depths exactly the earlier records that hold a place
      when it arrives: in the ingress queue those not yet moved on, in the downstream queue
      those not yet served, and in both not before any record admitted since. */
  lemma DepthsAreExact(o: Options, input: seq<Record>, k: nat)
    requires InputValid(o, input) && k < |input|
    ensures var r := Done(o, input, k);
            && r.ingressDepth
               == PlacesHeld(Enqueues(o, input), Accepts(o, input), k, r.beginReq + r.arbitration, k)
            && r.downstreamDepth == PlacesHeld(Ends(o, input), Enqueues(o, input), k, r.accept + 1.0, k)
  {
    hide After, Done, Later, RemoveCompleted, PlacesHeld, PrunedList, Enqueues, Accepts, Ends;
    ListsArePruned(o, input, k);
    DepthsAreCounts(o, input, k);
    var r := Done(o, input, k);
    PrunedListHolds(Enqueues(o, input), Accepts(o, input), k, r.beginReq + r.arbitration);
    PrunedListHolds(Ends(o, input), Enqueues(o, input), k, r.accept + 1.0);
  }

  lemma DepthsAreCounts(o: Options, input: seq<Record>, k: nat)
    requires InputValid(o, input) && k < |input|
    ensures var r := Done(o, input, k);
            && r.ingressDepth == Later(After(o, input, k).ingress, r.beginReq + r.arbitration)
            && r.downstreamDepth == Later(After(o, input, k).downstream, r.accept + 1.0)
  {
    hide After, ProcessedRecord, Later;
    DepthFields(o, After(o, input, k), input[k]);
  }

  lemma DepthFields(o: Options, q: Queues, input: Record)
    requires o.ingressCapacity >= 1 && o.downstreamCapacity >= 1
    ensures var r := ProcessedRecord(o, q, input);
            && r.ingressDepth == Later(q.ingress, r.beginReq + r.arbitration)
            && r.downstreamDepth == Later(q.downstream, r.accept + 1.0)
  {
    var r := ProcessedRecord(o, q, input);
    assert r.ingressDepth == |Live(q.ingress, r.beginReq + r.arbitration)|;
    assert r.downstreamDepth == |Live(q.downstream, r.accept + 1.0)|;
    hide ProcessedRecord, Later, RemoveCompleted;
    RemoveKeepsLater(q.ingress, r.beginReq + r.arbitration, 0.0);
    RemoveKeepsLater(q.downstream, r.accept + 1.0, 0.0);
  }
}
