/** What the records of an AT-4 run report: the responses, what a lookup found, and when
    the reported occupancy is the real one. */
module MshrReport {
  import opened SimTime
  import opened EndTimes
  import opened MshrPool
  import opened MshrTheorems

  /** Record `k` as the run leaves it. */
  function Reported(o: Options, input: seq<Record>, k: nat): Record
    requires o.capacity >= 1 && k < |input|
  {
    After(o, input, |input|).done[k]
  }

  lemma {:induction false} StoredOnce(o: Options, input: seq<Record>, k: nat, n: nat)
    requires o.capacity >= 1 && k < n <= |input|
    ensures After(o, input, n).done[k] == After(o, input, k + 1).done[k]
  {
    if k == n - 1 {
    } else {
      StoredOnce(o, input, k, n - 1);
    }
  }

  lemma ReportedIs(o: Options, input: seq<Record>, k: nat)
    requires o.capacity >= 1 && k < |input|
    ensures var live := RemoveCompleted(After(o, input, k).active, Lookup(input[k]));
            Reported(o, input, k)
            == if input[k].hit then HitRecord(o, input[k], live) else MissRecord(o, input[k], live)
    ensures Reported(o, input, k).grant == Granted(o, input, k)
  {
    hide RemoveCompleted, MinOf, HitRecord, MissRecord;
    StoredOnce(o, input, k, |input|);
  }

  /** A hit answers after accept, lookup and hit latency, 0.35 of the interference later for
      every miss it finds tracked, and reports that surcharge as its blocked time. */
  predicate HitResponds(o: Options, input: Record, r: Record) {
    var begin := input.beginReq;
    var surcharge := 0.35 * (r.occupancy as real * o.interference);
    && r.beginReq == begin && r.accept == begin + 1.0
    && r.lookup == r.grant == r.memoryBegin == r.memoryEnd == begin + 2.0
    && r.beginResp == begin + 2.0 + o.hitLatency + surcharge
    && r.endResp - begin == 3.0 + o.hitLatency + surcharge
    && r.blocked == surcharge && r.peak == r.occupancy
    && r.full == input.full && r.queueDelay == input.queueDelay
  }

  lemma HitsAreExact(o: Options, input: seq<Record>, k: nat)
    requires o.capacity >= 1 && k < |input| && input[k].hit
    ensures HitResponds(o, input[k], Reported(o, input, k))
  {
    ReportedIs(o, input, k);
    hide Reported, Granted, RemoveCompleted, MinOf, After, HitRecord, HitResponds;
    HitIsExact(o, input[k], RemoveCompleted(After(o, input, k).active, Lookup(input[k])));
  }

  function Product(x: real, y: real): real { x * y }

  lemma HitIsExact(o: Options, input: Record, live: seq<real>)
    ensures HitResponds(o, input, HitRecord(o, input, live))
  {
    var load := Product(|live| as real, o.interference);
    assert |live| as real * o.interference * 0.35 == load * 0.35;
    hide Product;
  }

  /** A miss answers when its memory access ends.  It finds the pool full exactly when it
      waits for its grant; then what it reports as queueing and as blocked time is that
      wait, and otherwise both stay as the record came. */
  lemma MissesAreExact(o: Options, input: seq<Record>, k: nat)
    requires InputValid(o, input) && k < |input| && !input[k].hit
    ensures var r, begin := Reported(o, input, k), input[k].beginReq;
            && r.beginReq == begin && r.accept == begin + 1.0 && r.lookup == begin + 2.0 <= r.grant
            && r.memoryBegin == r.grant && r.serviceDelay == r.service == input[k].service
            && r.memoryEnd == r.beginResp == r.grant + r.service && r.endResp == r.beginResp + 1.0
            && r.blocked == r.queueDelay == (if r.lookup < r.grant then r.grant - r.lookup else input[k].queueDelay)
            && (r.occupancy == o.capacity <==> r.lookup < r.grant)
            && (r.full <==> input[k].full || r.occupancy == o.capacity)
            && r.occupancy <= o.capacity && r.peak == NatMin(o.capacity, r.occupancy + 1)
  {
    var active, lookup := After(o, input, k).active, Lookup(input[k]);
    var live := RemoveCompleted(active, lookup);
    ReportedIs(o, input, k);
    TracksAlways(o, input, k);
    hide Later, RemoveCompleted, MinOf, Reported, Granted, After, MissEnds, Floor;
    RemoveKeepsLater(active, lookup, lookup);
    LaterAntitone(active, lookup, lookup);
    if |live| > 0 {
      MinOfIsLeast(live);
      EarliestGrant(live);
    }
  }

  /** The misses of the run that are unfinished at the lookup, up to the capacity. */
  function Unfinished(o: Options, input: seq<Record>, k: nat): nat
    requires o.capacity >= 1 && k < |input|
  {
    NatMin(o.capacity, Later(MissEnds(o, input, k), Lookup(input[k])))
  }

  /** A full pool has dropped a tie that the k-th lookup comes before. */
  predicate TieDropped(o: Options, input: seq<Record>, k: nat)
    requires o.capacity >= 1 && k < |input|
  {
    exists j :: 0 <= j < k && OverRemoves(o, input, j) && Lookup(input[k]) < Granted(o, input, j)
  }

  lemma OccupancyIsTracked(o: Options, input: seq<Record>, k: nat)
    requires InputValid(o, input) && k < |input|
    ensures Reported(o, input, k).occupancy
            == Later(After(o, input, k).active, Lookup(input[k])) <= Unfinished(o, input, k)
  {
    ReportedIs(o, input, k);
    TracksAlways(o, input, k);
    hide Later, RemoveCompleted, MinOf, Reported, Granted, After, MissEnds, Floor;
    RemoveKeepsLater(After(o, input, k).active, Lookup(input[k]), Lookup(input[k]));
    LaterAntitone(After(o, input, k).active, Lookup(input[k]), Lookup(input[k]));
  }

  lemma TieHidesOccupancy(o: Options, input: seq<Record>, k: nat, j: nat)
    requires InputValid(o, input) && k < |input| && NoTieExploited(o, input, k)
    requires j < k && OverRemoves(o, input, j) && Lookup(input[k]) < Granted(o, input, j)
    ensures |After(o, input, k).active| < o.capacity && Unfinished(o, input, k) == o.capacity
  {
    hide Later, MissEnds, Granted, OverRemoves, After, Tracks;
    forall i | j < i < k ensures input[i].hit {
      assert input[i].beginReq <= input[k].beginReq;
    }
    assert input[j].beginReq <= input[k].beginReq;
    TracksAlways(o, input, j);
    TracksBounds(o, input, j);
    OverRemovalLeavesRoom(o, input, j);
    NotFullUntilMiss(o, input, j + 1, k);
    FullBeforeGrant(o, input, j, Lookup(input[k]));
    MissEndsGrow(o, input, j, k, Lookup(input[k]));
  }

  lemma TracksBounds(o: Options, input: seq<Record>, k: nat)
    requires o.capacity >= 1 && k <= |input| && Tracks(o, input, k)
    ensures |After(o, input, k).active| <= o.capacity
  {
  }

  lemma NoTieShowsOccupancy(o: Options, input: seq<Record>, k: nat)
    requires InputValid(o, input) && k < |input| && NoTieExploited(o, input, k) && !TieDropped(o, input, k)
    ensures Later(After(o, input, k).active, Lookup(input[k])) == Unfinished(o, input, k)
  {
    FloorCases(o, input, k, k);
    TracksAlways(o, input, k);
    hide Later, MissEnds, Granted, OverRemoves, Floor;
    var active, lookup, floor := After(o, input, k).active, Lookup(input[k]), Floor(o, input, k);
    hide After;
    LaterAntitone(active, lookup, lookup);
    if floor > lookup {
      assert PoolFull(o, input, k);
      LaterAntitone(active, lookup, floor);
    }
  }

  /** In a first-come-first-served run the occupancy a lookup reports is the number of
      unfinished misses, up to the capacity, exactly when no tie was dropped at a grant
      still ahead of it; otherwise it is too small. */
  lemma OccupancyIffNoTieDropped(o: Options, input: seq<Record>, k: nat)
    requires InputValid(o, input) && k < |input| && Fcfs(o, input, k)
    ensures Reported(o, input, k).occupancy <= Unfinished(o, input, k)
    ensures Reported(o, input, k).occupancy == Unfinished(o, input, k) <==> !TieDropped(o, input, k)
  {
    hide Later, MissEnds, Granted, OverRemoves, After, FcfsAt, Reported, NoTieExploited, Unfinished;
    FcfsIffNoTieExploited(o, input, k);
    OccupancyIsTracked(o, input, k);
    if TieDropped(o, input, k) {
      var j :| 0 <= j < k && OverRemoves(o, input, j) && Lookup(input[k]) < Granted(o, input, j);
      TieHidesOccupancy(o, input, k, j);
      LaterAntitone(After(o, input, k).active, Lookup(input[k]), Lookup(input[k]));
    } else {
      NoTieShowsOccupancy(o, input, k);
    }
  }
}
