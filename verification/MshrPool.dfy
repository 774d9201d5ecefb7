/** The MSHR pressure model of project AT-4.

    Records are processed in issue order.  A miss needs one of `capacity`
    entries; the model keeps the end times of the misses it still tracks and,
    when they fill the pool, grants the next miss at the earliest of them.

    The reference is a first-come-first-served pool: a miss is granted at the
    first moment from its lookup on at which fewer than `capacity` earlier
    misses are unfinished.
 */
module MshrPool {
  import opened SimTime
  import opened EndTimes

  const ACCEPT_DELAY: real := 1.0
  const LOOKUP_DELAY: real := 1.0
  const END_RESP_DELAY: real := 1.0

  datatype Options = Options(capacity: nat, hitLatency: real, interference: real)

  /** `hit` and `service` are the case's choices; later fields are written by the model. */
  datatype Record = Record(
    beginReq: real,
    hit: bool,
    service: real,
    accept: real,
    lookup: real,
    occupancy: nat,
    peak: nat,
    grant: real,
    memoryBegin: real,
    memoryEnd: real,
    beginResp: real,
    endResp: real,
    full: bool,
    queueDelay: real,
    serviceDelay: real,
    blocked: real)

  predicate InputValid(o: Options, input: seq<Record>) {
    && o.capacity >= 1
    && (forall i :: 0 <= i < |input| ==> input[i].service > 0.0)
    && (forall i, j :: 0 <= i <= j < |input| ==> input[i].beginReq <= input[j].beginReq)
  }

  // ---- The model, record by record ----

  function Lookup(r: Record): real {
    r.beginReq + ACCEPT_DELAY + LOOKUP_DELAY
  }

  function Grant(o: Options, live: seq<real>, lookup: real): real
    requires o.capacity >= 1
  {
    if |live| >= o.capacity then MinOf(live) else lookup
  }

  function LookedUp(o: Options, r: Record, occupancy: nat): Record {
    r.(accept := r.beginReq + ACCEPT_DELAY, lookup := Lookup(r),
       occupancy := occupancy, peak := occupancy,
       grant := Lookup(r), memoryBegin := Lookup(r), memoryEnd := Lookup(r))
  }

  function HitRecord(o: Options, r: Record, live: seq<real>): Record {
    var surcharge := |live| as real * o.interference * 0.35;
    var response := Lookup(r) + o.hitLatency + surcharge;
    LookedUp(o, r, |live|).(beginResp := response, endResp := response + END_RESP_DELAY, blocked := surcharge)
  }

  function MissRecord(o: Options, r: Record, live: seq<real>): Record
    requires o.capacity >= 1
  {
    var full := |live| >= o.capacity;
    var grant := Grant(o, live, Lookup(r));
    var delay := if full then Max(0.0, grant - Lookup(r)) else r.queueDelay;
    var kept := if full then RemoveCompleted(live, grant) else live;
    LookedUp(o, r, |live|).(
      full := full || r.full, grant := grant, queueDelay := delay,
      memoryBegin := grant, serviceDelay := r.service, memoryEnd := grant + r.service,
      peak := if |live| < |kept| + 1 then |kept| + 1 else |live|,
      beginResp := grant + r.service, endResp := grant + r.service + END_RESP_DELAY, blocked := delay)
  }

  /** The tracked ends, and the records processed so far. */
  datatype Pool = Pool(active: seq<real>, done: seq<Record>)

  function Process(o: Options, p: Pool, r: Record): Pool
    requires o.capacity >= 1
  {
    var live := RemoveCompleted(p.active, Lookup(r));
    if r.hit then Pool(live, p.done + [HitRecord(o, r, live)])
    else
      var grant := Grant(o, live, Lookup(r));
      var kept := if |live| >= o.capacity then RemoveCompleted(live, grant) else live;
      Pool(kept + [grant + r.service], p.done + [MissRecord(o, r, live)])
  }

  /** The pool after the first `k` records. */
  function After(o: Options, input: seq<Record>, k: nat): (p: Pool)
    requires o.capacity >= 1 && k <= |input|
    ensures |p.done| == k
  {
    if k == 0 then Pool([], []) else Process(o, After(o, input, k - 1), input[k - 1])
  }

  // ---- The first-come-first-served reference ----

  /** The end times of the misses among the first `k` records, in order. */
  function MissEnds(o: Options, input: seq<Record>, k: nat): seq<real>
    requires o.capacity >= 1 && k <= |input|
  {
    if k == 0 then []
    else MissEnds(o, input, k - 1) + (if input[k - 1].hit then [] else [Finish(o, input, k - 1)])
  }

  /** What the model grants record `k`, and when its memory access ends. */
  function Granted(o: Options, input: seq<Record>, k: nat): real
    requires o.capacity >= 1 && k < |input|
  {
    After(o, input, k + 1).done[k].grant
  }

  function Finish(o: Options, input: seq<Record>, k: nat): real
    requires o.capacity >= 1 && k < |input|
  {
    After(o, input, k + 1).done[k].memoryEnd
  }

  /** What processing a miss does. */
  lemma MissUnfolds(o: Options, input: seq<Record>, k: nat)
    requires o.capacity >= 1 && k < |input| && !input[k].hit
    ensures k == 0 ==> After(o, input, k).active == []
    ensures var live := RemoveCompleted(After(o, input, k).active, Lookup(input[k]));
            var grant := Grant(o, live, Lookup(input[k]));
            && Granted(o, input, k) == grant && Finish(o, input, k) == grant + input[k].service
            && After(o, input, k + 1).active
               == (if |live| >= o.capacity then RemoveCompleted(live, grant) else live) + [grant + input[k].service]
  {
    hide RemoveCompleted, MinOf;
  }

  /** `g` is the first moment from `lookup` on at which an entry is free. */
  ghost predicate FirstFree(capacity: nat, ends: seq<real>, lookup: real, g: real) {
    && lookup <= g
    && Later(ends, g) < capacity
    && (forall t :: lookup <= t < g ==> Later(ends, t) >= capacity)
  }

  ghost predicate FcfsAt(o: Options, input: seq<Record>, k: nat)
    requires o.capacity >= 1 && k < |input|
  {
    !input[k].hit ==> FirstFree(o.capacity, MissEnds(o, input, k), Lookup(input[k]), Granted(o, input, k))
  }

  /** The removal made when a full pool grants miss `j` drops every tracked end
      equal to the minimum; this says that it dropped more than one. */
  predicate OverRemoves(o: Options, input: seq<Record>, j: nat)
    requires o.capacity >= 1 && j < |input|
  {
    var live := RemoveCompleted(After(o, input, j).active, Lookup(input[j]));
    !input[j].hit && |live| >= o.capacity && |RemoveCompleted(live, MinOf(live))| + 2 <= |live|
  }

  // ---- The tracked ends against all ends ----

  /** The latest time at which anything was removed. */
  function Floor(o: Options, input: seq<Record>, k: nat): real
    requires o.capacity >= 1 && k <= |input|
  {
    if k == 0 then (if |input| == 0 then 0.0 else Lookup(input[0]))
    else Max(Floor(o, input, k - 1), Granted(o, input, k - 1))
  }

  /** The tracked ends never exceed the capacity; they are some of all ends, and
      all of those that lie after the last removal. */
  ghost predicate Tracks(o: Options, input: seq<Record>, k: nat)
    requires o.capacity >= 1 && k <= |input|
  {
    var active := After(o, input, k).active;
    && |active| <= o.capacity
    && (forall t :: Later(active, t) <= Later(MissEnds(o, input, k), t))
    && (forall t :: Floor(o, input, k) <= t ==> Later(active, t) == Later(MissEnds(o, input, k), t))
  }

  /** What granting at the earliest tracked end removes and keeps. */
  lemma EarliestGrant(live: seq<real>)
    requires |live| > 0
    ensures var t := MinOf(live);
            && |RemoveCompleted(live, t)| < |live|
            && (forall u :: u < t ==> Later(live, u) == |live|)
            && (forall i :: 0 <= i < |RemoveCompleted(live, t)| ==> RemoveCompleted(live, t)[i] > t)
  {
    var t := MinOf(live);
    MinOfIsLeast(live);
    RemoveKeepsLater(live, t, t);
    LaterAntitone(live, t, t);
    LaterBelowAll(live, t);
    forall u | u < t ensures Later(live, u) == |live| {
      LaterBelowAll(live, u);
    }
  }

  lemma {:induction false} TracksAlways(o: Options, input: seq<Record>, k: nat)
    requires InputValid(o, input) && k <= |input|
    ensures Tracks(o, input, k)
  {
    hide Process, RemoveCompleted;
    if k == 0 {
      assert After(o, input, k).active == [] == MissEnds(o, input, k);
    } else {
      TracksAlways(o, input, k - 1);
      StaysWithinCapacity(o, After(o, input, k - 1), input[k - 1]);
      forall t
        ensures Later(After(o, input, k).active, t) <= Later(MissEnds(o, input, k), t)
        ensures Floor(o, input, k) <= t ==> Later(After(o, input, k).active, t) == Later(MissEnds(o, input, k), t)
      {
        CountsFollow(o, After(o, input, k - 1), input[k - 1], MissEnds(o, input, k - 1), t);
      }
    }
  }

  lemma StaysWithinCapacity(o: Options, p: Pool, r: Record)
    requires o.capacity >= 1 && |p.active| <= o.capacity
    ensures |Process(o, p, r).active| <= o.capacity
  {
    var live := RemoveCompleted(p.active, Lookup(r));
    RemoveKeepsLater(p.active, Lookup(r), Lookup(r));
    LaterAntitone(p.active, Lookup(r), Lookup(r));
    if |live| > 0 {
      EarliestGrant(live);
    }
  }

  /** One record changes the tracked ends as it changes all ends, except below its grant. */
  lemma CountsFollow(o: Options, p: Pool, r: Record, ends: seq<real>, t: real)
    requires o.capacity >= 1 && Later(p.active, t) <= Later(ends, t)
    ensures var q := Process(o, p, r);
            var end := q.done[|p.done|].memoryEnd;
            var ends' := ends + (if r.hit then [] else [end]);
            && Later(q.active, t) <= Later(ends', t)
            && Lookup(r) <= q.done[|p.done|].grant
            && (Later(p.active, t) == Later(ends, t) && q.done[|p.done|].grant <= t
                ==> Later(q.active, t) == Later(ends', t))
  {
    hide RemoveCompleted, MinOf, Later;
    var live := RemoveCompleted(p.active, Lookup(r));
    RemoveKeepsLater(p.active, Lookup(r), t);
    RemoveKeepsLater(p.active, Lookup(r), Lookup(r));
    if |live| > 0 {
      MinOfIsLeast(live);
    }
    if r.hit {
      assert ends + [] == ends;
    } else {
      var grant := Grant(o, live, Lookup(r));
      RemoveKeepsLater(live, grant, t);
      LaterSnoc(ends, grant + r.service, t);
      LaterSnoc(if |live| >= o.capacity then RemoveCompleted(live, grant) else live, grant + r.service, t);
    }
  }

  // ---- The model is first come, first served, exactly when no tie is exploited ----

  /** Of the first `n` misses none looks up before a time at which more than one
      entry was dropped. */
  predicate NoTieExploited(o: Options, input: seq<Record>, n: nat)
    requires o.capacity >= 1 && n <= |input|
  {
    forall j, k :: 0 <= j < k < n && !input[k].hit && OverRemoves(o, input, j)
                   ==> Granted(o, input, j) <= Lookup(input[k])
  }

  predicate FloorPassed(o: Options, input: seq<Record>, k: nat)
    requires o.capacity >= 1 && k <= |input|
  {
    forall i :: k <= i < |input| ==> Floor(o, input, k) <= Lookup(input[i])
  }

  predicate PoolFull(o: Options, input: seq<Record>, k: nat)
    requires o.capacity >= 1 && k <= |input|
  {
    var active := After(o, input, k).active;
    |active| == o.capacity && Later(active, Floor(o, input, k)) == o.capacity
  }

  predicate TieOpen(o: Options, input: seq<Record>, k: nat)
    requires o.capacity >= 1 && k <= |input|
  {
    exists j :: 0 <= j < k && OverRemoves(o, input, j) && Granted(o, input, j) == Floor(o, input, k)
  }

  /** Before every record the last removal is past, or the pool is full of later
      ends, or a removal dropped too much. */
  lemma {:induction false} FloorCases(o: Options, input: seq<Record>, k: nat, n: nat)
    requires InputValid(o, input) && k <= n <= |input| && NoTieExploited(o, input, n)
    ensures FloorPassed(o, input, k) || PoolFull(o, input, k) || TieOpen(o, input, k)
    ensures forall i :: 0 <= i < k ==> FcfsAt(o, input, i)
  {
    hide Granted, Floor, FcfsAt, OverRemoves, PoolFull, TieOpen;
    if k == 0 {
      FloorStart(o, input);
    } else {
      FloorCases(o, input, k - 1, n);
      if input[k - 1].hit {
        HitStep(o, input, k - 1);
      } else {
        MissStep(o, input, k - 1, n);
      }
    }
  }

  lemma FloorStart(o: Options, input: seq<Record>)
    requires InputValid(o, input)
    ensures FloorPassed(o, input, 0)
  {
  }

  lemma HitStep(o: Options, input: seq<Record>, k: nat)
    requires InputValid(o, input) && k < |input| && input[k].hit
    requires FloorPassed(o, input, k) || PoolFull(o, input, k) || TieOpen(o, input, k)
    ensures FcfsAt(o, input, k)
    ensures FloorPassed(o, input, k + 1) || PoolFull(o, input, k + 1) || TieOpen(o, input, k + 1)
  {
    var lookup, floor := Lookup(input[k]), Floor(o, input, k);
    if floor > lookup {
      assert Floor(o, input, k + 1) == floor;
      if PoolFull(o, input, k) {
        var active := After(o, input, k).active;
        RemoveKeepsLater(active, lookup, floor);
        LaterAntitone(active, lookup, floor);
      } else {
        var j :| 0 <= j < k && OverRemoves(o, input, j) && Granted(o, input, j) == floor;
        assert TieOpen(o, input, k + 1);
      }
    }
  }

  /** The grant of a miss, given what the removals so far have left. */
  lemma MissStep(o: Options, input: seq<Record>, k: nat, n: nat)
    requires InputValid(o, input) && k < n <= |input| && NoTieExploited(o, input, n) && !input[k].hit
    requires FloorPassed(o, input, k) || PoolFull(o, input, k) || TieOpen(o, input, k)
    ensures FcfsAt(o, input, k)
    ensures FloorPassed(o, input, k + 1) || PoolFull(o, input, k + 1) || TieOpen(o, input, k + 1)
  {
    hide Later, RemoveCompleted, MinOf;
    var lookup, floor := Lookup(input[k]), Floor(o, input, k);
    var active := After(o, input, k).active;
    var live := RemoveCompleted(active, lookup);
    TracksAlways(o, input, k);
    assert floor <= lookup || PoolFull(o, input, k);
    RemoveKeepsLater(active, lookup, lookup);
    LaterAntitone(active, lookup, Max(lookup, floor));
    if |live| >= o.capacity {
      FullGrant(o, active, MissEnds(o, input, k), lookup, floor);
      AfterFullGrant(o, live, input[k].service);
      if OverRemoves(o, input, k) {
        assert TieOpen(o, input, k + 1);
      } else {
        assert PoolFull(o, input, k + 1);
      }
    }
  }

  lemma FullGrant(o: Options, active: seq<real>, ends: seq<real>, lookup: real, floor: real)
    requires o.capacity >= 1 && |active| <= o.capacity
    requires |RemoveCompleted(active, lookup)| >= o.capacity
    requires forall t :: floor <= t ==> Later(active, t) == Later(ends, t)
    requires floor <= lookup || Later(active, floor) == o.capacity
    ensures var grant := MinOf(RemoveCompleted(active, lookup));
            floor < grant && FirstFree(o.capacity, ends, lookup, grant)
  {
    var live := RemoveCompleted(active, lookup);
    var grant := MinOf(live);
    RemoveKeepsLater(active, lookup, lookup);
    LaterAntitone(active, lookup, lookup);
    EarliestGrant(live);
    MinOfIsLeast(live);
    if floor > lookup {
      RemoveKeepsLater(active, lookup, floor);
      LaterBelowAll(live, floor);
    }
    RemoveKeepsLater(active, lookup, grant);
    RemoveKeepsLater(live, grant, grant);
    forall t | lookup <= t < grant ensures Later(ends, t) >= o.capacity {
      RemoveKeepsLater(active, lookup, t);
      if t < floor {
        LaterAntitone(ends, t, floor);
      }
    }
  }

  /** A full grant that drops one entry leaves the pool full of later ends. */
  lemma AfterFullGrant(o: Options, live: seq<real>, service: real)
    requires |live| == o.capacity >= 1 && service > 0.0
    ensures var grant := MinOf(live);
            var kept := RemoveCompleted(live, grant);
            |kept| + 2 <= |live| || (|kept| + 1 == o.capacity && Later(kept + [grant + service], grant) == o.capacity)
  {
    var grant := MinOf(live);
    var kept := RemoveCompleted(live, grant);
    EarliestGrant(live);
    RemoveKeepsLater(live, grant, grant);
    LaterBelowAll(kept, grant);
    LaterSnoc(kept, grant + service, grant);
  }

  // ---- The converse: an exploited tie breaks the order ----

  lemma {:induction false} MissEndsGrow(o: Options, input: seq<Record>, j: nat, k: nat, t: real)
    requires o.capacity >= 1 && j <= k <= |input|
    ensures Later(MissEnds(o, input, j), t) <= Later(MissEnds(o, input, k), t)
  {
    hide Later, Finish;
    if j < k {
      MissEndsGrow(o, input, j, k - 1, t);
      var ends := MissEnds(o, input, k - 1);
      if input[k - 1].hit {
        assert ends + [] == ends;
      } else {
        LaterSnoc(ends, Finish(o, input, k - 1), t);
      }
    }
  }

  /** Hits only prune, so a pool that is not full stays so until the next miss. */
  lemma {:induction false} NotFullUntilMiss(o: Options, input: seq<Record>, j: nat, k: nat)
    requires o.capacity >= 1 && j <= k <= |input|
    requires |After(o, input, j).active| < o.capacity
    requires forall i :: j <= i < k ==> input[i].hit
    ensures |After(o, input, k).active| < o.capacity
  {
    hide Later, MinOf, RemoveCompleted;
    if j < k {
      NotFullUntilMiss(o, input, j, k - 1);
      var active := After(o, input, k - 1).active;
      RemoveKeepsLater(active, Lookup(input[k - 1]), Lookup(input[k - 1]));
      LaterAntitone(active, Lookup(input[k - 1]), Lookup(input[k - 1]));
    }
  }

  /** The next miss after a tie that looks up before the dropped ends finds the
      tracked list short and is granted at once, before the miss that dropped them. */
  lemma TieGrantsAtOnce(o: Options, input: seq<Record>, j: nat, k: nat)
    requires InputValid(o, input) && j < k < |input| && OverRemoves(o, input, j)
    requires !input[k].hit && forall i :: j < i < k ==> input[i].hit
    requires Lookup(input[k]) < Granted(o, input, j)
    ensures Granted(o, input, k) == Lookup(input[k])
  {
    hide Later, MinOf, RemoveCompleted;
    TracksAlways(o, input, j);
    OverRemovalLeavesRoom(o, input, j);
    NotFullUntilMiss(o, input, j + 1, k);
    var active := After(o, input, k).active;
    RemoveKeepsLater(active, Lookup(input[k]), Lookup(input[k]));
    LaterAntitone(active, Lookup(input[k]), Lookup(input[k]));
  }

  lemma OverRemovalLeavesRoom(o: Options, input: seq<Record>, j: nat)
    requires InputValid(o, input) && j < |input| && OverRemoves(o, input, j)
    requires |After(o, input, j).active| <= o.capacity
    ensures |After(o, input, j + 1).active| < o.capacity
  {
    hide Later, MinOf, RemoveCompleted;
    var active := After(o, input, j).active;
    RemoveKeepsLater(active, Lookup(input[j]), Lookup(input[j]));
    LaterAntitone(active, Lookup(input[j]), Lookup(input[j]));
  }

  /** When a full pool dropped ends at its grant, all ends up to then were still
      ahead at every earlier time from the lookup on. */
  lemma FullBeforeGrant(o: Options, input: seq<Record>, j: nat, t: real)
    requires InputValid(o, input) && j < |input| && OverRemoves(o, input, j)
    requires Lookup(input[j]) <= t < Granted(o, input, j)
    ensures Later(MissEnds(o, input, j), t) >= o.capacity
  {
    hide Later, MinOf, RemoveCompleted;
    var active := After(o, input, j).active;
    var live := RemoveCompleted(active, Lookup(input[j]));
    TracksAlways(o, input, j);
    EarliestGrant(live);
    RemoveKeepsLater(active, Lookup(input[j]), t);
    assert Later(live, t) == |live|;
  }

  /** That grant is early: the reference pool is still full. */
  lemma TieBreaksFcfs(o: Options, input: seq<Record>, j: nat, k: nat)
    requires InputValid(o, input) && j < k < |input| && OverRemoves(o, input, j)
    requires !input[k].hit && forall i :: j < i < k ==> input[i].hit
    requires Lookup(input[k]) < Granted(o, input, j)
    ensures !FcfsAt(o, input, k)
  {
    hide Later, OverRemoves, Granted;
    TieGrantsAtOnce(o, input, j, k);
    FullBeforeGrant(o, input, j, Lookup(input[k]));
    MissEndsGrow(o, input, j, k, Lookup(input[k]));
  }

  lemma {:induction false} FirstMissAfter(input: seq<Record>, j: nat, k: nat) returns (m: nat)
    requires j < k < |input| && !input[k].hit
    ensures j < m <= k && !input[m].hit && forall i :: j < i < m ==> input[i].hit
    decreases k - j
  {
    if i :| j < i < k && !input[i].hit {
      m := FirstMissAfter(input, j, i);
    } else {
      m := k;
    }
  }

  /** A pair that exploits a tie yields one without misses in between. */
  lemma ExploitingPair(o: Options, input: seq<Record>, n: nat) returns (j: nat, k: nat)
    requires InputValid(o, input) && n <= |input| && !NoTieExploited(o, input, n)
    ensures j < k < n && OverRemoves(o, input, j) && Lookup(input[k]) < Granted(o, input, j)
    ensures !input[k].hit && forall i :: j < i < k ==> input[i].hit
  {
    var m: nat;
    j, m :| 0 <= j < m < n && !input[m].hit && OverRemoves(o, input, j) && Granted(o, input, j) > Lookup(input[m]);
    k := FirstMissAfter(input, j, m);
    assert input[k].beginReq <= input[m].beginReq;
  }

  /** The first `n` records are served first come, first served exactly when no miss
      among them exploits a tie: it looks up before a time at which a full pool
      dropped more than one equal end. */
  lemma FcfsIffNoTieExploited(o: Options, input: seq<Record>, n: nat)
    requires InputValid(o, input) && n <= |input|
    ensures NoTieExploited(o, input, n) <==> forall k :: 0 <= k < n ==> FcfsAt(o, input, k)
  {
    hide Granted, OverRemoves, FcfsAt;
    if NoTieExploited(o, input, n) {
      FloorCases(o, input, n, n);
    } else {
      var j, k := ExploitingPair(o, input, n);
      TieBreaksFcfs(o, input, j, k);
    }
  }

  // ---- The loop ----

  /** Processes the records in order, updating each in place. */
  method RunSharedResourceModel(o: Options, input: seq<Record>) returns (records: seq<Record>)
    requires InputValid(o, input)
    ensures records == After(o, input, |input|).done
    ensures NoTieExploited(o, input, |input|) <==> forall k :: 0 <= k < |input| ==> FcfsAt(o, input, k)
  {
    hide Later, RemoveCompleted, MinOf, Filters, FcfsAt, NoTieExploited;
    records := input;
    var activeMissEndTimes: seq<real> := [];
    for k := 0 to |input|
      invariant |records| == |input| && records[k..] == input[k..]
      invariant Pool(activeMissEndTimes, records[..k]) == After(o, input, k)
    {
      var r := records[k];
      assert r == input[k] by {
        assert records[k..][0] == input[k..][0];
      }
      activeMissEndTimes := PruneCompleted(activeMissEndTimes, Lookup(r));
      var live := activeMissEndTimes;
      if r.hit {
        r := HitRecord(o, r, live);
      } else {
        var grant := Lookup(r);
        if |live| >= o.capacity {
          grant := EarliestEnd(live);
          activeMissEndTimes := PruneCompleted(activeMissEndTimes, grant);
        }
        activeMissEndTimes := activeMissEndTimes + [grant + r.service];
        r := MissRecord(o, r, live);
      }
      records := records[k := r];
      assert records[..k + 1] == After(o, input, k).done + [r];
    }
    assert records[..|input|] == records;
    FcfsIffNoTieExploited(o, input, |input|);
  }
}
