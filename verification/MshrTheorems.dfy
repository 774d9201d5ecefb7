/** When the MSHR pool of project AT-4 is a first-come-first-served pool, what that is
    equivalent to, and what holds of every run.

    The reference schedule is a function of the input alone: each miss is granted at
    the first moment from its lookup on at which fewer than `capacity` earlier
    misses of the schedule are unfinished.
 */
module MshrTheorems {
  import opened SimTime
  import opened EndTimes
  import opened MshrPool

  // ---- The reference schedule ----

  /** The first moment from `t` on at which fewer than `capacity` ends are ahead. */
  function FirstFreeTime(capacity: nat, ends: seq<real>, t: real): real
    requires capacity >= 1
    decreases Later(ends, t)
  {
    if Later(ends, t) < capacity then t
    else
      NextEndIsCloser(ends, t);
      FirstFreeTime(capacity, ends, MinOf(RemoveCompleted(ends, t)))
  }

  lemma NextEndIsCloser(ends: seq<real>, t: real)
    requires Later(ends, t) > 0
    ensures |RemoveCompleted(ends, t)| > 0
    ensures var u := MinOf(RemoveCompleted(ends, t));
            && t < u && Later(ends, u) < Later(ends, t)
            && forall v :: t <= v < u ==> Later(ends, v) == Later(ends, t)
  {
    hide Later, RemoveCompleted, MinOf;
    var live := RemoveCompleted(ends, t);
    RemoveKeepsLater(ends, t, t);
    EarliestGrant(live);
    var u := MinOf(live);
    MinOfIsLeast(live);
    RemoveKeepsLater(ends, t, u);
    RemoveKeepsLater(live, u, u);
    forall v | t <= v < u ensures Later(ends, v) == Later(ends, t) {
      RemoveKeepsLater(ends, t, v);
    }
  }

  lemma {:induction false} FirstFreeTimeIsFirst(capacity: nat, ends: seq<real>, t: real)
    requires capacity >= 1
    ensures FirstFree(capacity, ends, t, FirstFreeTime(capacity, ends, t))
    decreases Later(ends, t)
  {
    hide Later, RemoveCompleted, MinOf;
    if Later(ends, t) >= capacity {
      NextEndIsCloser(ends, t);
      FirstFreeTimeIsFirst(capacity, ends, MinOf(RemoveCompleted(ends, t)));
    }
  }

  lemma FirstFreeIsUnique(capacity: nat, ends: seq<real>, t: real, g: real, h: real)
    requires FirstFree(capacity, ends, t, g) && FirstFree(capacity, ends, t, h)
    ensures g == h
  {
    hide Later;
    assert g < h ==> Later(ends, g) >= capacity;
    assert h < g ==> Later(ends, h) >= capacity;
  }

  /** The ends of the misses among the first `k` records, in the reference schedule. */
  function ReferenceEnds(o: Options, input: seq<Record>, k: nat): seq<real>
    requires o.capacity >= 1 && k <= |input|
    decreases k, 0
  {
    if k == 0 then []
    else if input[k - 1].hit then ReferenceEnds(o, input, k - 1)
    else ReferenceEnds(o, input, k - 1) + [ReferenceGrant(o, input, k - 1) + input[k - 1].service]
  }

  function ReferenceGrant(o: Options, input: seq<Record>, k: nat): real
    requires o.capacity >= 1 && k < |input|
    decreases k, 1
  {
    FirstFreeTime(o.capacity, ReferenceEnds(o, input, k), Lookup(input[k]))
  }

  /** How many of the ends fall on `t`. */
  function Ties(ends: seq<real>, t: real): nat {
    if |ends| == 0 then 0
    else Ties(ends[..|ends| - 1], t) + (if ends[|ends| - 1] == t then 1 else 0)
  }

  /** The condition on the input: no miss looks up before a reference grant at which
      two reference ends coincide. */
  predicate TieFree(o: Options, input: seq<Record>, n: nat)
    requires o.capacity >= 1 && n <= |input|
  {
    forall j, k :: 0 <= j < k < n && !input[j].hit && !input[k].hit
                   && Ties(ReferenceEnds(o, input, j), ReferenceGrant(o, input, j)) >= 2
                   ==> ReferenceGrant(o, input, j) <= Lookup(input[k])
  }

  ghost predicate Fcfs(o: Options, input: seq<Record>, n: nat)
    requires o.capacity >= 1 && n <= |input|
  {
    forall k :: 0 <= k < n ==> FcfsAt(o, input, k)
  }

  lemma GrantIsReference(o: Options, input: seq<Record>, k: nat)
    requires o.capacity >= 1 && k < |input| && !input[k].hit && FcfsAt(o, input, k)
    requires MissEnds(o, input, k) == ReferenceEnds(o, input, k)
    ensures Granted(o, input, k) == ReferenceGrant(o, input, k)
    ensures MissEnds(o, input, k + 1) == ReferenceEnds(o, input, k + 1)
  {
    var ends, lookup := MissEnds(o, input, k), Lookup(input[k]);
    MissUnfolds(o, input, k);
    FirstFreeTimeIsFirst(o.capacity, ends, lookup);
    hide Granted, Finish, FirstFreeTime, FirstFree;
    FirstFreeIsUnique(o.capacity, ends, lookup, Granted(o, input, k), ReferenceGrant(o, input, k));
  }

  /** A first-come-first-served run is the reference schedule. */
  lemma {:induction false} FcfsIsReference(o: Options, input: seq<Record>, k: nat)
    requires o.capacity >= 1 && k <= |input| && Fcfs(o, input, k)
    ensures MissEnds(o, input, k) == ReferenceEnds(o, input, k)
    ensures forall i :: 0 <= i < k && !input[i].hit ==> Granted(o, input, i) == ReferenceGrant(o, input, i)
  {
    hide Granted, Finish, ReferenceGrant, FcfsAt;
    if k == 0 {
      assert MissEnds(o, input, k) == [];
    } else {
      FcfsIsReference(o, input, k - 1);
      if input[k - 1].hit {
        assert MissEnds(o, input, k) == MissEnds(o, input, k - 1);
      } else {
        GrantIsReference(o, input, k - 1);
      }
    }
  }

  // ---- Ties in the two schedules ----

  /** Close enough before `g` the only ends passed by then are those on `g`. */
  lemma {:induction false} JustBefore(ends: seq<real>, from: real, g: real) returns (u: real)
    requires from < g
    ensures from <= u < g
    ensures forall v :: u <= v < g ==> Later(ends, v) == Later(ends, g) + Ties(ends, g)
  {
    if |ends| == 0 {
      u := from;
    } else {
      var e := ends[|ends| - 1];
      u := JustBefore(ends[..|ends| - 1], from, g);
      if u < e < g {
        u := e;
      }
    }
  }

  lemma TiesSnoc(ends: seq<real>, e: real, t: real)
    ensures Ties(ends + [e], t) == Ties(ends, t) + (if e == t then 1 else 0)
  {
    assert (ends + [e])[..|ends|] == ends;
  }

  /** What the model drops at a grant that waits beyond every removal are the ends on it. */
  lemma DropsAreTies(o: Options, input: seq<Record>, j: nat)
    requires InputValid(o, input) && j < |input| && !input[j].hit
    requires Floor(o, input, j) < Granted(o, input, j) && Lookup(input[j]) < Granted(o, input, j)
    ensures OverRemoves(o, input, j) <==> Ties(MissEnds(o, input, j), Granted(o, input, j)) >= 2
  {
    hide Later, RemoveCompleted, MinOf, Ties, Floor;
    var active, lookup, g := After(o, input, j).active, Lookup(input[j]), Granted(o, input, j);
    var live, ends := RemoveCompleted(active, lookup), MissEnds(o, input, j);
    MissUnfolds(o, input, j);
    TracksAlways(o, input, j);
    assert g == MinOf(live) && |live| >= o.capacity;
    var u := JustBefore(ends, Max(Floor(o, input, j), lookup), g);
    EarliestGrant(live);
    RemoveKeepsLater(active, lookup, u);
    RemoveKeepsLater(active, lookup, g);
    RemoveKeepsLater(live, g, g);
    assert |live| == Later(live, u) == Later(active, u) == Later(ends, u);
    assert |RemoveCompleted(live, g)| == Later(active, g) == Later(ends, g);
  }

  /** A removal that drops too much waits beyond every earlier removal. */
  lemma OverRemovalIsTie(o: Options, input: seq<Record>, j: nat, n: nat)
    requires InputValid(o, input) && j < n <= |input| && NoTieExploited(o, input, n) && OverRemoves(o, input, j)
    ensures Ties(MissEnds(o, input, j), Granted(o, input, j)) >= 2
  {
    hide Later, RemoveCompleted, MinOf, Ties, Floor;
    var active, lookup := After(o, input, j).active, Lookup(input[j]);
    FloorCases(o, input, j, n);
    TracksAlways(o, input, j);
    MissUnfolds(o, input, j);
    FullGrant(o, active, MissEnds(o, input, j), lookup, Floor(o, input, j));
    EarliestGrant(RemoveCompleted(active, lookup));
    RemoveKeepsLater(active, lookup, lookup);
    MinOfIsLeast(RemoveCompleted(active, lookup));
    DropsAreTies(o, input, j);
  }

  lemma {:induction false} FloorIsReached(o: Options, input: seq<Record>, j: nat) returns (i: nat)
    requires o.capacity >= 1 && j < |input|
    ensures Floor(o, input, j) == Lookup(input[0]) || (i < j && Floor(o, input, j) == Granted(o, input, i))
  {
    i := 0;
    if j == 0 {
    } else {
      i := FloorIsReached(o, input, j - 1);
      if Floor(o, input, j - 1) < Granted(o, input, j - 1) {
        i := j - 1;
      }
    }
  }

  /** Ends of the misses from `i` on lie after any time up to the grant of `i`. */
  lemma {:induction false} TiesAreOlder(o: Options, input: seq<Record>, i: nat, j: nat, g: real)
    requires InputValid(o, input) && i <= j <= |input|
    requires forall m :: i <= m < j && !input[m].hit ==> g <= Granted(o, input, m)
    ensures Ties(MissEnds(o, input, i), g) == Ties(MissEnds(o, input, j), g)
  {
    hide Granted, Finish, Ties;
    if i < j {
      TiesAreOlder(o, input, i, j - 1, g);
      var ends := MissEnds(o, input, j - 1);
      if input[j - 1].hit {
        assert ends + [] == ends;
      } else {
        MissUnfolds(o, input, j - 1);
        TiesSnoc(ends, Finish(o, input, j - 1), g);
      }
    }
  }

  /** Where two ends coincide on a grant that waits, the first miss granted there
      drops them both. */
  lemma {:induction false} TieIsOverRemoval(o: Options, input: seq<Record>, j: nat, g: real) returns (i: nat)
    requires InputValid(o, input) && j < |input| && Fcfs(o, input, j + 1) && !input[j].hit
    requires Granted(o, input, j) == g && Lookup(input[j]) < g && Ties(MissEnds(o, input, j), g) >= 2
    ensures i <= j && OverRemoves(o, input, i) && Granted(o, input, i) == g
    decreases j
  {
    hide Later, RemoveCompleted, MinOf, Ties, Floor, Granted, OverRemoves, FcfsAt;
    i := j;
    if Floor(o, input, j) < g {
      DropsAreTies(o, input, j);
    } else {
      var m := FloorIsReached(o, input, j);
      assert input[0].beginReq <= input[j].beginReq && input[m].beginReq <= input[j].beginReq;
      HitGrant(o, input, m);
      GrantsRise(o, input, m, j);
      forall a | m <= a < j && !input[a].hit ensures g <= Granted(o, input, a) {
        if m < a {
          GrantsRise(o, input, m, a);
        }
      }
      TiesAreOlder(o, input, m, j, g);
      i := TieIsOverRemoval(o, input, m, g);
    }
  }

  lemma HitGrant(o: Options, input: seq<Record>, k: nat)
    requires o.capacity >= 1 && k < |input|
    ensures input[k].hit ==> Granted(o, input, k) == Lookup(input[k])
  {
  }

  lemma GrantsRise(o: Options, input: seq<Record>, j: nat, k: nat)
    requires InputValid(o, input) && j < k < |input| && !input[j].hit && !input[k].hit
    requires FcfsAt(o, input, j) && FcfsAt(o, input, k)
    ensures Granted(o, input, j) <= Granted(o, input, k)
  {
    hide Later, Granted;
    MissEndsGrow(o, input, j, k, Granted(o, input, k));
    assert input[j].beginReq <= input[k].beginReq;
  }

  // ---- Four equivalent readings ----

  /** The tie condition on the input and the one on the run are the same. */
  lemma {:induction false} TieFreeIffNoTieExploited(o: Options, input: seq<Record>, n: nat)
    requires InputValid(o, input) && n <= |input|
    ensures TieFree(o, input, n) <==> NoTieExploited(o, input, n)
  {
    hide Granted, OverRemoves, ReferenceGrant, Ties;
    if n == 0 {
    } else {
      TieFreeIffNoTieExploited(o, input, n - 1);
      if NoTieExploited(o, input, n - 1) && !input[n - 1].hit {
        FcfsIffNoTieExploited(o, input, n - 1);
        LastMissAgrees(o, input, n - 1);
      }
    }
  }

  /** Of the pairs that end in the miss `k`, after a first-come-first-served prefix. */
  lemma LastMissAgrees(o: Options, input: seq<Record>, k: nat)
    requires InputValid(o, input) && k < |input| && !input[k].hit
    requires Fcfs(o, input, k) && NoTieExploited(o, input, k)
    ensures (exists j :: 0 <= j < k && OverRemoves(o, input, j) && Lookup(input[k]) < Granted(o, input, j))
            <==> exists j :: 0 <= j < k && !input[j].hit && Lookup(input[k]) < ReferenceGrant(o, input, j)
                             && Ties(ReferenceEnds(o, input, j), ReferenceGrant(o, input, j)) >= 2
  {
    hide Granted, ReferenceGrant, Ties, FcfsAt;
    FcfsIsReference(o, input, k);
    if j :| 0 <= j < k && OverRemoves(o, input, j) && Lookup(input[k]) < Granted(o, input, j) {
      OverRemovalIsTie(o, input, j, k);
      FcfsIsReference(o, input, j);
    }
    if j :| 0 <= j < k && !input[j].hit && Lookup(input[k]) < ReferenceGrant(o, input, j)
            && Ties(ReferenceEnds(o, input, j), ReferenceGrant(o, input, j)) >= 2 {
      FcfsIsReference(o, input, j);
      assert input[j].beginReq <= input[k].beginReq;
      var i := TieIsOverRemoval(o, input, j, ReferenceGrant(o, input, j));
    }
  }

  /** The model is the reference schedule exactly when no miss looks up before a
      reference grant on which two reference ends coincide. */
  lemma FcfsIffTieFree(o: Options, input: seq<Record>)
    requires InputValid(o, input)
    ensures TieFree(o, input, |input|) <==> Fcfs(o, input, |input|)
    ensures TieFree(o, input, |input|) ==>
              forall k :: 0 <= k < |input| && !input[k].hit ==> Granted(o, input, k) == ReferenceGrant(o, input, k)
  {
    hide Granted, OverRemoves, ReferenceGrant, FcfsAt, TieFree, NoTieExploited;
    TieFreeIffNoTieExploited(o, input, |input|);
    FcfsIffNoTieExploited(o, input, |input|);
    if Fcfs(o, input, |input|) {
      FcfsIsReference(o, input, |input|);
    }
  }

  predicate GrantsInOrder(o: Options, input: seq<Record>)
    requires o.capacity >= 1
  {
    forall j, k :: 0 <= j < k < |input| && !input[j].hit && !input[k].hit
                   ==> Granted(o, input, j) <= Granted(o, input, k)
  }

  /** Exactly then misses are granted in record order. */
  lemma GrantsInOrderIffTieFree(o: Options, input: seq<Record>)
    requires InputValid(o, input)
    ensures TieFree(o, input, |input|) <==> GrantsInOrder(o, input)
  {
    hide Granted, OverRemoves, TieFree, FcfsAt, NoTieExploited;
    TieFreeIffNoTieExploited(o, input, |input|);
    FcfsIffNoTieExploited(o, input, |input|);
    if TieFree(o, input, |input|) {
      forall j, k | 0 <= j < k < |input| && !input[j].hit && !input[k].hit
        ensures Granted(o, input, j) <= Granted(o, input, k)
      {
        GrantsRise(o, input, j, k);
      }
    } else {
      var j, k := ExploitingPair(o, input, |input|);
      TieGrantsAtOnce(o, input, j, k);
      assert !input[j].hit by {
        OverRemovalIsMiss(o, input, j);
      }
    }
  }

  lemma OverRemovalIsMiss(o: Options, input: seq<Record>, j: nat)
    requires o.capacity >= 1 && j < |input| && OverRemoves(o, input, j)
    ensures !input[j].hit
  {
  }

  /** How many of the first `k` records are misses in service at `t`. */
  function InService(o: Options, input: seq<Record>, k: nat, t: real): nat
    requires o.capacity >= 1 && k <= |input|
  {
    if k == 0 then 0
    else InService(o, input, k - 1, t)
         + (if !input[k - 1].hit && Granted(o, input, k - 1) <= t < Finish(o, input, k - 1) then 1 else 0)
  }

  lemma {:induction false} InServiceAtMostLater(o: Options, input: seq<Record>, k: nat, t: real)
    requires o.capacity >= 1 && k <= |input|
    ensures InService(o, input, k, t) <= Later(MissEnds(o, input, k), t)
  {
    if k == 0 {
    } else {
      InServiceAtMostLater(o, input, k - 1, t);
      var ends := MissEnds(o, input, k - 1);
      if input[k - 1].hit {
        assert ends + [] == ends;
      } else {
        LaterSnoc(ends, Finish(o, input, k - 1), t);
      }
    }
  }

  /** No run grants a miss later than the first moment with a free entry. */
  lemma NeverLater(o: Options, input: seq<Record>, k: nat, g: real)
    requires InputValid(o, input) && k < |input| && !input[k].hit
    requires Lookup(input[k]) <= g && Later(MissEnds(o, input, k), g) < o.capacity
    ensures Lookup(input[k]) <= Granted(o, input, k) <= g
  {
    hide Later, RemoveCompleted, MinOf;
    var active, lookup := After(o, input, k).active, Lookup(input[k]);
    var live := RemoveCompleted(active, lookup);
    MissUnfolds(o, input, k);
    TracksAlways(o, input, k);
    if |live| >= o.capacity {
      EarliestGrant(live);
      RemoveKeepsLater(active, lookup, g);
      MinOfIsLeast(live);
    }
  }

  lemma GrantNotBeforeLookup(o: Options, input: seq<Record>, k: nat)
    requires o.capacity >= 1 && k < |input|
    ensures Lookup(input[k]) <= Granted(o, input, k)
  {
    var active, lookup := After(o, input, k).active, Lookup(input[k]);
    RemoveKeepsLater(active, lookup, lookup);
    if |RemoveCompleted(active, lookup)| > 0 {
      MinOfIsLeast(RemoveCompleted(active, lookup));
    }
  }

  /** So a grant that is not first come, first served comes while all entries are taken. */
  lemma FcfsAtIffEntryFree(o: Options, input: seq<Record>, k: nat)
    requires InputValid(o, input) && k < |input| && !input[k].hit
    ensures FcfsAt(o, input, k) <==> Later(MissEnds(o, input, k), Granted(o, input, k)) < o.capacity
  {
    hide Later, Granted, MissEnds;
    GrantNotBeforeLookup(o, input, k);
    var g := Granted(o, input, k);
    if Later(MissEnds(o, input, k), g) < o.capacity {
      forall t | Lookup(input[k]) <= t < g ensures Later(MissEnds(o, input, k), t) >= o.capacity {
        if Later(MissEnds(o, input, k), t) < o.capacity {
          NeverLater(o, input, k, t);
        }
      }
    }
  }

  /** Work conservation: from the last lookup on, a first-come-first-served pool has
      every unfinished miss in service, up to its capacity. */
  lemma {:induction false} PoolIsBusy(o: Options, input: seq<Record>, k: nat, t: real)
    requires InputValid(o, input) && k <= |input| && Fcfs(o, input, k)
    requires forall i :: 0 <= i < k ==> Lookup(input[i]) <= t
    ensures InService(o, input, k, t) == NatMin(o.capacity, Later(MissEnds(o, input, k), t))
  {
    hide Later, Granted, Finish;
    if k == 0 {
      assert Later([], t) == 0 by { NoneLater(t); }
    } else {
      PoolIsBusy(o, input, k - 1, t);
      var ends := MissEnds(o, input, k - 1);
      if input[k - 1].hit {
        assert ends + [] == ends;
      } else {
        assert FcfsAt(o, input, k - 1);
        MissUnfolds(o, input, k - 1);
        LaterSnoc(ends, Finish(o, input, k - 1), t);
        if Granted(o, input, k - 1) <= t {
          LaterAntitone(ends, Granted(o, input, k - 1), t);
        }
      }
    }
  }

  lemma NoneLater(t: real)
    ensures Later([], t) == 0
  {
  }

  lemma {:induction false} FirstBreach(o: Options, input: seq<Record>, n: nat) returns (k: nat)
    requires o.capacity >= 1 && n <= |input| && !Fcfs(o, input, n)
    ensures k < n && Fcfs(o, input, k) && !FcfsAt(o, input, k)
  {
    hide FcfsAt;
    if Fcfs(o, input, n - 1) {
      k := n - 1;
    } else {
      k := FirstBreach(o, input, n - 1);
    }
  }

  lemma {:induction false} InServiceGrows(o: Options, input: seq<Record>, j: nat, k: nat, t: real)
    requires o.capacity >= 1 && j <= k <= |input|
    ensures InService(o, input, j, t) <= InService(o, input, k, t)
  {
    hide Granted, Finish;
    if j < k {
      InServiceGrows(o, input, j, k - 1, t);
    }
  }

  /** Then and only then is the pool never over its capacity. */
  lemma CapacityIffTieFree(o: Options, input: seq<Record>)
    requires InputValid(o, input)
    ensures TieFree(o, input, |input|) <==> forall t: real :: InService(o, input, |input|, t) <= o.capacity
  {
    hide Granted, Finish, TieFree, FcfsAt, InService, Later, MissEnds;
    FcfsIffTieFree(o, input);
    if TieFree(o, input, |input|) {
      forall t: real ensures InService(o, input, |input|, t) <= o.capacity {
        CapacityRespected(o, input, |input|, t);
      }
    } else {
      var k := FirstBreach(o, input, |input|);
      BreachIsOverCapacity(o, input, k);
    }
  }

  lemma BreachIsMiss(o: Options, input: seq<Record>, k: nat)
    requires InputValid(o, input) && k < |input| && !FcfsAt(o, input, k)
    ensures o.capacity >= 1 && !input[k].hit
  {
  }

  lemma LookupsRise(o: Options, input: seq<Record>, k: nat, t: real)
    requires InputValid(o, input) && k < |input| && Lookup(input[k]) <= t
    ensures forall i :: 0 <= i < k ==> Lookup(input[i]) <= t
  {
    assert forall i :: 0 <= i < k ==> input[i].beginReq <= input[k].beginReq;
  }

  lemma InServiceAtGrant(o: Options, input: seq<Record>, k: nat)
    requires InputValid(o, input) && k < |input| && !input[k].hit
    ensures var g := Granted(o, input, k); InService(o, input, k + 1, g) == InService(o, input, k, g) + 1
  {
    hide Granted, Finish;
    MissUnfolds(o, input, k);
  }

  /** The first miss not served in turn is granted as number capacity + 1. */
  lemma BreachIsOverCapacity(o: Options, input: seq<Record>, k: nat)
    requires InputValid(o, input) && k < |input| && Fcfs(o, input, k) && !FcfsAt(o, input, k)
    ensures InService(o, input, |input|, Granted(o, input, k)) > o.capacity
  {
    hide Granted, Finish, FcfsAt, Later, MissEnds, InService, InputValid, Fcfs, Lookup;
    BreachIsMiss(o, input, k);
    var g := Granted(o, input, k);
    FcfsAtIffEntryFree(o, input, k);
    GrantNotBeforeLookup(o, input, k);
    LookupsRise(o, input, k, g);
    PoolIsBusy(o, input, k, g);
    InServiceAtGrant(o, input, k);
    InServiceGrows(o, input, k + 1, |input|, g);
  }

  lemma {:induction false} CapacityRespected(o: Options, input: seq<Record>, k: nat, t: real)
    requires InputValid(o, input) && k <= |input| && Fcfs(o, input, k)
    ensures InService(o, input, k, t) <= o.capacity
  {
    hide Granted, Finish, Later;
    if k == 0 {
    } else {
      CapacityRespected(o, input, k - 1, t);
      if !input[k - 1].hit && Granted(o, input, k - 1) <= t {
        assert FcfsAt(o, input, k - 1);
        InServiceAtMostLater(o, input, k - 1, t);
        LaterAntitone(MissEnds(o, input, k - 1), Granted(o, input, k - 1), t);
      }
    }
  }

  // ---- Larger pools ----

  ghost predicate FewerLater(xs: seq<real>, ys: seq<real>) {
    forall t :: Later(xs, t) <= Later(ys, t)
  }

  /** A larger pool grants none of the first `k` misses later. */
  predicate NoneDelayed(o: Options, p: Options, input: seq<Record>, k: nat)
    requires o.capacity >= 1 && p.capacity >= 1 && k <= |input|
  {
    forall i :: 0 <= i < k && !input[i].hit ==> Granted(p, input, i) <= Granted(o, input, i)
  }

  /** None of the misses that the smaller pool let in while all its entries were taken. */
  ghost predicate NoIntruderDelayed(o: Options, p: Options, input: seq<Record>, k: nat)
    requires o.capacity >= 1 && p.capacity >= 1 && k <= |input|
  {
    forall i :: 0 <= i < k && !FcfsAt(o, input, i) ==> Granted(p, input, i) <= Granted(o, input, i)
  }

  lemma {:induction false} IntrudersDecide(o: Options, p: Options, input: seq<Record>, k: nat)
    requires o.capacity <= p.capacity && InputValid(o, input) && InputValid(p, input)
    requires k <= |input| && NoIntruderDelayed(o, p, input, k)
    ensures NoneDelayed(o, p, input, k)
    ensures FewerLater(MissEnds(p, input, k), MissEnds(o, input, k))
  {
    hide Granted, Finish, Later, FcfsAt;
    if k == 0 {
      assert MissEnds(o, input, k) == MissEnds(p, input, k) == [];
    } else {
      IntrudersDecide(o, p, input, k - 1);
      if input[k - 1].hit {
        assert MissEnds(o, input, k) == MissEnds(o, input, k - 1);
        assert MissEnds(p, input, k) == MissEnds(p, input, k - 1);
      } else {
        if FcfsAt(o, input, k - 1) {
          FcfsAtIffEntryFree(o, input, k - 1);
          GrantNotBeforeLookup(o, input, k - 1);
          NeverLater(p, input, k - 1, Granted(o, input, k - 1));
        }
        OneMoreMiss(o, p, input, k - 1);
      }
    }
  }

  /** Raising the capacity delays no miss exactly when it delays none of those that the
      smaller pool let in over its capacity: only they can be the first delayed. */
  lemma NoneDelayedIffNoIntruder(o: Options, p: Options, input: seq<Record>, k: nat)
    requires o.capacity <= p.capacity && InputValid(o, input) && InputValid(p, input) && k <= |input|
    ensures NoneDelayed(o, p, input, k) <==> NoIntruderDelayed(o, p, input, k)
  {
    hide Granted;
    if NoIntruderDelayed(o, p, input, k) {
      IntrudersDecide(o, p, input, k);
    }
  }

  /** So raising the capacity of a first-come-first-served run delays no miss, whether
      or not the larger pool exploits ties. */
  lemma MoreCapacityNeverDelays(o: Options, p: Options, input: seq<Record>, k: nat)
    requires o.capacity <= p.capacity && InputValid(o, input) && InputValid(p, input)
    requires k <= |input| && Fcfs(o, input, k)
    ensures forall i :: 0 <= i < k && !input[i].hit ==> Granted(p, input, i) <= Granted(o, input, i)
    ensures FewerLater(MissEnds(p, input, k), MissEnds(o, input, k))
  {
    hide Granted, FcfsAt;
    IntrudersDecide(o, p, input, k);
  }

  lemma OneMoreMiss(o: Options, p: Options, input: seq<Record>, k: nat)
    requires o.capacity >= 1 && p.capacity >= 1 && k < |input| && !input[k].hit
    requires Granted(p, input, k) <= Granted(o, input, k)
    requires FewerLater(MissEnds(p, input, k), MissEnds(o, input, k))
    ensures FewerLater(MissEnds(p, input, k + 1), MissEnds(o, input, k + 1))
  {
    hide Granted, Finish, Later;
    MissUnfolds(o, input, k);
    MissUnfolds(p, input, k);
    var xs, ys := MissEnds(p, input, k), MissEnds(o, input, k);
    var x, y := Finish(p, input, k), Finish(o, input, k);
    forall t ensures Later(xs + [x], t) <= Later(ys + [y], t) {
      LaterSnoc(xs, x, t);
      LaterSnoc(ys, y, t);
    }
  }

  // ---- A run that exploits a tie ----

  function ExampleMiss(beginReq: real): Record {
    Record(beginReq, false, 10.0, 0.0, 0.0, 0, 0, 0.0, 0.0, 0.0, 0.0, 0.0, false, 0.0, 0.0, 0.0)
  }

  /** A run that exploits a tie: two misses end together, the third waits for
      both to be dropped, and the fourth is let in while both still run. */
  lemma TieExample(o: Options, input: seq<Record>)
    requires o == Options(2, 4.0, 0.0)
    requires input == [ExampleMiss(0.0), ExampleMiss(0.0), ExampleMiss(1.0), ExampleMiss(2.0)]
    ensures InputValid(o, input) && !TieFree(o, input, |input|)
    ensures InService(o, input, 4, 5.0) == 3 > o.capacity
  {
    hide After, Process, RemoveCompleted, MinOf, Finish, Granted, OverRemoves;
    ExampleRun(o, input);
    assert !input[3].hit && Lookup(input[3]) == 4.0 < Granted(o, input, 2);
    assert InService(o, input, 1, 5.0) == 1;
    assert InService(o, input, 2, 5.0) == 2;
    assert InService(o, input, 3, 5.0) == 2;
    assert InService(o, input, |input|, 5.0) == 3;
    hide InService, TieFree, Lookup;
    CapacityIffTieFree(o, input);
  }

  lemma ExampleRun(o: Options, input: seq<Record>)
    requires o == Options(2, 4.0, 0.0)
    requires input == [ExampleMiss(0.0), ExampleMiss(0.0), ExampleMiss(1.0), ExampleMiss(2.0)]
    ensures Granted(o, input, 0) == Granted(o, input, 1) == 2.0
    ensures Finish(o, input, 0) == Finish(o, input, 1) == 12.0
    ensures Granted(o, input, 2) == 12.0 && OverRemoves(o, input, 2)
    ensures Granted(o, input, 3) == 4.0 && Finish(o, input, 3) == 14.0
  {
    hide After, Process, RemoveCompleted, MinOf, Finish, Granted;
    MissUnfolds(o, input, 0);
    RemoveFromPair(0.0, 0.0, 2.0);
    assert After(o, input, 1).active == [12.0];
    MissUnfolds(o, input, 1);
    RemoveFromPair(12.0, 12.0, 2.0);
    assert After(o, input, 2).active == [12.0, 12.0];
    MissUnfolds(o, input, 2);
    RemoveFromPair(12.0, 12.0, 3.0);
    RemoveFromPair(12.0, 12.0, 12.0);
    assert After(o, input, 3).active == [22.0];
    MissUnfolds(o, input, 3);
    RemoveFromPair(22.0, 22.0, 4.0);
  }

  lemma RemoveNone(a: real, b: real, c: real, t: real)
    requires t < a && t < b && t < c
    ensures RemoveCompleted([a, b, c], t) == [a, b, c]
    ensures MinOf([a, b, c]) == Min(Min(a, b), c)
  {
    hide RemoveCompleted, MinOf;
    RemoveFromPair(a, b, t);
    RemoveLast([a, b], c, t);
    assert [a, b] + [c] == [a, b, c];
  }

  lemma RemoveLast(ends: seq<real>, e: real, t: real)
    requires |ends| > 0 && t < e
    ensures RemoveCompleted(ends + [e], t) == RemoveCompleted(ends, t) + [e]
    ensures MinOf(ends + [e]) == Min(MinOf(ends), e)
  {
    assert (ends + [e])[..|ends|] == ends;
  }

  /** The smaller pool must be first come, first served: here it lets the fourth miss in
      at once by a tie, and a third entry makes that miss wait. */
  lemma TiesCanMakeMoreCapacityDelay(o: Options, p: Options, input: seq<Record>)
    requires o == Options(2, 4.0, 0.0) && p == Options(3, 4.0, 0.0)
    requires input == [ExampleMiss(0.0), ExampleMiss(0.0), ExampleMiss(1.0), ExampleMiss(2.0)]
    ensures Granted(o, input, 3) == 4.0 < 12.0 == Granted(p, input, 3)
  {
    hide After, Process, RemoveCompleted, MinOf, Finish, Granted;
    ExampleRun(o, input);
    MissUnfolds(p, input, 0);
    RemoveFromPair(0.0, 0.0, 2.0);
    assert After(p, input, 1).active == [12.0];
    MissUnfolds(p, input, 1);
    RemoveFromPair(12.0, 12.0, 2.0);
    assert After(p, input, 2).active == [12.0, 12.0];
    MissUnfolds(p, input, 2);
    RemoveFromPair(12.0, 12.0, 3.0);
    assert After(p, input, 3).active == [12.0, 12.0, 13.0];
    MissUnfolds(p, input, 3);
    RemoveNone(12.0, 12.0, 13.0, 4.0);
  }
}
