/** In which order the arbiters of projects AT-2 and AT-3 grant. */
module ArbitrationOrder {
  import opened SimTime
  import opened Arbitration

  /** Everyone is pending at every grant. */
  predicate Backlogged(run: seq<Ready>) {
    forall i, k :: 0 <= i < INITIATORS && 0 <= k < |run| ==> run[k][i]
  }

  lemma BackloggedIsPending(run: seq<Ready>)
    requires Backlogged(run)
    ensures AlwaysSomeone(run)
    ensures |run| > 0 ==> Backlogged(run[1..])
  {
    forall k | 0 <= k < |run| ensures SomeoneReady(run[k]) {
      assert run[k][0];
    }
  }

  lemma OneTurnLater(x: nat, n: nat)
    requires n > 0
    ensures (x + n) % n == x % n
  {
    var q, r := x / n, x % n;
    var d := (x + n) / n - q - 1;
    assert n * d == r - (x + n) % n;
    TimesGrows(n, d);
  }

  lemma TimesGrows(n: nat, d: int)
    ensures d >= 1 ==> n * d >= n
    ensures d <= -1 ==> n * d <= 0 - n
  {
  }

  lemma StaysBelow(x: nat, n: nat)
    requires x < n
    ensures x % n == x
  {
  }

  /** The place k grants after the cursor's. */
  function Place(cursor: nat, k: nat, n: nat): (p: nat)
    requires n > 0
    ensures p < n
  {
    (cursor + k) % n
  }

  lemma PlaceMoves(cursor: nat, k: nat, n: nat)
    requires cursor < n
    ensures Place(cursor, 0, n) == cursor
    ensures k > 0 ==> Place(cursor, k, n) == Place(Next(cursor, n), k - 1, n)
  {
    StaysBelow(cursor, n);
    NextIs(cursor, n);
    if k > 0 && cursor + 1 == n {
      OneTurnLater(k - 1, n);
    }
  }

  /** A backlogged run walks the order from the cursor, round and round. */
  lemma {:induction false} BackloggedFollowsOrder(order: seq<nat>, cursor: nat, run: seq<Ready>, k: nat)
    requires Serves(order) && cursor < |order| && Backlogged(run) && k < |run|
    ensures AlwaysSomeone(run)
    ensures Grants(order, cursor, run)[k] == order[Place(cursor, k, |order|)]
    decreases |run|
  {
    BackloggedIsPending(run);
    GrantsUnfold(order, cursor, run);
    PlaceMoves(cursor, k, |order|);
    var choice := ChooseWeighted(order, cursor, run[0]);
    assert choice == (Some(order[cursor]), Next(cursor, |order|));
    if k > 0 {
      hide Grants, ChooseWeighted, Serves, Backlogged, AlwaysSomeone, Next, Place;
      BackloggedFollowsOrder(order, choice.1, run[1..], k - 1);
    }
  }

  /** A backlogged run under AT-3's weights: as many grants to initiator 0 as its weight,
      then to 1, then to 2, and so on round. */
  lemma WeightsInIndexOrder(weights: seq<nat>, cursor: nat, run: seq<Ready>, k: nat)
    requires PositiveWeights(weights) && cursor < |WeightedOrder(weights)| && Backlogged(run) && k < |run|
    ensures Serves(WeightedOrder(weights)) && AlwaysSomeone(run)
    ensures var turn := weights[0] + weights[1] + weights[2];
            var place := Place(cursor, k, turn);
            Grants(WeightedOrder(weights), cursor, run)[k]
            == if place < weights[0] then 0 else if place < weights[0] + weights[1] then 1 else 2
  {
    PositiveWeightsServe(weights);
    BackloggedFollowsOrder(WeightedOrder(weights), cursor, run, k);
    hide Grants, Serves, Backlogged, AlwaysSomeone, Place;
  }

  /** AT-2's weighted policy: three grants to initiator 2, then one each to 0 and 1. */
  lemma WeightedPolicyInOrder(cursors: Cursors, run: seq<Ready>, k: nat)
    requires cursors.Valid() && Backlogged(run) && k < |run|
    ensures AlwaysSomeone(run)
    ensures var place := Place(cursors.slot, k, 5);
            PolicyRun(Weighted, cursors, run)[k] == if place < 3 then 2 else if place == 3 then 0 else 1
  {
    At2OrderServes();
    BackloggedIsPending(run);
    WeightedRuns(cursors, run);
    BackloggedFollowsOrder(AT2_ORDER, cursors.slot, run, k);
    hide Grants, PolicyRun, Serves, Backlogged, AlwaysSomeone, Place;
  }

  /** Round robin: each grant goes to the successor of the one before. */
  lemma RoundRobinInOrder(cursors: Cursors, run: seq<Ready>, k: nat)
    requires cursors.Valid() && Backlogged(run) && k < |run|
    ensures AlwaysSomeone(run)
    ensures PolicyRun(RoundRobin, cursors, run)[k] == Place(cursors.last, k + 1, 3)
  {
    At2OrderServes();
    BackloggedIsPending(run);
    RoundRobinRuns(cursors, run);
    var first := Next(cursors.last, INITIATORS);
    BackloggedFollowsOrder([0, 1, 2], first, run, k);
    PlaceMoves(cursors.last, k + 1, INITIATORS);
    hide Grants, PolicyRun, Serves, Backlogged, AlwaysSomeone, Place, Next;
  }

  // ---- Initiators without a slot ----

  lemma {:induction false} FailedScanIsATurn(order: seq<nat>, cursor: nat, ready: Ready, tried: nat)
    requires ValidOrder(order) && cursor < |order| && tried <= |order|
    requires Scan(order, cursor, ready, tried).0.None?
    ensures Scan(order, cursor, ready, tried).1 == Place(cursor, |order| - tried, |order|)
    decreases |order| - tried
  {
    PlaceMoves(cursor, |order| - tried, |order|);
    if tried < |order| {
      hide Place;
      FailedScanIsATurn(order, Next(cursor, |order|), ready, tried + 1);
    }
  }

  /** An initiator of weight zero is granted only when nobody with a weight is pending;
      then the lowest index goes first, and the cursor stays where it was. */
  lemma WeightlessComeLast(order: seq<nat>, cursor: nat, ready: Ready, other: nat)
    requires ValidOrder(order) && cursor < |order| && other < INITIATORS && ready[other]
    ensures var (winner, left) := ChooseWeighted(order, cursor, ready);
            winner.Some? && (winner.value !in order ==> other !in order && winner.value <= other && left == cursor)
  {
    ChooseWeightedGrants(order, cursor, ready);
    ScanFindsFirst(order, cursor, ready, 0);
    RotatedKeeps(order, cursor, other);
    if Scan(order, cursor, ready, 0).0.None? {
      FailedScanIsATurn(order, cursor, ready, 0);
      OneTurnLater(cursor, |order|);
      StaysBelow(cursor, |order|);
    }
    hide Scan, FirstReady;
  }

  // ---- Fixed priority ----

  /** How far from the top an initiator stands: 1, then 0, then 2. */
  const STANDING: seq<nat> := [1, 0, 2]

  /** Every grant of a fixed-priority run goes to the highest-standing pending initiator. */
  lemma {:induction false} FixedPriorityIsRespected(cursors: Cursors, run: seq<Ready>, k: nat, other: nat)
    requires cursors.Valid() && AlwaysSomeone(run) && k < |run|
    requires other < INITIATORS && run[k][other]
    ensures var winner := PolicyRun(FixedPriority, cursors, run)[k];
            winner < INITIATORS && run[k][winner] && STANDING[winner] <= STANDING[other]
    decreases |run|
  {
    if k > 0 {
      FixedPriorityIsRespected(cursors, run[1..], k - 1, other);
    }
  }
}
