/** The arbiters of projects AT-2 and AT-3: which initiator with a pending
    request is granted next. */
module Arbitration {
  import opened SimTime

  const INITIATORS: nat := 3

  /** One flag per initiator: whether its pending queue holds a request. */
  type Ready = r: seq<bool> | |r| == INITIATORS witness [false, false, false]

  predicate SomeoneReady(ready: Ready) {
    exists i :: 0 <= i < INITIATORS && ready[i]
  }

  /** A cyclic order of initiators, walked by a cursor. */
  predicate ValidOrder(order: seq<nat>) {
    |order| > 0 && forall k :: 0 <= k < |order| ==> order[k] < INITIATORS
  }

  function Repeat(value: nat, count: nat): (s: seq<nat>)
    ensures |s| == count && forall k :: 0 <= k < count ==> s[k] == value
  {
    seq(count, _ => value)
  }

  /** Each initiator as often as its weight, in index order. */
  function WeightedOrder(weights: seq<nat>): seq<nat>
    requires |weights| == INITIATORS
  {
    Repeat(0, weights[0]) + Repeat(1, weights[1]) + Repeat(2, weights[2])
  }

  function Count(s: seq<nat>, value: nat): nat {
    if |s| == 0 then 0 else (if s[0] == value then 1 else 0) + Count(s[1..], value)
  }

  lemma {:induction false} CountAppend(s: seq<nat>, t: seq<nat>, value: nat)
    ensures Count(s + t, value) == Count(s, value) + Count(t, value)
  {
    if |s| == 0 {
      assert s + t == t;
    } else {
      assert (s + t)[1..] == s[1..] + t;
      CountAppend(s[1..], t, value);
    }
  }

  lemma {:induction false} CountBounds(s: seq<nat>, value: nat)
    ensures Count(s, value) <= |s|
    ensures Count(s, value) > 0 <==> value in s
    ensures (forall k :: 0 <= k < |s| ==> s[k] == value) ==> Count(s, value) == |s|
  {
    if |s| == 0 {
    } else {
      CountBounds(s[1..], value);
      assert forall x :: x in s <==> x == s[0] || x in s[1..];
    }
  }

  // ---- The weighted scan ----

  function Next(cursor: nat, n: nat): (c: nat)
    requires cursor < n
    ensures c < n
  {
    (cursor + 1) % n
  }

  /** The loop of the scan: the initiator found, if any, and the cursor left. */
  function Scan(order: seq<nat>, cursor: nat, ready: Ready, tried: nat): (Option<nat>, nat)
    requires ValidOrder(order) && cursor < |order| && tried <= |order|
    decreases |order| - tried
  {
    if tried == |order| then (None, cursor)
    else
      var next := Next(cursor, |order|);
      if ready[order[cursor]] then (Some(order[cursor]), next)
      else Scan(order, next, ready, tried + 1)
  }

  /** The order as seen from the cursor. */
  function Rotated(order: seq<nat>, cursor: nat): (r: seq<nat>)
    requires cursor < |order|
    ensures |r| == |order|
    ensures ValidOrder(order) ==> ValidOrder(r)
  {
    order[cursor..] + order[..cursor]
  }

  /** The first position of a rotated order that is ready, or its length. */
  function FirstReady(rotated: seq<nat>, ready: Ready): (p: nat)
    requires forall k :: 0 <= k < |rotated| ==> rotated[k] < INITIATORS
    ensures p <= |rotated|
    ensures forall k :: 0 <= k < p ==> !ready[rotated[k]]
    ensures p < |rotated| ==> ready[rotated[p]]
  {
    if |rotated| == 0 || ready[rotated[0]] then 0 else 1 + FirstReady(rotated[1..], ready)
  }

  lemma RotateOnce(order: seq<nat>, cursor: nat)
    requires cursor < |order|
    ensures Rotated(order, Next(cursor, |order|)) == Rotated(order, cursor)[1..] + [Rotated(order, cursor)[0]]
    ensures Rotated(order, cursor)[0] == order[cursor]
  {
    hide Next;
    NextIs(cursor, |order|);
    var r := Rotated(order, cursor);
    if cursor + 1 < |order| {
      assert r[1..] == order[cursor + 1..] + order[..cursor];
      assert order[..cursor + 1] == order[..cursor] + [order[cursor]];
    } else {
      assert r[1..] == order[..cursor];
      assert order == order[..cursor] + [order[cursor]];
    }
  }

  lemma NextIs(cursor: nat, n: nat)
    requires cursor < n
    ensures Next(cursor, n) == if cursor + 1 < n then cursor + 1 else 0
  {
  }

  /** The scan grants the first ready position after the cursor and leaves the
      cursor just behind it. */
  lemma {:induction false} ScanFindsFirst(order: seq<nat>, cursor: nat, ready: Ready, tried: nat)
    requires ValidOrder(order) && cursor < |order| && tried <= |order|
    ensures Scan(order, cursor, ready, tried).1 < |order|
    ensures var rotated := Rotated(order, cursor);
            var p := FirstReady(rotated, ready);
            var result := Scan(order, cursor, ready, tried);
            if p < |order| - tried
            then result.0 == Some(rotated[p]) && Rotated(order, result.1) == rotated[p + 1..] + rotated[..p + 1]
            else result.0 == None
    decreases |order| - tried
  {
    hide Next, Rotated, FirstReady;
    if tried < |order| {
      var rotated := Rotated(order, cursor);
      var p := FirstReady(rotated, ready);
      RotateOnce(order, cursor);
      if ready[order[cursor]] {
        assert p == 0;
      } else {
        assert p > 0;
        ScanFindsFirst(order, Next(cursor, |order|), ready, tried + 1);
        FirstReadySkips(rotated, ready);
        if p < |order| {
          RotateMore(rotated, p);
        }
      }
    }
  }

  lemma RotateMore(r: seq<nat>, p: nat)
    requires 0 < p < |r|
    ensures var moved := r[1..] + [r[0]];
            moved[p - 1] == r[p] && moved[p..] + moved[..p] == r[p + 1..] + r[..p + 1]
  {
  }

  lemma FirstReadySkips(rotated: seq<nat>, ready: Ready)
    requires |rotated| > 0 && forall k :: 0 <= k < |rotated| ==> rotated[k] < INITIATORS
    requires !ready[rotated[0]]
    ensures FirstReady(rotated[1..] + [rotated[0]], ready) == FirstReady(rotated, ready) - 1
            || (FirstReady(rotated, ready) == |rotated| && FirstReady(rotated[1..] + [rotated[0]], ready) == |rotated|)
  {
    var moved := rotated[1..] + [rotated[0]];
    var p, q := FirstReady(rotated, ready), FirstReady(moved, ready);
    if p < |rotated| {
      assert moved[p - 1] == rotated[p];
      assert forall k :: 0 <= k < p - 1 ==> moved[k] == rotated[k + 1];
    } else {
      assert forall k :: 0 <= k < |moved| ==> moved[k] in rotated;
    }
  }

  // ---- The weighted choice ----

  /** Every initiator owns at least one slot of the order. */
  predicate Serves(order: seq<nat>) {
    ValidOrder(order) && forall i :: 0 <= i < INITIATORS ==> i in order
  }

  function LowestReady(ready: Ready): (winner: Option<nat>)
    ensures winner.Some? <==> SomeoneReady(ready)
    ensures winner.Some? ==> winner.value < INITIATORS && ready[winner.value]
  {
    if ready[0] then Some(0) else if ready[1] then Some(1) else if ready[2] then Some(2) else None
  }

  /** AT-3's choice: the scan, then the lowest index; None is the fatal report. */
  function ChooseWeighted(order: seq<nat>, cursor: nat, ready: Ready): (Option<nat>, nat)
    requires ValidOrder(order) && cursor < |order|
  {
    var scanned := Scan(order, cursor, ready, 0);
    if scanned.0.Some? then scanned else (LowestReady(ready), scanned.1)
  }

  /** The fatal report is reached exactly when nothing is pending, and the second
      scan never decides when every initiator has a slot. */
  lemma ChooseWeightedGrants(order: seq<nat>, cursor: nat, ready: Ready)
    requires ValidOrder(order) && cursor < |order|
    ensures ChooseWeighted(order, cursor, ready).1 < |order|
    ensures var winner := ChooseWeighted(order, cursor, ready).0;
            (winner.Some? <==> SomeoneReady(ready))
            && (winner.Some? ==> winner.value < INITIATORS && ready[winner.value])
    ensures Serves(order) && SomeoneReady(ready) ==> Scan(order, cursor, ready, 0).0.Some?
  {
    ScanFindsFirst(order, cursor, ready, 0);
    if Serves(order) && SomeoneReady(ready) {
      var i :| 0 <= i < INITIATORS && ready[i];
      RotatedKeeps(order, cursor, i);
    }
  }

  lemma RotatedKeeps(order: seq<nat>, cursor: nat, i: nat)
    requires cursor < |order|
    ensures Count(Rotated(order, cursor), i) == Count(order, i)
    ensures i in order ==> exists k :: 0 <= k < |order| && Rotated(order, cursor)[k] == i
  {
    CountAppend(order[cursor..], order[..cursor], i);
    CountAppend(order[..cursor], order[cursor..], i);
    assert order == order[..cursor] + order[cursor..];
    CountBounds(order, i);
    CountBounds(Rotated(order, cursor), i);
  }

  // ---- Runs of grants ----

  predicate AlwaysSomeone(run: seq<Ready>) {
    forall k :: 0 <= k < |run| ==> SomeoneReady(run[k])
  }

  predicate StaysReady(run: seq<Ready>, i: nat)
    requires i < INITIATORS
  {
    forall k :: 0 <= k < |run| ==> run[k][i]
  }

  /** The winners of consecutive choices, one per readiness vector. */
  function Grants(order: seq<nat>, cursor: nat, run: seq<Ready>): (winners: seq<nat>)
    requires Serves(order) && cursor < |order| && AlwaysSomeone(run)
    ensures |winners| == |run|
    decreases |run|
  {
    if |run| == 0 then []
    else
      ChooseWeightedGrants(order, cursor, run[0]);
      var choice := ChooseWeighted(order, cursor, run[0]);
      [choice.0.value] + Grants(order, choice.1, run[1..])
  }

  lemma {:induction false} GrantsAreReady(order: seq<nat>, cursor: nat, run: seq<Ready>, k: nat)
    requires Serves(order) && cursor < |order| && AlwaysSomeone(run) && k < |run|
    ensures var winner := Grants(order, cursor, run)[k]; winner < INITIATORS && run[k][winner]
    decreases |run|
  {
    ChooseWeightedGrants(order, cursor, run[0]);
    if k == 0 {
    } else {
      GrantsAreReady(order, ChooseWeighted(order, cursor, run[0]).1, run[1..], k - 1);
    }
  }

  function OtherSlots(slots: seq<nat>, i: nat): int { |slots| - Count(slots, i) }

  /** Slots walked over while an initiator stays ready: each one of its own is
      granted to it, so others take at most one grant per slot of theirs. `ahead` is
      the part of one turn of the order still in front of the cursor. */
  lemma {:induction false} ShareOfTheSlotsAhead(order: seq<nat>, cursor: nat, run: seq<Ready>, i: nat, ahead: nat)
    requires Serves(order) && cursor < |order| && AlwaysSomeone(run)
    requires i < INITIATORS && StaysReady(run, i) && ahead <= |order|
    ensures var slots := Rotated(order, cursor)[..ahead];
            Count(Grants(order, cursor, run), i) >= NatMin(|run|, ahead) - OtherSlots(slots, i)
    decreases |run|
  {
    var rotated := Rotated(order, cursor);
    CountBounds(rotated[..ahead], i);
    if |run| == 0 {
    } else {
      hide Scan, Rotated, ValidOrder, StaysReady, Count, FirstReady, OtherSlots, ChooseWeighted, AlwaysSomeone, Grants;
      SomeoneFirst(run);
      StaysReadyTail(run, i);
      ScanOneGrant(order, cursor, run[0]);
      var p := FirstReady(rotated, run[0]);
      NoneBefore(rotated, run[0], i);
      SlotsWalked(rotated, p, ahead, i);
      var choice := ChooseWeighted(order, cursor, run[0]);
      GrantsUnfold(order, cursor, run);
      CountCons(choice.0.value, Grants(order, choice.1, run[1..]), i);
      if p < ahead {
        ShareOfTheSlotsAhead(order, choice.1, run[1..], i, ahead - p - 1);
      }
    }
  }

  lemma SomeoneFirst(run: seq<Ready>)
    requires AlwaysSomeone(run) && |run| > 0
    ensures SomeoneReady(run[0]) && AlwaysSomeone(run[1..])
  {
  }

  /** One grant uses up the slots it walks over. */
  lemma SlotsWalked(rotated: seq<nat>, p: nat, ahead: nat, i: nat)
    requires p < |rotated| && ahead <= |rotated| && Count(rotated[..p], i) == 0
    ensures p < ahead ==>
              OtherSlots(rotated[..ahead], i)
              == OtherSlots((rotated[p + 1..] + rotated[..p + 1])[..ahead - p - 1], i)
                 + p + (if rotated[p] == i then 0 else 1)
    ensures p >= ahead ==> OtherSlots(rotated[..ahead], i) == ahead
  {
    hide Count;
    if p < ahead {
      var rest := rotated[p + 1..ahead];
      assert (rotated[p + 1..] + rotated[..p + 1])[..ahead - p - 1] == rest;
      assert rotated[..ahead] == rotated[..p] + ([rotated[p]] + rest);
      CountAppend(rotated[..p], [rotated[p]] + rest, i);
      CountCons(rotated[p], rest, i);
    } else {
      assert rotated[..p] == rotated[..ahead] + rotated[ahead..p];
      CountAppend(rotated[..ahead], rotated[ahead..p], i);
    }
  }

  lemma CountCons(x: nat, rest: seq<nat>, i: nat)
    ensures Count([x] + rest, i) == (if x == i then 1 else 0) + Count(rest, i)
  {
    assert ([x] + rest)[1..] == rest;
  }

  lemma StaysReadyTail(run: seq<Ready>, i: nat)
    requires |run| > 0 && i < INITIATORS && StaysReady(run, i)
    ensures run[0][i] && StaysReady(run[1..], i)
  {
  }

  /** A ready initiator owns no slot in front of the first ready one. */
  lemma NoneBefore(rotated: seq<nat>, ready: Ready, i: nat)
    requires forall k :: 0 <= k < |rotated| ==> rotated[k] < INITIATORS
    requires i < INITIATORS && ready[i]
    ensures Count(rotated[..FirstReady(rotated, ready)], i) == 0
  {
    CountBounds(rotated[..FirstReady(rotated, ready)], i);
  }

  lemma ScanOneGrant(order: seq<nat>, cursor: nat, ready: Ready)
    requires Serves(order) && cursor < |order| && SomeoneReady(ready)
    ensures ValidOrder(order) && ValidOrder(Rotated(order, cursor))
    ensures var rotated := Rotated(order, cursor);
            var p := FirstReady(rotated, ready);
            var choice := ChooseWeighted(order, cursor, ready);
            p < |order| && choice.0 == Some(rotated[p]) && choice.1 < |order|
            && Rotated(order, choice.1) == rotated[p + 1..] + rotated[..p + 1]
  {
    hide Scan, FirstReady, Rotated;
    ChooseWeightedGrants(order, cursor, ready);
    ScanFindsFirst(order, cursor, ready, 0);
  }

  /** In every window of at most one turn of the order, an initiator that stays
      ready leaves the others at most the slots that are not its own. With a full
      turn it gets at least its weight, and after W - w grants to others it is next. */
  lemma GuaranteedShare(order: seq<nat>, cursor: nat, run: seq<Ready>, i: nat)
    requires Serves(order) && cursor < |order| && AlwaysSomeone(run)
    requires i < INITIATORS && StaysReady(run, i) && |run| <= |order|
    ensures |run| - Count(Grants(order, cursor, run), i) <= |order| - Count(order, i)
  {
    ShareOfTheSlotsAhead(order, cursor, run, i, |order|);
    RotatedKeeps(order, cursor, i);
    assert Rotated(order, cursor)[..|order|] == Rotated(order, cursor);
  }

  /** So a wait is bounded. */
  lemma BoundedWait(order: seq<nat>, cursor: nat, run: seq<Ready>, i: nat)
    requires Serves(order) && cursor < |order| && AlwaysSomeone(run)
    requires i < INITIATORS && StaysReady(run, i)
    requires i !in Grants(order, cursor, run)
    ensures |run| <= |order| - Count(order, i)
  {
    ShareOfTheSlotsAhead(order, cursor, run, i, |order|);
    RotatedKeeps(order, cursor, i);
    assert Rotated(order, cursor)[..|order|] == Rotated(order, cursor);
    CountBounds(Grants(order, cursor, run), i);
    CountBounds(order, i);
    assert i in order;
  }

  lemma {:induction false} CountsPartition(s: seq<nat>)
    requires forall k :: 0 <= k < |s| ==> s[k] < INITIATORS
    ensures Count(s, 0) + Count(s, 1) + Count(s, 2) == |s|
  {
    if |s| == 0 {
    } else {
      CountsPartition(s[1..]);
    }
  }

  /** With all three backlogged, one turn of grants is shared exactly by the slots. */
  lemma ExactShare(order: seq<nat>, cursor: nat, run: seq<Ready>, i: nat)
    requires Serves(order) && cursor < |order| && |run| == |order| && i < INITIATORS
    requires forall j :: 0 <= j < INITIATORS ==> StaysReady(run, j)
    ensures AlwaysSomeone(run)
    ensures Count(Grants(order, cursor, run), i) == Count(order, i)
  {
    BackloggedIsSomeone(run);
    var winners := Grants(order, cursor, run);
    forall k | 0 <= k < |run| ensures winners[k] < INITIATORS {
      GrantsAreReady(order, cursor, run, k);
    }
    CountsPartition(winners);
    CountsPartition(order);
    hide Grants, Serves, ValidOrder, Count, StaysReady;
    GuaranteedShare(order, cursor, run, 0);
    GuaranteedShare(order, cursor, run, 1);
    GuaranteedShare(order, cursor, run, 2);
  }

  lemma BackloggedIsSomeone(run: seq<Ready>)
    requires StaysReady(run, 0)
    ensures AlwaysSomeone(run)
  {
    forall k | 0 <= k < |run| ensures SomeoneReady(run[k]) {
      assert run[k][0];
    }
  }

  lemma GrantsUnfold(order: seq<nat>, cursor: nat, run: seq<Ready>)
    requires Serves(order) && cursor < |order| && AlwaysSomeone(run) && |run| > 0
    ensures var choice := ChooseWeighted(order, cursor, run[0]);
            && choice.0.Some? && choice.1 < |order| && AlwaysSomeone(run[1..])
            && Grants(order, cursor, run) == [choice.0.value] + Grants(order, choice.1, run[1..])
  {
    hide ChooseWeighted;
    ChooseWeightedGrants(order, cursor, run[0]);
  }

  lemma SomeoneInWindow(run: seq<Ready>, a: nat, n: nat)
    requires AlwaysSomeone(run) && a + n <= |run|
    ensures AlwaysSomeone(run[a..a + n])
  {
    hide SomeoneReady;
  }

  /** The grants of a window are themselves a run, from the cursor reached there. */
  lemma {:induction false} GrantsWindow(order: seq<nat>, cursor: nat, run: seq<Ready>, a: nat, n: nat)
    returns (reached: nat)
    requires Serves(order) && cursor < |order| && AlwaysSomeone(run) && a + n <= |run|
    ensures reached < |order| && AlwaysSomeone(run[a..a + n])
    ensures Grants(order, cursor, run)[a..a + n] == Grants(order, reached, run[a..a + n])
    decreases |run|
  {
    hide ChooseWeighted, ValidOrder, AlwaysSomeone, Grants;
    SomeoneInWindow(run, a, n);
    if a == 0 {
      reached := cursor;
      GrantsPrefix(order, cursor, run, n);
      assert run[..n] == run[0..0 + n];
    } else {
      GrantsUnfold(order, cursor, run);
      reached := GrantsWindow(order, ChooseWeighted(order, cursor, run[0]).1, run[1..], a - 1, n);
      assert run[1..][a - 1..a - 1 + n] == run[a..a + n];
    }
  }

  lemma {:induction false} GrantsPrefix(order: seq<nat>, cursor: nat, run: seq<Ready>, n: nat)
    requires Serves(order) && cursor < |order| && AlwaysSomeone(run) && n <= |run|
    ensures AlwaysSomeone(run[..n])
    ensures Grants(order, cursor, run)[..n] == Grants(order, cursor, run[..n])
    decreases |run|
  {
    SomeoneInWindow(run, 0, n);
    assert run[..n] == run[0..0 + n];
    if n == 0 {
      assert Grants(order, cursor, run[..n]) == [];
    } else {
      hide ChooseWeighted, ValidOrder, AlwaysSomeone, Grants;
      GrantsUnfold(order, cursor, run);
      GrantsUnfold(order, cursor, run[..n]);
      GrantsPrefix(order, ChooseWeighted(order, cursor, run[0]).1, run[1..], n - 1);
      assert run[..n][1..] == run[1..][..n - 1];
    }
  }

  // ---- AT-3: orders built from weights ----

  predicate PositiveWeights(weights: seq<nat>) {
    |weights| == INITIATORS && forall i :: 0 <= i < INITIATORS ==> weights[i] > 0
  }

  lemma WeightsAreSlots(weights: seq<nat>, i: nat)
    requires |weights| == INITIATORS && i < INITIATORS
    ensures Count(WeightedOrder(weights), i) == weights[i]
    ensures |WeightedOrder(weights)| == weights[0] + weights[1] + weights[2]
    ensures |WeightedOrder(weights)| > 0 ==> ValidOrder(WeightedOrder(weights))
  {
    CountAppend(Repeat(0, weights[0]) + Repeat(1, weights[1]), Repeat(2, weights[2]), i);
    CountAppend(Repeat(0, weights[0]), Repeat(1, weights[1]), i);
    CountBounds(Repeat(0, weights[0]), i);
    CountBounds(Repeat(1, weights[1]), i);
    CountBounds(Repeat(2, weights[2]), i);
  }

  lemma PositiveWeightsServe(weights: seq<nat>)
    requires PositiveWeights(weights)
    ensures Serves(WeightedOrder(weights))
  {
    forall i: nat | i < INITIATORS ensures i in WeightedOrder(weights) {
      WeightsAreSlots(weights, i);
      CountBounds(WeightedOrder(weights), i);
    }
    WeightsAreSlots(weights, 0);
  }

  /** Any three positive weights and any window of a run: exact shares when all are
      backlogged throughout it, at least its weight for whoever stays ready, and a wait
      of at most the sum of the other two weights. */
  lemma WeightedShares(weights: seq<nat>, cursor: nat, run: seq<Ready>, i: nat, a: nat, n: nat)
    requires PositiveWeights(weights) && i < INITIATORS && AlwaysSomeone(run) && a + n <= |run|
    requires cursor < |WeightedOrder(weights)|
    ensures Serves(WeightedOrder(weights))
    ensures var window := run[a..a + n];
            var winners := Grants(WeightedOrder(weights), cursor, run)[a..a + n];
            var turn := weights[0] + weights[1] + weights[2];
            (n == turn && (forall j :: 0 <= j < INITIATORS ==> StaysReady(window, j))
             ==> Count(winners, i) == weights[i])
            && (n == turn && StaysReady(window, i) ==> Count(winners, i) >= weights[i])
            && (StaysReady(window, i) && i !in winners ==> n <= turn - weights[i])
  {
    var order := WeightedOrder(weights);
    PositiveWeightsServe(weights);
    WeightsAreSlots(weights, i);
    hide WeightedOrder, Grants, Count, StaysReady, AlwaysSomeone, Serves, PositiveWeights;
    var reached := GrantsWindow(order, cursor, run, a, n);
    var window := run[a..a + n];
    if n == |order| && forall j :: 0 <= j < INITIATORS ==> StaysReady(window, j) {
      ExactShare(order, reached, window, i);
    }
    if n == |order| && StaysReady(window, i) {
      GuaranteedShare(order, reached, window, i);
    }
    if StaysReady(window, i) && i !in Grants(order, reached, window) {
      BoundedWait(order, reached, window, i);
    }
  }

  // ---- AT-2: three policies ----

  datatype Policy = RoundRobin | FixedPriority | Weighted

  datatype Cursors = Cursors(last: nat, slot: nat) {
    predicate Valid() { last < INITIATORS && slot < |AT2_ORDER| }
  }

  const AT2_ORDER: seq<nat> := [2, 2, 2, 0, 1]

  /** The first ready initiator behind the last one granted. */
  function NearestAfter(last: nat, ready: Ready, offset: nat): (winner: Option<nat>)
    requires 1 <= offset <= INITIATORS + 1
    ensures winner.Some? ==> winner.value < INITIATORS && ready[winner.value]
    decreases INITIATORS + 1 - offset
  {
    if offset > INITIATORS then None
    else if ready[(last + offset) % INITIATORS] then Some((last + offset) % INITIATORS)
    else NearestAfter(last, ready, offset + 1)
  }

  function HighestPriority(ready: Ready): (winner: Option<nat>)
    ensures winner.Some? <==> SomeoneReady(ready)
    ensures winner.Some? ==> winner.value < INITIATORS && ready[winner.value]
  {
    if ready[1] then Some(1) else if ready[0] then Some(0) else if ready[2] then Some(2) else None
  }

  /** AT-2's choice; a policy that finds nothing falls through to the weighted scan. */
  function ChooseByPolicy(policy: Policy, cursors: Cursors, ready: Ready): (Option<nat>, Cursors)
    requires cursors.Valid()
  {
    var nearest := NearestAfter(cursors.last, ready, 1);
    var highest := HighestPriority(ready);
    if policy.RoundRobin? && nearest.Some? then (nearest, cursors.(last := nearest.value))
    else if policy.FixedPriority? && highest.Some? then (highest, cursors)
    else
      var scanned := Scan(AT2_ORDER, cursors.slot, ready, 0);
      (scanned.0, cursors.(slot := scanned.1))
  }

  lemma At2OrderServes()
    ensures Serves(AT2_ORDER) && Serves([0, 1, 2])
    ensures Count(AT2_ORDER, 2) == 3 && Count(AT2_ORDER, 0) == 1 && Count(AT2_ORDER, 1) == 1
    ensures forall i: nat :: i < INITIATORS ==> Count([0, 1, 2], i) == 1
  {
    hide Count;
    assert AT2_ORDER[0] == 2 && AT2_ORDER[3] == 0 && AT2_ORDER[4] == 1;
    var three: seq<nat> := [0, 1, 2];
    assert three[0] == 0 && three[1] == 1 && three[2] == 2;
    forall i: nat | i < INITIATORS
      ensures Count(three, i) == 1 && Count(AT2_ORDER, i) == if i == 2 then 3 else 1
    {
      CountOf012(i);
      assert three == [0] + ([1] + ([2] + []));
      assert AT2_ORDER == [2] + ([2] + ([2] + ([0] + ([1] + []))));
    }
  }

  lemma CountOf012(i: nat)
    requires i < INITIATORS
    ensures Count([0] + ([1] + ([2] + [])), i) == 1
    ensures Count([2] + ([2] + ([2] + ([0] + ([1] + [])))), i) == if i == 2 then 3 else 1
  {
    assert Count([], i) == 0;
    hide Count;
    CountCons(2, [], i);
    CountCons(1, [2] + [], i);
    CountCons(0, [1] + ([2] + []), i);
    CountCons(1, [], i);
    CountCons(0, [1] + [], i);
    CountCons(2, [0] + ([1] + []), i);
    CountCons(2, [2] + ([0] + ([1] + [])), i);
    CountCons(2, [2] + ([2] + ([0] + ([1] + []))), i);
  }

  /** Round robin is the weighted scan with one slot each, read from behind the last
      winner. */
  lemma RoundRobinIsUnitWeights(last: nat, ready: Ready)
    requires last < INITIATORS && SomeoneReady(ready)
    ensures ValidOrder([0, 1, 2])
    ensures var winner := NearestAfter(last, ready, 1);
            var choice := ChooseWeighted([0, 1, 2], Next(last, INITIATORS), ready);
            winner.Some? && choice.0 == winner && choice.1 == Next(winner.value, INITIATORS)
  {
    hide Count;
    At2OrderServes();
    var order: seq<nat> := [0, 1, 2];
    NextIs(last, 3);
    var first := Next(last, 3);
    var second := Next(first, 3);
    var third := Next(second, 3);
    assert first == (last + 1) % 3 && second == (last + 2) % 3 && third == (last + 3) % 3;
    assert order[first] == first && order[second] == second && order[third] == third;
    if !ready[first] {
      assert NearestAfter(last, ready, 1) == NearestAfter(last, ready, 2);
      assert Scan(order, first, ready, 0) == Scan(order, second, ready, 1);
      if !ready[second] {
        assert NearestAfter(last, ready, 2) == NearestAfter(last, ready, 3);
        assert Scan(order, second, ready, 1) == Scan(order, third, ready, 2);
      }
    }
  }

  /** Under every policy a grant is made exactly when someone is pending, to someone
      pending: the fatal report is unreachable from the arbitration loop. */
  lemma PolicyGrants(policy: Policy, cursors: Cursors, ready: Ready)
    requires cursors.Valid()
    ensures var choice := ChooseByPolicy(policy, cursors, ready);
            choice.1.Valid() && (choice.0.Some? <==> SomeoneReady(ready))
            && (choice.0.Some? ==> choice.0.value < INITIATORS && ready[choice.0.value])
  {
    At2OrderServes();
    ChooseWeightedGrants(AT2_ORDER, cursors.slot, ready);
    ScanFindsFirst(AT2_ORDER, cursors.slot, ready, 0);
    if SomeoneReady(ready) {
      RoundRobinIsUnitWeights(cursors.last, ready);
    }
  }

  function PolicyRun(policy: Policy, cursors: Cursors, run: seq<Ready>): (winners: seq<nat>)
    requires cursors.Valid() && AlwaysSomeone(run)
    ensures |winners| == |run|
    decreases |run|
  {
    if |run| == 0 then []
    else
      PolicyGrants(policy, cursors, run[0]);
      var choice := ChooseByPolicy(policy, cursors, run[0]);
      [choice.0.value] + PolicyRun(policy, choice.1, run[1..])
  }

  lemma {:induction false} RoundRobinRuns(cursors: Cursors, run: seq<Ready>)
    requires cursors.Valid() && AlwaysSomeone(run)
    ensures Serves([0, 1, 2])
    ensures PolicyRun(RoundRobin, cursors, run) == Grants([0, 1, 2], Next(cursors.last, INITIATORS), run)
    decreases |run|
  {
    At2OrderServes();
    if |run| == 0 {
    } else {
      RoundRobinIsUnitWeights(cursors.last, run[0]);
      RoundRobinRuns(ChooseByPolicy(RoundRobin, cursors, run[0]).1, run[1..]);
    }
  }

  lemma {:induction false} WeightedRuns(cursors: Cursors, run: seq<Ready>)
    requires cursors.Valid() && AlwaysSomeone(run)
    ensures Serves(AT2_ORDER)
    ensures PolicyRun(Weighted, cursors, run) == Grants(AT2_ORDER, cursors.slot, run)
    decreases |run|
  {
    At2OrderServes();
    if |run| == 0 {
    } else {
      ChooseWeightedGrants(AT2_ORDER, cursors.slot, run[0]);
      WeightedRuns(ChooseByPolicy(Weighted, cursors, run[0]).1, run[1..]);
    }
  }

  /** Whoever stays pending waits through at most two other grants. */
  lemma RoundRobinWait(cursors: Cursors, run: seq<Ready>, i: nat)
    requires cursors.Valid() && AlwaysSomeone(run)
    requires i < INITIATORS && StaysReady(run, i)
    requires i !in PolicyRun(RoundRobin, cursors, run)
    ensures |run| <= 2
  {
    At2OrderServes();
    RoundRobinRuns(cursors, run);
    BoundedWait([0, 1, 2], Next(cursors.last, INITIATORS), run, i);
  }

  /** Five grants with everyone pending go 1, 1 and 3. */
  lemma WeightedPolicyShares(cursors: Cursors, run: seq<Ready>, i: nat)
    requires cursors.Valid() && |run| == 5 && i < INITIATORS
    requires forall j :: 0 <= j < INITIATORS ==> StaysReady(run, j)
    ensures AlwaysSomeone(run)
    ensures Count(PolicyRun(Weighted, cursors, run), i) == if i == 2 then 3 else 1
  {
    hide Count, StaysReady, Grants, PolicyRun, Serves;
    At2OrderServes();
    BackloggedIsSomeone(run);
    WeightedRuns(cursors, run);
    ExactShare(AT2_ORDER, cursors.slot, run, i);
  }

  /** Fixed priority bounds nobody else's wait: while initiator 1 stays pending it
      takes every grant, however long the run. */
  lemma {:induction false} FixedPriorityStarves(cursors: Cursors, run: seq<Ready>)
    requires cursors.Valid() && AlwaysSomeone(run) && StaysReady(run, 1)
    ensures PolicyRun(FixedPriority, cursors, run) == Repeat(1, |run|)
  {
    if |run| == 0 {
    } else {
      FixedPriorityStarves(cursors, run[1..]);
    }
  }
}
