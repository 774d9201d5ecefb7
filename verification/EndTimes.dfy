/** The lists of future end times that the AT-4 and AT-5 models prune. */
module EndTimes {
  import opened SimTime

  function RemoveCompleted(ends: seq<real>, time: real): seq<real> {
    if |ends| == 0 then []
    else
      var n := |ends| - 1;
      RemoveCompleted(ends[..n], time) + (if ends[n] <= time then [] else [ends[n]])
  }

  function MinOf(ends: seq<real>): real
    requires |ends| > 0
  {
    if |ends| == 1 then ends[0] else Min(MinOf(ends[..|ends| - 1]), ends[|ends| - 1])
  }

  /** How many of the end times lie after `time`. */
  function Later(ends: seq<real>, time: real): nat {
    if |ends| == 0 then 0
    else Later(ends[..|ends| - 1], time) + (if ends[|ends| - 1] > time then 1 else 0)
  }

  lemma LaterSnoc(ends: seq<real>, e: real, time: real)
    ensures Later(ends + [e], time) == Later(ends, time) + (if e > time then 1 else 0)
  {
    assert (ends + [e])[..|ends|] == ends;
  }

  lemma {:induction false} LaterAntitone(ends: seq<real>, t: real, u: real)
    requires t <= u
    ensures Later(ends, u) <= Later(ends, t) <= |ends|
  {
    if |ends| == 0 {
    } else {
      LaterAntitone(ends[..|ends| - 1], t, u);
    }
  }

  /** Removal keeps the counts from its time on and never raises a count. */
  lemma {:induction false} RemoveKeepsLater(ends: seq<real>, time: real, t: real)
    ensures Later(RemoveCompleted(ends, time), t) <= Later(ends, t)
    ensures time <= t ==> Later(RemoveCompleted(ends, time), t) == Later(ends, t)
    ensures |RemoveCompleted(ends, time)| == Later(ends, time)
    ensures forall i :: 0 <= i < |RemoveCompleted(ends, time)| ==> RemoveCompleted(ends, time)[i] > time
  {
    if |ends| == 0 {
    } else {
      hide Later, RemoveCompleted;
      var front, e := ends[..|ends| - 1], ends[|ends| - 1];
      RemoveKeepsLater(front, time, t);
      assert ends == front + [e];
      RemoveSnoc(front, e, time);
      LaterSnoc(front, e, t);
      LaterSnoc(front, e, time);
      LaterSnoc(RemoveCompleted(front, time), e, t);
    }
  }

  lemma RemoveSnoc(ends: seq<real>, e: real, time: real)
    ensures RemoveCompleted(ends + [e], time)
            == if e <= time then RemoveCompleted(ends, time) else RemoveCompleted(ends, time) + [e]
  {
    assert (ends + [e])[..|ends|] == ends;
  }

  lemma RemoveFromPair(a: real, b: real, t: real)
    ensures RemoveCompleted([], t) == []
    ensures RemoveCompleted([a], t) == if a <= t then [] else [a]
    ensures RemoveCompleted([a, b], t) == (if a <= t then [] else [a]) + (if b <= t then [] else [b])
    ensures MinOf([a, b]) == Min(a, b)
  {
    assert [a, b][..1] == [a] && [a][..0] == [];
    assert RemoveCompleted([a][..0], t) == [];
  }

  lemma {:induction false} MinOfIsLeast(ends: seq<real>)
    requires |ends| > 0
    ensures MinOf(ends) in ends
    ensures forall i :: 0 <= i < |ends| ==> MinOf(ends) <= ends[i]
  {
    if |ends| > 1 {
      MinOfIsLeast(ends[..|ends| - 1]);
    }
  }

  lemma {:induction false} LaterBelowAll(ends: seq<real>, t: real)
    ensures (forall i :: 0 <= i < |ends| ==> t < ends[i]) <==> Later(ends, t) == |ends|
  {
    if |ends| == 0 {
    } else {
      var n := |ends| - 1;
      LaterBelowAll(ends[..n], t);
      LaterAntitone(ends[..n], t, t);
      assert forall i :: 0 <= i < n ==> ends[..n][i] == ends[i];
    }
  }

  /** `from` lists, in order, exactly the positions of the ends after `time`. */
  ghost predicate Picks(ends: seq<real>, time: real, kept: seq<real>, from: seq<nat>) {
    && |from| == |kept|
    && (forall i :: 0 <= i < |from| ==> from[i] < |ends| && kept[i] == ends[from[i]] && ends[from[i]] > time)
    && (forall i, j :: 0 <= i < j < |from| ==> from[i] < from[j])
    && (forall k :: 0 <= k < |ends| && ends[k] > time ==> k in from)
  }

  /** `kept` holds the ends after `time`, each where it stood among them. */
  ghost predicate Filters(ends: seq<real>, time: real, kept: seq<real>) {
    exists from: seq<nat> :: Picks(ends, time, kept, from)
  }

  /** One more end extends the list of positions by at most itself. */
  lemma PicksSnoc(ends: seq<real>, e: real, time: real, kept: seq<real>, from: seq<nat>)
    requires Picks(ends, time, kept, from)
    ensures e <= time ==> Picks(ends + [e], time, kept, from)
    ensures e > time ==> Picks(ends + [e], time, kept + [e], from + [|ends|])
  {
    var longer := ends + [e];
    assert forall k :: 0 <= k < |ends| ==> longer[k] == ends[k];
    forall k | 0 <= k < |longer| && longer[k] > time ensures k in from + [|ends|] {
      if k < |ends| {
        assert k in from;
      }
    }
  }

  lemma {:induction false} RemoveCompletedFilters(ends: seq<real>, time: real)
    ensures Filters(ends, time, RemoveCompleted(ends, time))
  {
    hide Picks;
    if |ends| == 0 {
      NothingToPick(time);
    } else {
      var n := |ends| - 1;
      RemoveCompletedFilters(ends[..n], time);
      var kept := RemoveCompleted(ends[..n], time);
      var from: seq<nat> :| Picks(ends[..n], time, kept, from);
      PicksSnoc(ends[..n], ends[n], time, kept, from);
      assert ends == ends[..n] + [ends[n]];
      assert ends[n] <= time ==> RemoveCompleted(ends, time) == kept;
      if ends[n] > time {
        assert RemoveCompleted(ends, time) == kept + [ends[n]];
      }
    }
  }

  lemma NothingToPick(time: real)
    ensures Picks([], time, [], [])
  {
  }

  method PruneCompleted(ends: seq<real>, time: real) returns (kept: seq<real>)
    ensures kept == RemoveCompleted(ends, time)
    ensures Filters(ends, time, kept)
  {
    kept := [];
    for i := 0 to |ends|
      invariant kept == RemoveCompleted(ends[..i], time)
    {
      assert ends[..i + 1][..i] == ends[..i];
      if ends[i] > time {
        kept := kept + [ends[i]];
      }
    }
    assert ends[..|ends|] == ends;
    RemoveCompletedFilters(ends, time);
  }

  method EarliestEnd(ends: seq<real>) returns (earliest: real)
    requires |ends| > 0
    ensures earliest == MinOf(ends)
    ensures earliest in ends && forall i :: 0 <= i < |ends| ==> earliest <= ends[i]
  {
    earliest := ends[0];
    for i := 1 to |ends|
      invariant earliest == MinOf(ends[..i])
    {
      assert ends[..i + 1][..i] == ends[..i];
      earliest := Min(earliest, ends[i]);
    }
    assert ends[..|ends|] == ends;
    MinOfIsLeast(ends);
  }
}
