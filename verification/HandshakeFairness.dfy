/** Handshake runs whose grants come from an arbiter: what the arbiters promise of free
    readiness vectors holds of the pending queues of every such run. */
module HandshakeFairness {
  import opened SimTime
  import opened Arbitration
  import opened TargetModel
  import opened HandshakeModel
  import opened HandshakeInvariant
  import opened HandshakeTheorems

  /** AT-3's arbiter with its order and cursor, or AT-2's with its policy. */
  datatype Arbiter =
    | Slots(order: seq<nat>, cursor: nat)
    | Policed(policy: Policy, cursors: Cursors)
  {
    predicate Valid() {
      match this
      case Slots(order, cursor) => Serves(order) && cursor < |order|
      case Policed(_, cursors) => cursors.Valid()
    }
  }

  function Choose(a: Arbiter, ready: Ready): (Option<nat>, Arbiter)
    requires a.Valid()
  {
    match a
    case Slots(order, cursor) =>
      var choice := ChooseWeighted(order, cursor, ready);
      (choice.0, Slots(order, choice.1))
    case Policed(policy, cursors) =>
      var choice := ChooseByPolicy(policy, cursors, ready);
      (choice.0, Policed(policy, choice.1))
  }

  lemma ChooseKeepsValid(a: Arbiter, ready: Ready)
    requires a.Valid()
    ensures Choose(a, ready).1.Valid()
    ensures Choose(a, ready).0.Some? <==> SomeoneReady(ready)
  {
    if a.Slots? {
      ChooseWeightedGrants(a.order, a.cursor, ready);
    } else {
      PolicyGrants(a.policy, a.cursors, ready);
    }
  }

  /** The winners of consecutive choices. */
  function Choices(a: Arbiter, run: seq<Ready>): seq<nat>
    requires a.Valid() && AlwaysSomeone(run)
  {
    match a
    case Slots(order, cursor) => Grants(order, cursor, run)
    case Policed(policy, cursors) => PolicyRun(policy, cursors, run)
  }

  lemma ChoicesUnfold(a: Arbiter, ready: Ready, run: seq<Ready>)
    requires a.Valid() && SomeoneReady(ready) && AlwaysSomeone(run)
    ensures AlwaysSomeone([ready] + run) && Choose(a, ready).0.Some? && Choose(a, ready).1.Valid()
    ensures Choices(a, [ready] + run) == [Choose(a, ready).0.value] + Choices(Choose(a, ready).1, run)
  {
    ChooseKeepsValid(a, ready);
    var longer := [ready] + run;
    assert longer[0] == ready && longer[1..] == run;
    assert forall k :: 1 <= k < |longer| ==> longer[k] == run[k - 1];
  }

  // ---- Runs with an arbiter ----

  predicate ThreeInitiators(s: System) {
    |s.initiators| == |s.fabric.pending| == INITIATORS
  }

  /** The arbiter after a step: it moves only at a grant. */
  function ArbiterAfter(s: System, a: Arbiter, step: Step): (next: Arbiter)
    requires ThreeInitiators(s) && a.Valid()
    ensures next.Valid()
  {
    ChooseKeepsValid(a, Waiting(s.fabric.pending));
    if step.Grant? then Choose(a, Waiting(s.fabric.pending)).1 else a
  }

  /** A run in which every grant is the arbiter's choice. */
  predicate IsArbitrated(s: System, a: Arbiter, steps: seq<Step>)
    requires ThreeInitiators(s) && a.Valid()
    decreases |steps|
  {
    |steps| == 0
    || (Enabled(s, steps[0])
        && (steps[0].Grant? ==> Choose(a, Waiting(s.fabric.pending)).0 == Some(steps[0].winner))
        && (After(s, steps[0]).Some? ==>
              IsArbitrated(After(s, steps[0]).value, ArbiterAfter(s, a, steps[0]), steps[1..])))
  }

  /** Who is granted, in order. */
  function Winners(steps: seq<Step>): seq<nat> {
    if |steps| == 0 then []
    else (if steps[0].Grant? then [steps[0].winner] else []) + Winners(steps[1..])
  }

  /** Which queues hold a request, at each grant. */
  function Vectors(s: System, a: Arbiter, steps: seq<Step>): seq<Ready>
    requires ThreeInitiators(s) && a.Valid() && IsArbitrated(s, a, steps)
    decreases |steps|
  {
    if |steps| == 0 || After(s, steps[0]).None? then []
    else
      (if steps[0].Grant? then [Waiting(s.fabric.pending)] else [])
      + Vectors(After(s, steps[0]).value, ArbiterAfter(s, a, steps[0]), steps[1..])
  }

  lemma GrantIsReady(s: System, step: Step)
    requires ThreeInitiators(s) && Enabled(s, step)
    ensures step.Grant? ==> SomeoneReady(Waiting(s.fabric.pending))
  {
    if step.Grant? {
      assert Waiting(s.fabric.pending)[step.winner];
    }
  }

  /** The winners of a run are the arbiter's choices over its readiness vectors. */
  lemma {:induction false} WinnersAreChoices(s: System, a: Arbiter, steps: seq<Step>)
    requires Inv(s) && ThreeInitiators(s) && a.Valid() && IsArbitrated(s, a, steps)
    ensures AlwaysSomeone(Vectors(s, a, steps))
    ensures Winners(steps) == Choices(a, Vectors(s, a, steps))
    decreases |steps|
  {
    if |steps| == 0 {
      assert Vectors(s, a, steps) == [];
    } else {
      var step := steps[0];
      StepKeeps(s, step);
      GrantIsReady(s, step);
      hide Inv, After, Enabled, Choose, Choices, SomeoneReady, Waiting;
      var next, b := After(s, step).value, ArbiterAfter(s, a, step);
      WinnersAreChoices(next, b, steps[1..]);
      var rest := Vectors(next, b, steps[1..]);
      if step.Grant? {
        ChoicesUnfold(a, Waiting(s.fabric.pending), rest);
        assert Vectors(s, a, steps) == [Waiting(s.fabric.pending)] + rest;
      } else {
        assert Vectors(s, a, steps) == [] + rest == rest;
      }
    }
  }

  lemma PendingStays(s: System, step: Step, i: nat)
    requires ThreeInitiators(s) && Enabled(s, step) && After(s, step).Some? && i < INITIATORS
    requires |s.fabric.pending[i]| > 0 && step != Grant(i)
    ensures ThreeInitiators(After(s, step).value) && |After(s, step).value.fabric.pending[i]| > 0
  {
  }

  lemma WinnersUnfold(steps: seq<Step>)
    requires |steps| > 0
    ensures steps[0].Grant? ==> steps[0].winner in Winners(steps)
    ensures forall w :: w in Winners(steps[1..]) ==> w in Winners(steps)
  {
  }

  lemma StaysReadyCons(ready: Ready, run: seq<Ready>, i: nat)
    requires i < INITIATORS && ready[i] && StaysReady(run, i)
    ensures StaysReady([ready] + run, i)
  {
  }

  /** One step of a run in which `i` waits. */
  lemma WaitingStep(s: System, a: Arbiter, steps: seq<Step>, i: nat)
    requires Inv(s) && ThreeInitiators(s) && a.Valid() && IsArbitrated(s, a, steps) && |steps| > 0
    requires i < INITIATORS && |s.fabric.pending[i]| > 0 && i !in Winners(steps)
    ensures Enabled(s, steps[0]) && After(s, steps[0]).Some?
    ensures var next := After(s, steps[0]).value;
            && Inv(next) && ThreeInitiators(next) && |next.fabric.pending[i]| > 0 && i !in Winners(steps[1..])
            && IsArbitrated(next, ArbiterAfter(s, a, steps[0]), steps[1..])
            && Waiting(s.fabric.pending)[i]
  {
    StepKeeps(s, steps[0]);
    hide Inv, After, Enabled, Choose, ArbiterAfter;
    WinnersUnfold(steps);
    PendingStays(s, steps[0], i);
  }

  /** Until it is granted, an initiator with a pending request is ready at every grant. */
  lemma {:induction false} NotGrantedStaysReady(s: System, a: Arbiter, steps: seq<Step>, i: nat)
    requires Inv(s) && ThreeInitiators(s) && a.Valid() && IsArbitrated(s, a, steps)
    requires i < INITIATORS && |s.fabric.pending[i]| > 0 && i !in Winners(steps)
    ensures StaysReady(Vectors(s, a, steps), i)
    decreases |steps|
  {
    hide Inv, After, Enabled, Choose, Waiting, Winners, Arbiter.Valid, ArbiterAfter, IsArbitrated;
    if |steps| == 0 {
      assert Vectors(s, a, steps) == [];
    } else {
      hide StaysReady, ThreeInitiators;
      WaitingStep(s, a, steps, i);
      var next, b := After(s, steps[0]).value, ArbiterAfter(s, a, steps[0]);
      NotGrantedStaysReady(next, b, steps[1..], i);
      var rest := Vectors(next, b, steps[1..]);
      if steps[0].Grant? {
        StaysReadyCons(Waiting(s.fabric.pending), rest, i);
      } else {
        assert Vectors(s, a, steps) == [] + rest == rest;
      }
    }
  }

  // ---- What runs with an arbiter promise ----

  /** From any reachable state and any cursor of AT-3's arbiter, an initiator with a
      pending request sees at most the other two weights' worth of grants before its own. */
  lemma PendingIsGranted(s: System, weights: seq<nat>, cursor: nat, steps: seq<Step>, i: nat)
    requires Reachable(s) && ThreeInitiators(s) && PositiveWeights(weights)
    requires cursor < |WeightedOrder(weights)| && Slots(WeightedOrder(weights), cursor).Valid()
    requires IsArbitrated(s, Slots(WeightedOrder(weights), cursor), steps)
    requires i < INITIATORS && |s.fabric.pending[i]| > 0 && i !in Winners(steps)
    ensures |Winners(steps)| <= weights[0] + weights[1] + weights[2] - weights[i]
  {
    var order := WeightedOrder(weights);
    var a := Slots(order, cursor);
    hide Reachable, WeightedOrder, IsArbitrated, Vectors;
    ReachableInv(s);
    WinnersAreChoices(s, a, steps);
    NotGrantedStaysReady(s, a, steps, i);
    WeightsAreSlots(weights, i);
    hide Inv, Count, StaysReady;
    BoundedWait(order, cursor, Vectors(s, a, steps), i);
  }

  /** Under round robin it sees at most two. */
  lemma PendingIsGrantedInTurn(s: System, cursors: Cursors, steps: seq<Step>, i: nat)
    requires Reachable(s) && ThreeInitiators(s) && cursors.Valid()
    requires IsArbitrated(s, Policed(RoundRobin, cursors), steps)
    requires i < INITIATORS && |s.fabric.pending[i]| > 0 && i !in Winners(steps)
    ensures |Winners(steps)| <= 2
  {
    var a := Policed(RoundRobin, cursors);
    hide Reachable, IsArbitrated, Vectors;
    ReachableInv(s);
    WinnersAreChoices(s, a, steps);
    NotGrantedStaysReady(s, a, steps, i);
    hide Inv, StaysReady;
    RoundRobinWait(cursors, Vectors(s, a, steps), i);
  }

  /** A run of as many grants as the weights add up to, with every queue backlogged at
      each, gives every initiator exactly its weight. */
  lemma BackloggedShares(s: System, weights: seq<nat>, cursor: nat, steps: seq<Step>, i: nat)
    requires Reachable(s) && ThreeInitiators(s) && PositiveWeights(weights) && i < INITIATORS
    requires cursor < |WeightedOrder(weights)| && Slots(WeightedOrder(weights), cursor).Valid()
    requires IsArbitrated(s, Slots(WeightedOrder(weights), cursor), steps)
    requires |Winners(steps)| == weights[0] + weights[1] + weights[2]
    requires forall j :: 0 <= j < INITIATORS ==>
               StaysReady(Vectors(s, Slots(WeightedOrder(weights), cursor), steps), j)
    ensures Count(Winners(steps), i) == weights[i]
  {
    var order := WeightedOrder(weights);
    var a := Slots(order, cursor);
    hide Reachable, WeightedOrder, IsArbitrated, Vectors, StaysReady, Count;
    ReachableInv(s);
    WinnersAreChoices(s, a, steps);
    hide Inv;
    WeightsAreSlots(weights, i);
    ExactShare(order, cursor, Vectors(s, a, steps), i);
  }
}
