/** The modules of `HandshakeRun` wired together: each step of a thread moves their joint
    state as the step system says. */
module HandshakeTop {
  import opened SimTime
  import opened TargetModel
  import opened HandshakeModel
  import opened HandshakeInvariant
  import opened HandshakeTheorems
  import opened HandshakeRun

  class Top {
    const initiators: seq<InitiatorThread>
    const fabric: Fabric
    const target: MemoryTarget
    const once: bool
    ghost var log: Log

    ghost predicate Valid()
      reads fabric
    {
      && |fabric.pending| == |initiators|
      && forall i, j :: 0 <= i < j < |initiators| ==> initiators[i] != initiators[j]
    }

    ghost function Threads(): (s: seq<Initiator>)
      reads initiators
      ensures |s| == |initiators| && forall i :: 0 <= i < |initiators| ==> s[i] == initiators[i].State()
    {
      seq(|initiators|, i requires 0 <= i < |initiators| reads initiators => initiators[i].State())
    }

    ghost function State(): System
      reads this, fabric, target, initiators
    {
      System(Threads(), fabric.State(), target.State(), once, log)
    }

    /** Any number of fresh initiators around a fresh interconnect and target. */
    constructor (initiators: seq<InitiatorThread>, fabric: Fabric, target: MemoryTarget, once: bool,
                 ghost totals: seq<nat>)
      requires |initiators| == |totals|
      requires forall i, j :: 0 <= i < j < |initiators| ==> initiators[i] != initiators[j]
      requires forall i :: 0 <= i < |initiators| ==>
                 initiators[i].State() == Initiator(totals[i], 0, false, [], None, 0, false)
      requires fabric.State() == Interconnect(seq(|totals|, _ => []), false, 0, map[])
      requires target.State() == EmptyTarget(target.depth)
      ensures Valid() && State() == Initial(totals, target.depth, once)
      ensures this.initiators == initiators && this.fabric == fabric && this.target == target
    {
      this.initiators := initiators;
      this.fabric := fabric;
      this.target := target;
      this.once := once;
      log := Log([], [], [], [], []);
      new;
      assert Threads() == Initial(totals, target.depth, once).initiators;
    }

    method Issue(i: nat)
      requires Valid() && Enabled(State(), Step.Issue(i))
      modifies initiators[i], fabric
      ensures Valid() && Some(State()) == After(old(State()), Step.Issue(i))
    {
      ghost var before := State();
      initiators[i].IssueNext(i, fabric);
      assert Threads() == before.initiators[i := initiators[i].State()];
    }

    method FinishIssuing(i: nat)
      requires Valid() && Enabled(State(), Step.FinishIssuing(i))
      modifies initiators[i]
      ensures Valid() && Some(State()) == After(old(State()), Step.FinishIssuing(i))
    {
      ghost var before := State();
      initiators[i].FinishIssuing();
      assert Threads() == before.initiators[i := initiators[i].State()];
    }

    /** The arbiter's pass for the winner it chose. */
    method Grant(winner: nat)
      requires Valid() && Enabled(State(), Step.Grant(winner))
      modifies this, fabric, target
      ensures Valid() && Some(State()) == After(old(State()), Step.Grant(winner))
    {
      ghost var before := State();
      var txn := fabric.pending[winner][0];
      var _ := fabric.Grant(winner, target);
      log := log.Granted(txn);
      assert Threads() == before.initiators;
    }

    method TakeRequest()
      requires Valid() && Enabled(State(), Step.TakeRequest)
      modifies target
      ensures Valid() && Some(State()) == After(old(State()), Step.TakeRequest)
    {
      ghost var before := State();
      target.TakeForAccept();
      assert Threads() == before.initiators;
    }

    method SendEndReq()
      requires Valid() && Enabled(State(), Step.SendEndReq)
      modifies this, fabric, target
      ensures Valid() && Some(State()) == After(old(State()), Step.SendEndReq)
    {
      ghost var before := State();
      var txn := target.SendEndReq(fabric);
      log := log.(accepted := log.accepted + [txn]);
      assert Threads() == before.initiators;
    }

    method TakeForService()
      requires Valid() && Enabled(State(), Step.TakeForService)
      modifies target
      ensures Valid() && Some(State()) == After(old(State()), Step.TakeForService)
    {
      ghost var before := State();
      target.TakeForService();
      assert Threads() == before.initiators;
    }

    /** `ok` is false at a fatal report. */
    method SendBeginResp() returns (ok: bool)
      requires Valid() && Enabled(State(), Step.SendBeginResp)
      modifies this, target, initiators
      ensures Valid() && ok == After(old(State()), Step.SendBeginResp).Some?
      ensures ok ==> Some(State()) == After(old(State()), Step.SendBeginResp)
    {
      ghost var before := State();
      var txn := target.serving.value;
      if txn.initiator >= |initiators| {
        return false;
      }
      ok := target.SendBeginResp(initiators[txn.initiator], once);
      log := log.(responded := log.responded + [txn]);
      assert Threads() == before.initiators[txn.initiator := initiators[txn.initiator].State()];
    }

    method TakeResponse(i: nat)
      requires Valid() && Enabled(State(), Step.TakeResponse(i))
      modifies initiators[i]
      ensures Valid() && Some(State()) == After(old(State()), Step.TakeResponse(i))
    {
      ghost var before := State();
      initiators[i].TakeResponse();
      assert Threads() == before.initiators[i := initiators[i].State()];
    }

    method SendEndResp(i: nat)
      requires Valid() && Enabled(State(), Step.SendEndResp(i))
      modifies this, initiators[i]
      ensures Valid() && Some(State()) == After(old(State()), Step.SendEndResp(i))
    {
      ghost var before := State();
      var txn := initiators[i].SendEndResp();
      log := log.(finished := log.finished + [txn]);
      assert Threads() == before.initiators[i := initiators[i].State()];
    }

    /** One step of whichever thread runs next. */
    method Take(step: Step) returns (ok: bool)
      requires Valid() && Enabled(State(), step)
      modifies this, fabric, target, initiators
      ensures Valid() && ok == After(old(State()), step).Some?
      ensures ok ==> Some(State()) == After(old(State()), step)
      ensures old(Inv(State())) ==> ok && Inv(State())
    {
      ghost var before := State();
      if Inv(before) {
        StepKeeps(before, step);
      }
      ok := true;
      match step
      case Issue(i) => Issue(i);
      case FinishIssuing(i) => FinishIssuing(i);
      case Grant(winner) => Grant(winner);
      case TakeRequest => TakeRequest();
      case SendEndReq => SendEndReq();
      case TakeForService => TakeForService();
      case SendBeginResp => ok := SendBeginResp();
      case TakeResponse(i) => TakeResponse(i);
      case SendEndResp(i) => SendEndResp(i);
    }

    /** A whole schedule ends where the step system says. */
    method Run(steps: seq<Step>)
      requires Valid() && Inv(State()) && IsRun(State(), steps)
      modifies this, fabric, target, initiators
      ensures Valid() && Inv(State()) && Some(State()) == EndOf(old(State()), steps)
    {
      for k := 0 to |steps|
        invariant Valid() && Inv(State()) && IsRun(State(), steps[k..])
        invariant EndOf(State(), steps[k..]) == EndOf(old(State()), steps)
      {
        ghost var rest := steps[k..];
        assert rest[0] == steps[k] && rest[1..] == steps[k + 1..];
        var _ := Take(steps[k]);
      }
    }
  }
}
