/** Project AT-1: one initiator connected directly to the memory target.  It waits for
    END_REQ before it issues the next request, which is the request exclusion rule on
    its hop. */
module DirectLink {
  import opened SimTime
  import opened TargetModel
  import opened TimedTarget

  /** `inLoop` says that the issuing thread waits for END_REQ. */
  datatype Direct = Direct(
    total: nat,
    gap: real,
    next: nat,
    inLoop: bool,
    awaiting: bool,
    awaitingIndex: nat,
    endReqSeen: bool,
    nextIssue: real,
    link: Timed
  )

  function Begun(total: nat, gap: real, depth: nat): Direct {
    Direct(total, gap, 0, false, false, 0, false, 0.0, Start(depth))
  }

  datatype Act = Issue | Resume | Device(move: Move)

  predicate Allowed(s: Direct, act: Act) {
    match act
    case Issue => !s.inLoop && s.next < s.total && s.link.now >= s.nextIssue
    case Resume => s.inLoop && s.endReqSeen
    case Device(move) => !move.Begin? && Possible(s.link, move)
  }

  /** None is a fatal report, or a request sent while another is outstanding. */
  function Acted(s: Direct, act: Act): Option<Direct>
    requires Allowed(s, act)
  {
    match act
    case Issue =>
      var txn := Txn(0, s.next);
      if !Possible(s.link, Begin(txn)) || Moved(s.link, Begin(txn), true).None? then None
      else
        Some(s.(inLoop := true, awaiting := true, awaitingIndex := s.next, endReqSeen := false,
                link := Moved(s.link, Begin(txn), true).value))
    case Resume =>
      var txn := Txn(0, s.next);
      if txn !in s.link.begun then None
      else Some(s.(inLoop := false, awaiting := false, next := s.next + 1, nextIssue := s.link.begun[txn] + s.gap))
    case Device(move) =>
      var moved := Moved(s.link, move, true);
      if moved.None? then None
      else if !move.EndReq? then Some(s.(link := moved.value))
      else if !s.awaiting || s.awaitingIndex != s.link.target.accepting.value.index then None
      else Some(s.(endReqSeen := true, link := moved.value))
  }

  /** The initiator waits for exactly the request that the target has not answered. */
  predicate InStep(s: Direct) {
    && TimedTarget.Inv(s.link)
    && s.inLoop == s.awaiting
    && (s.inLoop ==> s.awaitingIndex == s.next < s.total && Txn(0, s.next) in s.link.begun)
    && s.link.target.Unanswered() == (if s.inLoop && !s.endReqSeen then [Txn(0, s.next)] else [])
    && (forall txn :: txn in s.link.begun ==> txn.initiator == 0 && txn.index <= s.next)
    && (!s.inLoop ==> Txn(0, s.next) !in s.link.begun)
    && s.next <= s.total
    && (forall k: nat :: k < s.next ==> Txn(0, k) in s.link.begun)
  }

  lemma IssueKeepsStep(s: Direct)
    requires InStep(s) && Allowed(s, Issue)
    ensures Acted(s, Issue).Some? && InStep(Acted(s, Issue).value)
  {
    BeginKeeps(s.link, Txn(0, s.next));
    ReceiveKeepsSlots(s.link.target, Txn(0, s.next));
    hide TimedTarget.Inv, Receive;
  }

  lemma ResumeKeepsStep(s: Direct)
    requires InStep(s) && Allowed(s, Resume)
    ensures Acted(s, Resume).Some? && InStep(Acted(s, Resume).value)
  {
    hide TimedTarget.Inv, Target.Unanswered;
  }

  lemma QuietKeepsStep(s: Direct, link: Timed)
    requires InStep(s) && TimedTarget.Inv(link)
    requires link.begun == s.link.begun && link.target.Unanswered() == s.link.target.Unanswered()
    ensures InStep(s.(link := link))
  {
    hide TimedTarget.Inv, Target.Unanswered;
  }

  lemma AnswerKeepsStep(s: Direct, link: Timed)
    requires InStep(s) && TimedTarget.Inv(link) && s.link.target.accepting.Some?
    requires link.begun == s.link.begun
    requires s.link.target.Unanswered() == [s.link.target.accepting.value] + link.target.Unanswered()
    ensures s.awaiting && s.awaitingIndex == s.link.target.accepting.value.index
    ensures InStep(s.(endReqSeen := true, link := link))
  {
    hide TimedTarget.Inv, Target.Unanswered;
    assert s.link.target.Unanswered()[0] == s.link.target.accepting.value;
    assert s.inLoop && !s.endReqSeen;
    assert link.target.Unanswered() == s.link.target.Unanswered()[1..] == [];
  }

  lemma DeviceKeepsStep(s: Direct, move: Move)
    requires InStep(s) && Allowed(s, Device(move))
    ensures Acted(s, Device(move)).Some? && InStep(Acted(s, Device(move)).value)
  {
    MoveKeeps(s.link, move, true);
    DeviceUnanswered(s.link, move);
    var next := Moved(s.link, move, true).value;
    hide TimedTarget.Inv, Moved, Target.Unanswered;
    if move.EndReq? {
      AnswerKeepsStep(s, next);
    } else {
      QuietKeepsStep(s, next);
    }
    hide InStep;
  }

  /** Every act keeps the two in step: neither the END_REQ mismatch report nor the
      underflow report is reachable, and no request is sent while one is outstanding. */
  lemma ActKeeps(s: Direct, act: Act)
    requires InStep(s) && Allowed(s, act)
    ensures Acted(s, act).Some? && InStep(Acted(s, act).value)
  {
    hide InStep, Allowed, Acted;
    match act
    case Issue => IssueKeepsStep(s);
    case Resume => ResumeKeepsStep(s);
    case Device(move) => DeviceKeepsStep(s, move);
  }

  /** Only END_REQ answers a request, and it answers the oldest. */
  lemma DeviceUnanswered(link: Timed, move: Move)
    requires TimedTarget.Inv(link) && Possible(link, move) && !move.Begin?
    ensures Moved(link, move, true).Some?
    ensures var next := Moved(link, move, true).value;
            next.begun == link.begun
            && (if move.EndReq?
                then link.target.Unanswered() == [link.target.accepting.value] + next.target.Unanswered()
                else next.target.Unanswered() == link.target.Unanswered())
  {
    match move
    case StartAccept => TakeAcceptedKeepsSlots(link.target);
    case EndReq => FinishAcceptKeepsSlots(link.target);
    case StartService(_) => TakeServiceKeepsSlots(link.target);
    case BeginResp => FinishServiceKeepsSlots(link.target, true);
    case Advance(_) =>
  }

  predicate IsActRun(s: Direct, acts: seq<Act>)
    decreases |acts|
  {
    |acts| == 0
    || (Allowed(s, acts[0])
        && (Acted(s, acts[0]).Some? ==> IsActRun(Acted(s, acts[0]).value, acts[1..])))
  }

  function ActEnd(s: Direct, acts: seq<Act>): Option<Direct>
    requires IsActRun(s, acts)
    decreases |acts|
  {
    if |acts| == 0 then Some(s)
    else if Acted(s, acts[0]).None? then None
    else ActEnd(Acted(s, acts[0]).value, acts[1..])
  }

  lemma {:induction false} ActRunKeeps(s: Direct, acts: seq<Act>)
    requires InStep(s) && IsActRun(s, acts)
    ensures ActEnd(s, acts).Some? && InStep(ActEnd(s, acts).value)
    decreases |acts|
  {
    if |acts| == 0 {
    } else {
      ActKeeps(s, acts[0]);
      hide Allowed, Acted, InStep;
      ActRunKeeps(Acted(s, acts[0]).value, acts[1..]);
    }
  }

  /** initiator_blocked_ns as AT-1 reports it. */
  function ReportedBlocked(s: Direct, txn: Txn): real
    requires txn in s.link.begun && txn in s.link.ended
  {
    if txn in s.link.target.backpressured
    then Max(0.0, s.link.ended[txn] - s.link.begun[txn] - ACCEPT_LATENCY)
    else 0.0
  }

  /** In every run of the direct link: no fatal report, at most one request outstanding,
      and the reported blocked time is the accept latency beyond 1 ns for every answered
      request, so that neither the condition on back-pressure nor the clamp loses any. */
  lemma DirectRuns(total: nat, gap: real, depth: nat, acts: seq<Act>, txn: Txn)
    requires depth > 0 && IsActRun(Begun(total, gap, depth), acts)
    ensures var end := ActEnd(Begun(total, gap, depth), acts);
            end.Some?
            && |end.value.link.target.Unanswered()| <= 1
            && (txn in end.value.link.ended ==>
                  txn in end.value.link.begun
                  && ReportedBlocked(end.value, txn)
                     == end.value.link.ended[txn] - end.value.link.begun[txn] - 1.0)
  {
    ActRunKeeps(Begun(total, gap, depth), acts);
    var end := ActEnd(Begun(total, gap, depth), acts).value;
    if txn in end.link.ended {
      assert Answered(end.link, txn);
    }
  }
}
