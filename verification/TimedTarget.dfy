/** The memory target with its clock: the accept wait of 1 ns, the service wait, and
    zero-time notifications, which forbid time to pass while a thread could run. */
module TimedTarget {
  import opened SimTime
  import opened TargetModel

  const ACCEPT_LATENCY: real := 1.0

  /** `begun`, `admitted` and `ended` are the instants of BEGIN_REQ, of taking a slot
      and of END_REQ; `found` is how many admitted requests had no response at BEGIN_REQ.
      The last five list, in order, who was answered and when, when services began, how
      long they were to take and when their responses began. */
  datatype Timed = Timed(
    target: Target,
    now: real,
    acceptEnd: real,
    serviceEnd: real,
    begun: map<Txn, real>,
    admitted: map<Txn, real>,
    ended: map<Txn, real>,
    found: map<Txn, nat>,
    answered: seq<Txn>,
    answeredAt: seq<real>,
    began: seq<real>,
    latencies: seq<real>,
    responded: seq<real>
  )

  function Start(depth: nat): Timed {
    Timed(EmptyTarget(depth), 0.0, 0.0, 0.0, map[], map[], map[], map[], [], [], [], [], [])
  }

  datatype Move =
    | Begin(txn: Txn)
    | StartAccept
    | EndReq
    | StartService(latency: real)
    | BeginResp
    | Advance(delay: real)

  /** A request is new and comes only while none is outstanding; time stops at the next
      deadline and while a thread is runnable. */
  predicate Possible(s: Timed, move: Move) {
    match move
    case Begin(txn) => s.target.Unanswered() == [] && txn !in s.begun
    case StartAccept => CanTakeAccepted(s.target)
    case EndReq => s.target.accepting.Some? && s.now == s.acceptEnd
    case StartService(latency) => CanTakeService(s.target) && latency >= 0.0
    case BeginResp => s.target.serving.Some? && s.now == s.serviceEnd
    case Advance(delay) =>
      && delay > 0.0 && !CanTakeAccepted(s.target) && !CanTakeService(s.target)
      && (s.target.accepting.Some? ==> s.now + delay <= s.acceptEnd)
      && (s.target.serving.Some? ==> s.now + delay <= s.serviceEnd)
  }

  /** None is the underflow report. */
  function Moved(s: Timed, move: Move, once: bool): Option<Timed>
    requires Possible(s, move)
  {
    match move
    case Begin(txn) =>
      Some(s.(target := Receive(s.target, txn), begun := s.begun[txn := s.now],
              admitted := if s.target.occupied < s.target.depth then s.admitted[txn := s.now] else s.admitted,
              found := s.found[txn := Admitted(s.target)]))
    case StartAccept => Some(s.(target := TakeAccepted(s.target), acceptEnd := s.now + ACCEPT_LATENCY))
    case EndReq =>
      Some(s.(target := FinishAccept(s.target), ended := s.ended[s.target.accepting.value := s.now],
              answered := s.answered + [s.target.accepting.value], answeredAt := s.answeredAt + [s.now]))
    case StartService(latency) =>
      Some(s.(target := TakeService(s.target), serviceEnd := s.now + latency,
              began := s.began + [s.now], latencies := s.latencies + [latency]))
    case BeginResp =>
      var freed := FinishService(s.target, once);
      if freed.None? then None
      else
        Some(s.(target := freed.value, responded := s.responded + [s.now],
                admitted := if |s.target.waiting| > 0 then s.admitted[s.target.waiting[0] := s.now] else s.admitted))
    case Advance(delay) => Some(s.(now := s.now + delay))
  }

  /** A request whose END_REQ has gone out. */
  predicate Answered(s: Timed, txn: Txn) {
    && txn in s.begun && txn in s.admitted && txn in s.ended
    && s.ended[txn] == s.admitted[txn] + ACCEPT_LATENCY
    && s.begun[txn] <= s.admitted[txn]
    && (txn !in s.target.backpressured ==> s.admitted[txn] == s.begun[txn])
  }

  /** The one request that may be outstanding, in each of its three places. */
  predicate Outstanding(s: Timed, txn: Txn) {
    && txn in s.begun && txn !in s.ended && s.begun[txn] <= s.now
    && (s.target.waiting == [] ==>
          txn in s.admitted && s.begun[txn] <= s.admitted[txn] <= s.now
          && (txn !in s.target.backpressured ==> s.admitted[txn] == s.begun[txn])
          && (|s.target.endReq| > 0 ==> s.admitted[txn] == s.now)
          && (s.target.accepting.Some? ==> s.acceptEnd == s.admitted[txn] + ACCEPT_LATENCY && s.now <= s.acceptEnd))
  }

  /** Every request begun is either answered or the outstanding one. */
  predicate HistoryInv(s: Timed) {
    && (forall txn :: txn in s.ended ==> Answered(s, txn))
    && (forall txn :: txn in s.target.backpressured ==> txn in s.begun)
    && (forall txn :: txn in s.begun ==> txn in s.ended || txn in s.target.Unanswered())
  }

  predicate OpenInv(s: Timed) {
    && SlotsInv(s.target)
    && |s.target.Unanswered()| <= 1
    && (|s.target.Unanswered()| == 1 ==> Outstanding(s, s.target.Unanswered()[0]))
  }

  /** Time has not passed the end of the service in progress. */
  predicate ServiceInv(s: Timed) { s.target.serving.Some? ==> s.now <= s.serviceEnd }

  predicate Inv(s: Timed) { OpenInv(s) && HistoryInv(s) && ServiceInv(s) }

  lemma BeginKeeps(s: Timed, txn: Txn)
    requires Inv(s) && Possible(s, Begin(txn))
    ensures Moved(s, Begin(txn), true).Some? && Inv(Moved(s, Begin(txn), true).value)
  {
    BeginKeepsOpen(s, txn);
    BeginKeepsHistory(s, txn);
    hide OpenInv, HistoryInv, Target.Unanswered;
  }

  lemma BeginKeepsHistory(s: Timed, txn: Txn)
    requires Inv(s) && Possible(s, Begin(txn))
    ensures HistoryInv(Moved(s, Begin(txn), true).value)
  {
    var next := Moved(s, Begin(txn), true).value;
    ReceiveKeepsSlots(s.target, txn);
    hide OpenInv, SlotsInv, Target.Unanswered;
    forall t | t in next.ended ensures Answered(next, t) {
      assert Answered(s, t);
    }
    assert next.target.Unanswered() == s.target.Unanswered() + [txn];
  }

  lemma BeginKeepsOpen(s: Timed, txn: Txn)
    requires Inv(s) && Possible(s, Begin(txn))
    ensures OpenInv(Moved(s, Begin(txn), true).value)
  {
    var next := Moved(s, Begin(txn), true).value;
    ReceiveKeepsSlots(s.target, txn);
    assert txn !in s.ended by {
      assert txn in s.ended ==> Answered(s, txn);
    }
    hide SlotsInv, Answered, HistoryInv;
    assert next.target.Unanswered() == [txn];
    assert s.target.waiting == [] && s.target.endReq == [] && s.target.accepting.None?;
    assert Outstanding(next, txn);
  }

  lemma StartAcceptKeeps(s: Timed)
    requires Inv(s) && Possible(s, StartAccept)
    ensures Moved(s, StartAccept, true).Some? && Inv(Moved(s, StartAccept, true).value)
  {
    var next := Moved(s, StartAccept, true).value;
    TakeAcceptedKeepsSlots(s.target);
    HistoryStays(s, next);
    hide SlotsInv, Answered, HistoryInv;
    var txn := s.target.Unanswered()[0];
    assert txn == s.target.endReq[0];
    assert s.target.endReq[1..] == [] && s.target.waiting == [];
    assert OpenInv(next);
  }

  /** A move that begins, admits and answers nothing keeps the history. */
  lemma HistoryStays(s: Timed, next: Timed)
    requires HistoryInv(s) && next.ended == s.ended && next.admitted == s.admitted && next.begun == s.begun
    requires next.target.backpressured == s.target.backpressured
    requires next.target.Unanswered() == s.target.Unanswered()
    ensures HistoryInv(next)
  {
    hide Target.Unanswered;
    forall t | t in next.ended ensures Answered(next, t) {
      assert Answered(s, t);
    }
  }

  lemma EndReqKeeps(s: Timed)
    requires Inv(s) && Possible(s, EndReq)
    ensures Moved(s, EndReq, true).Some? && Inv(Moved(s, EndReq, true).value)
  {
    var next := Moved(s, EndReq, true).value;
    var txn := s.target.Unanswered()[0];
    FinishAcceptKeepsSlots(s.target);
    assert s.target.waiting == [] && txn == s.target.accepting.value;
    hide SlotsInv;
    assert Answered(next, txn);
    forall t | t in next.ended ensures Answered(next, t) {
      if t != txn {
        assert Answered(s, t);
      }
    }
  }

  lemma StartServiceKeeps(s: Timed, latency: real)
    requires Inv(s) && Possible(s, StartService(latency))
    ensures Moved(s, StartService(latency), true).Some? && Inv(Moved(s, StartService(latency), true).value)
  {
    TakeServiceKeepsSlots(s.target);
    var next := Moved(s, StartService(latency), true).value;
    HistoryStays(s, next);
    hide SlotsInv, HistoryInv, Target.Unanswered;
    if |s.target.Unanswered()| == 1 {
      assert Outstanding(next, s.target.Unanswered()[0]);
    }
  }

  /** The clock side of a finished service. */
  lemma BeginRespIs(s: Timed, once: bool)
    requires OpenInv(s) && Possible(s, BeginResp)
    ensures Moved(s, BeginResp, once).Some?
    ensures var next := Moved(s, BeginResp, once).value;
            && SlotsInv(next.target)
            && next.now == s.now && next.acceptEnd == s.acceptEnd && next.begun == s.begun && next.ended == s.ended
            && next.target.accepting == s.target.accepting && next.target.waiting == [] && next.target.serving.None?
            && next.target.endReq == s.target.endReq + s.target.waiting
            && next.target.Unanswered() == s.target.Unanswered()
            && next.target.backpressured == s.target.backpressured
            && next.admitted
               == (if |s.target.waiting| > 0 then s.admitted[s.target.waiting[0] := s.now] else s.admitted)
  {
    FinishServiceKeepsSlots(s.target, once);
    FinishServiceAdmits(s.target, once);
    hide SlotsInv, FinishService, Outstanding, Target.Unanswered;
  }

  lemma BeginRespKeepsOpen(s: Timed, once: bool)
    requires OpenInv(s) && Possible(s, BeginResp)
    ensures Moved(s, BeginResp, once).Some? && OpenInv(Moved(s, BeginResp, once).value)
  {
    BeginRespIs(s, once);
    OnlyOnePlace(s.target);
    var next := Moved(s, BeginResp, once).value;
    hide SlotsInv, Moved, Possible, Target.Unanswered;
    if |s.target.Unanswered()| == 1 {
      assert Outstanding(s, s.target.Unanswered()[0]);
      assert Outstanding(next, s.target.Unanswered()[0]);
    }
  }

  /** The outstanding request is in one of its three places. */
  lemma OnlyOnePlace(target: Target)
    requires SlotsInv(target) && |target.Unanswered()| <= 1
    ensures |target.waiting| > 0 ==>
              target.Unanswered() == target.waiting && target.waiting == [target.waiting[0]]
              && target.endReq == [] && target.accepting.None?
  {
  }

  lemma BeginRespKeeps(s: Timed, once: bool)
    requires Inv(s) && Possible(s, BeginResp)
    ensures Moved(s, BeginResp, once).Some? && Inv(Moved(s, BeginResp, once).value)
  {
    BeginRespKeepsOpen(s, once);
    BeginRespIs(s, once);
    OnlyOnePlace(s.target);
    var next := Moved(s, BeginResp, once).value;
    OnlyAdmits(s, next);
    hide OpenInv, HistoryInv, Moved, Possible, Target.Unanswered;
  }

  /** Admitting the outstanding request keeps the history: it is not answered yet. */
  lemma OnlyAdmits(s: Timed, next: Timed)
    requires OpenInv(s) && HistoryInv(s) && next.ended == s.ended && next.begun == s.begun
    requires next.target.backpressured == s.target.backpressured
    requires next.target.Unanswered() == s.target.Unanswered()
    requires next.admitted == (if |s.target.waiting| > 0 then s.admitted[s.target.waiting[0] := s.now] else s.admitted)
    ensures HistoryInv(next)
  {
    OnlyOnePlace(s.target);
    hide SlotsInv, Target.Unanswered;
    if |s.target.waiting| > 0 {
      assert Outstanding(s, s.target.waiting[0]);
    }
    forall t | t in next.ended ensures Answered(next, t) {
      assert Answered(s, t);
    }
  }

  /** With at most one request outstanding, the queues a finished service leaves. */
  lemma FinishServiceAdmits(target: Target, once: bool)
    requires SlotsInv(target) && target.serving.Some? && |target.Unanswered()| <= 1
    ensures var next := FinishService(target, once);
            next.Some? && next.value.accepting == target.accepting && next.value.waiting == []
            && next.value.endReq == target.endReq + target.waiting && next.value.serving.None?
  {
    FinishServiceKeepsSlots(target, true);
    var freed := target.(serving := None, occupied := target.occupied - 1);
    assert FinishService(target, once) == Some(AcceptOneWaiting(freed));
    if |target.waiting| > 0 {
      assert target.waiting[1..] == [];
    }
  }

  lemma AdvanceKeeps(s: Timed, delay: real)
    requires Inv(s) && Possible(s, Advance(delay))
    ensures Inv(Moved(s, Advance(delay), true).value)
  {
    var next := Moved(s, Advance(delay), true).value;
    HistoryStays(s, next);
    hide SlotsInv, HistoryInv;
    if |s.target.Unanswered()| == 1 {
      assert Outstanding(next, s.target.Unanswered()[0]);
    }
  }

  lemma MoveKeeps(s: Timed, move: Move, once: bool)
    requires Inv(s) && Possible(s, move)
    ensures Moved(s, move, once).Some? && Inv(Moved(s, move, once).value)
  {
    hide Inv;
    match move
    case Begin(txn) => BeginKeeps(s, txn);
    case StartAccept => StartAcceptKeeps(s);
    case EndReq => EndReqKeeps(s);
    case StartService(latency) => StartServiceKeeps(s, latency);
    case BeginResp => BeginRespKeeps(s, once);
    case Advance(delay) => AdvanceKeeps(s, delay);
  }

  // ---- Blocked time ----

  /** initiator_blocked_ns as AT-3 records it with END_REQ. */
  function BlockedTime(s: Timed, txn: Txn): real
    requires txn in s.begun && txn in s.ended
  {
    Max(0.0, s.ended[txn] - s.begun[txn] - ACCEPT_LATENCY)
  }

  /** Moves in sequence, up to the first fatal report. */
  predicate IsRun(s: Timed, moves: seq<Move>, once: bool)
    decreases |moves|
  {
    |moves| == 0
    || (Possible(s, moves[0])
        && (Moved(s, moves[0], once).Some? ==> IsRun(Moved(s, moves[0], once).value, moves[1..], once)))
  }

  function EndOf(s: Timed, moves: seq<Move>, once: bool): Option<Timed>
    requires IsRun(s, moves, once)
    decreases |moves|
  {
    if |moves| == 0 then Some(s)
    else if Moved(s, moves[0], once).None? then None
    else EndOf(Moved(s, moves[0], once).value, moves[1..], once)
  }

  lemma StartInv(depth: nat)
    requires depth > 0
    ensures Inv(Start(depth))
  {
  }

  lemma {:induction false} RunKeeps(s: Timed, moves: seq<Move>, once: bool)
    requires Inv(s) && IsRun(s, moves, once)
    ensures EndOf(s, moves, once).Some? && Inv(EndOf(s, moves, once).value)
    decreases |moves|
  {
    if |moves| == 0 {
    } else {
      hide Inv, Moved, Possible;
      MoveKeeps(s, moves[0], once);
      RunKeeps(Moved(s, moves[0], once).value, moves[1..], once);
    }
  }

  lemma SomeMovePossible(s: Timed, latency: real) returns (move: Move)
    requires Inv(s) && latency >= 0.0
    requires s.target.Unanswered() != [] || s.target.InService() != []
    ensures !move.Begin? && Possible(s, move)
  {
    if CanTakeAccepted(s.target) {
      return StartAccept;
    }
    if CanTakeService(s.target) {
      return StartService(latency);
    }
    if s.target.accepting.Some? {
      assert Outstanding(s, s.target.Unanswered()[0]);
    } else {
      assert s.target.endReq == [];
      assert s.target.serving.Some?;
    }
    if s.target.accepting.Some? && s.now == s.acceptEnd {
      return EndReq;
    }
    if s.target.serving.Some? && s.now == s.serviceEnd {
      return BeginResp;
    }
    var deadline := if s.target.accepting.None? then s.serviceEnd
                    else if s.target.serving.None? then s.acceptEnd
                    else Min(s.acceptEnd, s.serviceEnd);
    return Advance(deadline - s.now);
  }

  /** Time never stops for good: after every run that leaves a request in the target,
      some move other than a new request is possible. */
  lemma NeverStuck(depth: nat, moves: seq<Move>, once: bool, latency: real) returns (move: Move)
    requires depth > 0 && IsRun(Start(depth), moves, once) && latency >= 0.0
    ensures EndOf(Start(depth), moves, once).Some?
    ensures var end := EndOf(Start(depth), moves, once).value;
            end.target.Unanswered() != [] || end.target.InService() != [] ==>
              !move.Begin? && Possible(end, move)
  {
    StartInv(depth);
    hide Inv, Possible, Start, IsRun, EndOf, Target.Unanswered, Target.InService;
    RunKeeps(Start(depth), moves, once);
    var end := EndOf(Start(depth), moves, once).value;
    move := StartAccept;
    if end.target.Unanswered() != [] || end.target.InService() != [] {
      move := SomeMovePossible(end, latency);
    }
  }
}
