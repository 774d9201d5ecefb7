/** What every timed run of the memory target reports: who is marked as back-pressured, and
    when services begin and end. */
module TimedReport {
  import opened SimTime
  import opened TargetModel
  import opened TimedTarget

  // ---- The mark ----

  /** A request is marked exactly when it found as many admitted requests without a
      response as there are slots. */
  predicate MarksRight(s: Timed) {
    forall txn :: txn in s.begun ==>
      txn in s.found && s.found[txn] <= s.target.depth
      && (txn in s.target.backpressured <==> s.found[txn] == s.target.depth)
  }

  /** Only BEGIN_REQ writes what a request found, and marks. */
  lemma MarkFieldsStay(s: Timed, move: Move, once: bool)
    requires SlotsInv(s.target) && Possible(s, move) && !move.Begin? && Moved(s, move, once).Some?
    ensures var next := Moved(s, move, once).value;
            && next.begun == s.begun && next.found == s.found
            && next.target.backpressured == s.target.backpressured && next.target.depth == s.target.depth
  {
    if move.BeginResp? {
      FinishServiceKeepsSlots(s.target, once);
    }
    hide SlotsInv, FinishService;
  }

  lemma BeginMarks(s: Timed, txn: Txn, once: bool)
    requires SlotsInv(s.target) && Possible(s, Begin(txn))
    ensures Moved(s, Begin(txn), once).Some?
    ensures var next := Moved(s, Begin(txn), once).value;
            && txn !in s.begun && next.begun == s.begun[txn := s.now]
            && next.found == s.found[txn := Admitted(s.target)] && Admitted(s.target) <= s.target.depth
            && next.target.depth == s.target.depth
            && next.target.backpressured
               == s.target.backpressured + if Admitted(s.target) == s.target.depth then {txn} else {}
  {
    ReceiveKeepsSlots(s.target, txn);
    hide Receive, Target.Unanswered;
  }

  lemma MoveKeepsMarks(s: Timed, move: Move, once: bool)
    requires SlotsInv(s.target) && MarksRight(s) && Possible(s, move) && Moved(s, move, once).Some?
    requires forall txn :: txn in s.target.backpressured ==> txn in s.begun
    ensures MarksRight(Moved(s, move, once).value)
    ensures Moved(s, move, once).value.target.depth == s.target.depth
  {
    hide Moved, Possible, SlotsInv, Admitted;
    if move.Begin? {
      BeginMarks(s, move.txn, once);
    } else {
      MarkFieldsStay(s, move, once);
    }
  }

  // ---- The server ----

  /** The server's log: when its requests were answered, when services began, how long they
      were to take, when responses began, and whether a service is in progress. */
  datatype Server = Server(
    at: seq<real>,
    began: seq<real>,
    latencies: seq<real>,
    responded: seq<real>,
    busy: bool,
    busyUntil: real
  )

  function ServerOf(s: Timed): Server {
    Server(s.answeredAt, s.began, s.latencies, s.responded, s.target.serving.Some?, s.serviceEnd)
  }

  /** When the k-th service can begin: its request is answered and the response before has
      begun. */
  function FreeAt(v: Server, k: nat): real
    requires k < |v.at| && k <= |v.responded|
  {
    Max(v.at[k], if k == 0 then 0.0 else v.responded[k - 1])
  }

  predicate Counts(v: Server) {
    |v.began| == |v.latencies| == |v.responded| + (if v.busy then 1 else 0) && |v.began| <= |v.at|
  }

  /** Services began as soon as they could and took their latencies. */
  predicate Past(v: Server)
    requires Counts(v)
  {
    && (forall k :: 0 <= k < |v.began| ==> v.began[k] == FreeAt(v, k))
    && (forall k :: 0 <= k < |v.responded| ==> v.responded[k] == v.began[k] + v.latencies[k])
    && (v.busy ==> v.busyUntil == v.began[|v.responded|] + v.latencies[|v.responded|])
  }

  /** An idle server with a request waiting is about to begin: it could not have earlier. */
  predicate Present(v: Server, now: real)
    requires Counts(v)
  {
    && 0.0 <= now
    && (forall k :: 0 <= k < |v.at| ==> v.at[k] <= now)
    && (forall k :: 0 <= k < |v.responded| ==> v.responded[k] <= now)
    && (!v.busy && |v.began| < |v.at| ==> now == FreeAt(v, |v.began|))
  }

  predicate ServerRight(v: Server, now: real) {
    Counts(v) && Past(v) && Present(v, now)
  }

  lemma AnswerJoins(v: Server, now: real)
    requires ServerRight(v, now)
    ensures ServerRight(v.(at := v.at + [now]), now)
  {
    var w := v.(at := v.at + [now]);
    assert forall k :: 0 <= k < |v.began| ==> FreeAt(w, k) == FreeAt(v, k);
  }

  lemma ServiceBegins(v: Server, now: real, latency: real)
    requires ServerRight(v, now) && !v.busy && |v.began| < |v.at|
    ensures ServerRight(v.(began := v.began + [now], latencies := v.latencies + [latency], busy := true,
                           busyUntil := now + latency), now)
  {
    var w := v.(began := v.began + [now], latencies := v.latencies + [latency], busy := true,
                busyUntil := now + latency);
    assert forall k :: 0 <= k <= |v.began| ==> FreeAt(w, k) == FreeAt(v, k);
  }

  lemma ResponseBegins(v: Server, now: real)
    requires ServerRight(v, now) && v.busy && now == v.busyUntil
    ensures ServerRight(v.(responded := v.responded + [now], busy := false), now)
  {
    var w := v.(responded := v.responded + [now], busy := false);
    assert forall k :: 0 <= k < |v.began| ==> FreeAt(w, k) == FreeAt(v, k);
    hide FreeAt;
  }

  lemma TimePasses(v: Server, now: real, later: real)
    requires ServerRight(v, now) && now <= later && (v.busy || |v.began| == |v.at|)
    ensures ServerRight(v, later)
  {
  }

  /** The log lists what the target holds between END_REQ and BEGIN_RESP. */
  predicate LogRight(s: Timed) {
    && |s.answered| == |s.answeredAt| && |s.responded| <= |s.answered|
    && s.target.InService() == s.answered[|s.responded|..]
    && (forall k :: 0 <= k < |s.answered| ==>
          s.answered[k] in s.ended && s.ended[s.answered[k]] == s.answeredAt[k])
  }

  /** The target can begin a service exactly when its log is behind. */
  lemma ReadyIsBehind(s: Timed)
    requires LogRight(s) && Counts(ServerOf(s))
    ensures CanTakeService(s.target) <==> s.target.serving.None? && |s.began| < |s.answeredAt|
  {
    assert |s.target.InService()| == |s.answered| - |s.responded|;
  }

  lemma ReceiveKeepsServing(target: Target, txn: Txn)
    ensures Receive(target, txn).serving == target.serving && Receive(target, txn).service == target.service
  {
  }

  ghost predicate ServerInv(s: Timed) {
    LogRight(s) && ServerRight(ServerOf(s), s.now)
  }

  /** A move that answers and serves nothing. */
  lemma QuietKeepsServer(s: Timed, move: Move, once: bool)
    requires ServerInv(s) && Possible(s, move) && (move.Begin? || move.StartAccept?)
    ensures Moved(s, move, once).Some? && ServerInv(Moved(s, move, once).value)
  {
    var next := Moved(s, move, once).value;
    if move.Begin? {
      ReceiveKeepsServing(s.target, move.txn);
    }
    hide Receive, ServerRight;
    assert ServerOf(next) == ServerOf(s) && next.target.InService() == s.target.InService();
    hide Moved, Possible, ServerOf, Target.InService;
  }

  lemma AdvanceKeepsServer(s: Timed, delay: real)
    requires ServerInv(s) && Possible(s, Advance(delay))
    ensures ServerInv(Moved(s, Advance(delay), true).value)
  {
    AdvancePasses(s, delay);
    hide ServerRight, Target.InService;
  }

  lemma AdvancePasses(s: Timed, delay: real)
    requires ServerInv(s) && Possible(s, Advance(delay))
    ensures ServerRight(ServerOf(s), s.now + delay)
  {
    ReadyIsBehind(s);
    TimePasses(ServerOf(s), s.now, s.now + delay);
  }

  lemma AcceptingIsUnanswered(s: Timed)
    requires Inv(s) && s.target.accepting.Some?
    ensures s.target.accepting.value !in s.ended
  {
    assert s.target.Unanswered()[0] == s.target.accepting.value;
    assert |s.target.Unanswered()| == 1;
    hide SlotsInv, HistoryInv, Target.Unanswered;
    assert Outstanding(s, s.target.accepting.value);
  }

  lemma EndReqKeepsServer(s: Timed)
    requires Inv(s) && ServerInv(s) && Possible(s, EndReq)
    ensures ServerInv(Moved(s, EndReq, true).value)
  {
    AcceptingIsUnanswered(s);
    hide Inv;
    AnswerJoins(ServerOf(s), s.now);
    hide ServerRight;
    EndReqKeepsLog(s);
    hide LogRight;
  }

  lemma EndReqKeepsLog(s: Timed)
    requires LogRight(s) && Possible(s, EndReq) && s.target.accepting.value !in s.ended
    ensures LogRight(Moved(s, EndReq, true).value)
  {
    var txn, next := s.target.accepting.value, Moved(s, EndReq, true).value;
    assert next.target.InService() == s.target.InService() + [txn];
    hide Target.InService;
    forall k | 0 <= k < |next.answered|
      ensures next.answered[k] in next.ended && next.ended[next.answered[k]] == next.answeredAt[k]
    {
      if k < |s.answered| {
        assert next.answered[k] == s.answered[k];
      }
    }
  }

  lemma StartServiceKeepsServer(s: Timed, latency: real)
    requires ServerInv(s) && Possible(s, StartService(latency))
    ensures ServerInv(Moved(s, StartService(latency), true).value)
  {
    var next := Moved(s, StartService(latency), true).value;
    ReadyIsBehind(s);
    ServiceBegins(ServerOf(s), s.now, latency);
    StartServiceKeepsLog(s, latency);
    hide ServerRight, LogRight, Target.InService;
    assert ServerOf(next) == ServerOf(s).(began := s.began + [s.now], latencies := s.latencies + [latency],
                                          busy := true, busyUntil := s.now + latency);
  }

  lemma StartServiceKeepsLog(s: Timed, latency: real)
    requires LogRight(s) && Possible(s, StartService(latency))
    ensures LogRight(Moved(s, StartService(latency), true).value)
  {
    assert Moved(s, StartService(latency), true).value.target.InService() == s.target.InService();
    hide Target.InService;
  }

  lemma BeginRespKeepsServer(s: Timed, once: bool)
    requires OpenInv(s) && ServerInv(s) && Possible(s, BeginResp) && Moved(s, BeginResp, once).Some?
    ensures ServerInv(Moved(s, BeginResp, once).value)
  {
    var next := Moved(s, BeginResp, once).value;
    BeginRespIs(s, once);
    BeginRespLog(s, once);
    ResponseBegins(ServerOf(s), s.now);
    hide OpenInv, Moved, Possible, ServerRight;
    assert ServerOf(next) == ServerOf(s).(responded := s.responded + [s.now], busy := false);
    LogMovesOn(s, next);
    hide LogRight;
  }

  lemma BeginRespLog(s: Timed, once: bool)
    requires OpenInv(s) && Possible(s, BeginResp) && Moved(s, BeginResp, once).Some?
    ensures var next := Moved(s, BeginResp, once).value;
            && next.answered == s.answered && next.answeredAt == s.answeredAt && next.began == s.began
            && next.latencies == s.latencies && next.responded == s.responded + [s.now]
            && next.serviceEnd == s.serviceEnd && next.ended == s.ended && s.now == s.serviceEnd
            && s.target.InService() == [s.target.serving.value] + next.target.InService()
  {
    FinishServiceKeepsSlots(s.target, once);
    hide FinishService, SlotsInv, Outstanding, Target.InService, Target.Unanswered;
  }

  lemma LogMovesOn(s: Timed, next: Timed)
    requires LogRight(s) && s.target.serving.Some?
    requires s.target.InService() == [s.target.serving.value] + next.target.InService()
    requires next.answered == s.answered && next.answeredAt == s.answeredAt && next.ended == s.ended
    requires |next.responded| == |s.responded| + 1
    ensures LogRight(next)
  {
    hide Target.InService;
    var r := |s.responded|;
    assert |s.target.InService()| == |s.answered| - r;
    assert next.target.InService() == s.target.InService()[1..] == s.answered[r..][1..] == s.answered[r + 1..];
  }

  lemma MoveKeepsServer(s: Timed, move: Move, once: bool)
    requires Inv(s) && ServerInv(s) && Possible(s, move) && Moved(s, move, once).Some?
    ensures ServerInv(Moved(s, move, once).value)
  {
    OpenFrom(s);
    hide Inv, ServerInv, OpenInv, Moved, Possible;
    if move.EndReq? {
      EndReqKeepsServer(s);
      OnceOnlyMatters(s, move, once);
    } else if move.BeginResp? {
      BeginRespKeepsServer(s, once);
    } else if move.StartService? {
      StartServiceKeepsServer(s, move.latency);
      OnceOnlyMatters(s, move, once);
    } else if move.Advance? {
      AdvanceKeepsServer(s, move.delay);
      OnceOnlyMatters(s, move, once);
    } else {
      QuietKeepsServer(s, move, once);
    }
  }

  lemma OpenFrom(s: Timed)
    requires Inv(s)
    ensures OpenInv(s)
  {
  }

  lemma OnceOnlyMatters(s: Timed, move: Move, once: bool)
    requires Possible(s, move) && !move.BeginResp?
    ensures Moved(s, move, once) == Moved(s, move, true)
  {
    hide Possible;
  }

  // ---- Whole runs ----

  ghost predicate ReportInv(s: Timed, depth: nat) {
    Inv(s) && MarksRight(s) && ServerInv(s) && s.target.depth == depth
  }

  lemma BegunIfMarked(s: Timed)
    requires Inv(s)
    ensures SlotsInv(s.target) && forall txn :: txn in s.target.backpressured ==> txn in s.begun
  {
  }

  lemma StartReports(depth: nat)
    requires depth > 0
    ensures ReportInv(Start(depth), depth)
  {
    StartInv(depth);
  }

  lemma {:induction false} RunReports(s: Timed, moves: seq<Move>, once: bool, depth: nat)
    requires ReportInv(s, depth) && IsRun(s, moves, once)
    ensures EndOf(s, moves, once).Some? && ReportInv(EndOf(s, moves, once).value, depth)
    decreases |moves|
  {
    if |moves| == 0 {
    } else {
      BegunIfMarked(s);
      hide Inv, MarksRight, ServerInv, Moved, Possible, SlotsInv;
      MoveKeeps(s, moves[0], once);
      MoveKeepsMarks(s, moves[0], once);
      MoveKeepsServer(s, moves[0], once);
      RunReports(Moved(s, moves[0], once).value, moves[1..], once, depth);
    }
  }

  /** In every timed run a request is marked as back-pressured if and only if it found all
      slots taken at its BEGIN_REQ; one that found a free slot is admitted at once and
      answered 1 ns later. */
  lemma MarkedIffFull(depth: nat, moves: seq<Move>, once: bool, txn: Txn)
    requires depth > 0 && IsRun(Start(depth), moves, once)
    ensures EndOf(Start(depth), moves, once).Some?
    ensures var end := EndOf(Start(depth), moves, once).value;
            txn in end.begun ==>
              && txn in end.found && end.found[txn] <= depth
              && (txn in end.target.backpressured <==> end.found[txn] == depth)
              && (end.found[txn] < depth ==> txn in end.admitted && end.admitted[txn] == end.begun[txn])
              && (end.found[txn] < depth && txn in end.ended ==>
                    end.ended[txn] == end.begun[txn] + 1.0)
  {
    StartReports(depth);
    hide Start, ReportInv, IsRun, EndOf;
    RunReports(Start(depth), moves, once, depth);
    var end := EndOf(Start(depth), moves, once).value;
    if txn in end.begun {
      ReportedMark(end, depth, txn);
    }
  }

  /** In every timed run the blocked time of an answered request is exactly the time it
      waited for a slot: the clamp at zero changes nothing, it is positive only for a
      request that found all slots taken, and those are exactly the marked ones. */
  lemma BlockedMeansBackpressured(depth: nat, moves: seq<Move>, once: bool, txn: Txn)
    requires depth > 0 && IsRun(Start(depth), moves, once)
    ensures EndOf(Start(depth), moves, once).Some?
    ensures var end := EndOf(Start(depth), moves, once).value;
            txn in end.ended ==>
              && txn in end.begun && txn in end.admitted && txn in end.found
              && BlockedTime(end, txn) == end.admitted[txn] - end.begun[txn]
              && BlockedTime(end, txn) == end.ended[txn] - end.begun[txn] - 1.0
              && (BlockedTime(end, txn) > 0.0 ==> end.found[txn] == depth)
              && (txn in end.target.backpressured <==> end.found[txn] == depth)
  {
    StartReports(depth);
    hide Start, ReportInv, IsRun, EndOf, BlockedTime;
    RunReports(Start(depth), moves, once, depth);
    var end := EndOf(Start(depth), moves, once).value;
    if txn in end.ended {
      AnsweredMark(end, depth, txn);
    }
  }

  lemma AnsweredMark(s: Timed, depth: nat, txn: Txn)
    requires ReportInv(s, depth) && txn in s.ended
    ensures txn in s.begun && txn in s.admitted && txn in s.found
    ensures BlockedTime(s, txn) == s.admitted[txn] - s.begun[txn] == s.ended[txn] - s.begun[txn] - ACCEPT_LATENCY
    ensures BlockedTime(s, txn) > 0.0 ==> s.found[txn] == depth
    ensures txn in s.target.backpressured <==> s.found[txn] == depth
  {
    hide ServerInv;
    assert Answered(s, txn);
    hide Inv;
  }

  lemma ReportedMark(s: Timed, depth: nat, txn: Txn)
    requires ReportInv(s, depth) && txn in s.begun
    ensures txn in s.found && s.found[txn] <= depth && (txn in s.target.backpressured <==> s.found[txn] == depth)
    ensures s.found[txn] < depth ==> txn in s.admitted && s.admitted[txn] == s.begun[txn]
    ensures s.found[txn] < depth && txn in s.ended ==> s.ended[txn] == s.begun[txn] + ACCEPT_LATENCY
  {
    hide ServerInv;
    assert txn in s.ended ==> Answered(s, txn);
    if txn !in s.target.backpressured {
      UnmarkedIsAdmitted(s, txn);
    }
    hide Inv;
  }

  lemma UnmarkedIsNotWaiting(target: Target, txn: Txn)
    requires SlotsInv(target) && target.Unanswered() == [txn] && txn !in target.backpressured
    ensures target.waiting == []
  {
    OnlyOnePlace(target);
    hide Target.Unanswered;
  }

  lemma UnmarkedIsAdmitted(s: Timed, txn: Txn)
    requires Inv(s) && txn in s.begun && txn !in s.target.backpressured
    ensures txn in s.admitted && s.admitted[txn] == s.begun[txn]
  {
    if txn in s.ended {
      hide OpenInv;
      assert Answered(s, txn);
    } else {
      assert s.target.Unanswered() == [txn];
      UnmarkedIsNotWaiting(s.target, txn);
      hide SlotsInv, HistoryInv, Target.Unanswered;
      assert Outstanding(s, txn);
    }
  }

  /** The memory is a single server in END_REQ order: each service begins as soon as its
      request is answered and the response before has begun, and its response begins
      exactly the service latency later. */
  lemma MemoryIsFifoServer(depth: nat, moves: seq<Move>, once: bool, k: nat)
    requires depth > 0 && IsRun(Start(depth), moves, once)
    ensures EndOf(Start(depth), moves, once).Some?
    ensures var end := EndOf(Start(depth), moves, once).value;
            k < |end.responded| ==>
              && k < |end.answered| && k < |end.latencies| && end.answered[k] in end.ended
              && end.responded[k]
                 == Max(end.ended[end.answered[k]], if k == 0 then 0.0 else end.responded[k - 1]) + end.latencies[k]
  {
    StartReports(depth);
    hide Start, ReportInv, IsRun, EndOf;
    RunReports(Start(depth), moves, once, depth);
    var end := EndOf(Start(depth), moves, once).value;
    if k < |end.responded| {
      ServedAt(end, depth, k);
    }
  }

  lemma ServedAt(s: Timed, depth: nat, k: nat)
    requires ReportInv(s, depth) && k < |s.responded|
    ensures k < |s.answered| && k < |s.latencies| && s.answered[k] in s.ended
    ensures s.responded[k] == Max(s.ended[s.answered[k]], if k == 0 then 0.0 else s.responded[k - 1]) + s.latencies[k]
  {
    hide Inv, MarksRight;
    assert s.began[k] == FreeAt(ServerOf(s), k);
  }
}
