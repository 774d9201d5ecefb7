/** When project AT-1 sends its requests. */
module DirectReport {
  import opened SimTime
  import opened TargetModel
  import opened TimedTarget
  import opened DirectLink
  import opened DirectProgress

  /** A request has been sent and answered. */
  predicate Behind(begun: map<Txn, real>, ended: map<Txn, real>, k: nat) {
    Txn(0, k) in begun && Txn(0, k) in ended
  }

  /** When the k-th request is due: at once, or when the one before it has been answered
      and the gap since its BEGIN_REQ is over. */
  function DueAt(begun: map<Txn, real>, ended: map<Txn, real>, gap: real, k: nat): real
    requires k > 0 ==> Behind(begun, ended, k - 1)
  {
    if k == 0 then 0.0 else Max(ended[Txn(0, k - 1)], begun[Txn(0, k - 1)] + gap)
  }

  predicate SentOnTime(begun: map<Txn, real>, ended: map<Txn, real>, gap: real, k: nat) {
    Txn(0, k) in begun ==>
      (k > 0 ==> Behind(begun, ended, k - 1)) && begun[Txn(0, k)] == DueAt(begun, ended, gap, k)
  }

  /** Each request was sent when it was due. */
  predicate SentRight(begun: map<Txn, real>, ended: map<Txn, real>, gap: real, next: nat) {
    forall k: nat :: k <= next ==> SentOnTime(begun, ended, gap, k)
  }

  /** Between requests time has not passed the next one's due time. */
  predicate OnTime(s: Direct) {
    && (s.inLoop && s.endReqSeen ==> Txn(0, s.next) in s.link.ended && s.link.now == s.link.ended[Txn(0, s.next)])
    && (Waiting(s) && s.next == 0 ==> s.link.now == 0.0 == s.nextIssue)
    && (Waiting(s) && s.next > 0 ==>
          var last := Txn(0, s.next - 1);
          && Behind(s.link.begun, s.link.ended, s.next - 1)
          && s.nextIssue == s.link.begun[last] + s.gap
          && s.link.ended[last] <= s.link.now <= Max(s.link.ended[last], s.nextIssue))
  }

  predicate TimesRight(s: Direct) {
    SentRight(s.link.begun, s.link.ended, s.gap, s.next) && OnTime(s)
  }

  lemma SendKeepsRight(begun: map<Txn, real>, ended: map<Txn, real>, gap: real, next: nat, now: real)
    requires SentRight(begun, ended, gap, next) && Txn(0, next) !in begun
    requires next > 0 ==> Behind(begun, ended, next - 1)
    requires now == DueAt(begun, ended, gap, next)
    ensures SentRight(begun[Txn(0, next) := now], ended, gap, next)
  {
    var after := begun[Txn(0, next) := now];
    forall k: nat | k <= next ensures SentOnTime(after, ended, gap, k) {
      assert SentOnTime(begun, ended, gap, k);
    }
  }

  lemma AnswerKeepsRight(begun: map<Txn, real>, ended: map<Txn, real>, gap: real, next: nat, now: real)
    requires SentRight(begun, ended, gap, next)
    ensures SentRight(begun, ended[Txn(0, next) := now], gap, next)
  {
    var after := ended[Txn(0, next) := now];
    forall k: nat | k <= next ensures SentOnTime(begun, after, gap, k) {
      assert SentOnTime(begun, ended, gap, k);
    }
  }

  lemma NextKeepsRight(begun: map<Txn, real>, ended: map<Txn, real>, gap: real, next: nat)
    requires SentRight(begun, ended, gap, next) && Txn(0, next + 1) !in begun
    ensures SentRight(begun, ended, gap, next + 1)
  {
  }

  lemma IssueIs(s: Direct)
    requires Allowed(s, Issue) && Acted(s, Issue).Some?
    ensures var next := Acted(s, Issue).value;
            && next.link.begun == s.link.begun[Txn(0, s.next) := s.link.now] && next.link.ended == s.link.ended
            && next.inLoop && !next.endReqSeen && next.next == s.next && next.gap == s.gap
    ensures Waiting(s) && s.link.now >= s.nextIssue
  {
    hide Receive, Target.Unanswered, Possible;
  }

  lemma IssueKeepsTimes(s: Direct)
    requires InStep(s) && TimesRight(s) && Allowed(s, Issue) && Acted(s, Issue).Some?
    ensures TimesRight(Acted(s, Issue).value)
  {
    NotSentYet(s);
    IssueIs(s);
    hide InStep, Acted, Allowed;
    SendKeepsRight(s.link.begun, s.link.ended, s.gap, s.next, s.link.now);
    hide SentRight;
  }

  /** No request beyond the current one has been sent. */
  lemma NotSentYet(s: Direct)
    requires InStep(s)
    ensures Txn(0, s.next + 1) !in s.link.begun && (!s.inLoop ==> Txn(0, s.next) !in s.link.begun)
    ensures s.inLoop ==> Txn(0, s.next) in s.link.begun && s.awaiting
  {
    hide TimedTarget.Inv;
    assert Txn(0, s.next + 1).index > s.next;
  }

  lemma ResumeIs(s: Direct)
    requires Allowed(s, Resume) && Acted(s, Resume).Some?
    ensures s.inLoop && s.endReqSeen && Txn(0, s.next) in s.link.begun
    ensures var next := Acted(s, Resume).value;
            && next.link == s.link && !next.inLoop && next.next == s.next + 1 && next.gap == s.gap
            && next.nextIssue == s.link.begun[Txn(0, s.next)] + s.gap
  {
  }

  lemma ResumeKeepsTimes(s: Direct)
    requires InStep(s) && TimesRight(s) && Allowed(s, Resume) && Acted(s, Resume).Some?
    ensures TimesRight(Acted(s, Resume).value)
  {
    NotSentYet(s);
    ResumeIs(s);
    hide InStep, Acted, Allowed;
    NextKeepsRight(s.link.begun, s.link.ended, s.gap, s.next);
    hide SentRight;
  }

  /** The thread that waits for END_REQ is woken at the instant it is sent. */
  lemma EndReqKeepsTimes(s: Direct)
    requires InStep(s) && TimesRight(s) && Allowed(s, Device(EndReq)) && Acted(s, Device(EndReq)).Some?
    ensures TimesRight(Acted(s, Device(EndReq)).value)
  {
    EndReqIs(s);
    AnswersTheOutstanding(s);
    hide InStep, Acted, Allowed;
    AnswerKeepsRight(s.link.begun, s.link.ended, s.gap, s.next, s.link.now);
    hide SentRight;
  }

  lemma EndReqIs(s: Direct)
    requires Allowed(s, Device(EndReq)) && Acted(s, Device(EndReq)).Some?
    ensures s.link.target.accepting.Some?
    ensures var next := Acted(s, Device(EndReq)).value;
            && next.link.begun == s.link.begun && next.link.now == s.link.now
            && next.link.ended == s.link.ended[s.link.target.accepting.value := s.link.now]
            && next.inLoop == s.inLoop && next.next == s.next && next.gap == s.gap && next.total == s.total
  {
    hide FinishAccept;
  }

  lemma AnswersTheOutstanding(s: Direct)
    requires InStep(s) && s.link.target.accepting.Some?
    ensures s.inLoop && !s.endReqSeen && s.link.target.accepting.value == Txn(0, s.next)
  {
    assert s.link.target.Unanswered()[0] == s.link.target.accepting.value;
    hide TimedTarget.Inv;
  }

  lemma QuietKeepsTimes(s: Direct, move: Move)
    requires TimesRight(s) && Scheduled(s, Device(move)) && Acted(s, Device(move)).Some? && !move.EndReq?
    ensures TimesRight(Acted(s, Device(move)).value)
  {
    hide FinishService, SentRight;
  }

  lemma ActKeepsTimes(s: Direct, act: Act)
    requires InStep(s) && TimesRight(s) && Scheduled(s, act) && Acted(s, act).Some?
    ensures TimesRight(Acted(s, act).value)
  {
    ScheduledIsAllowed(s, act);
    hide InStep, TimesRight, Scheduled, Acted, Allowed;
    match act
    case Issue => IssueKeepsTimes(s);
    case Resume => ResumeKeepsTimes(s);
    case Device(move) =>
      if move.EndReq? {
        EndReqKeepsTimes(s);
      } else {
        QuietKeepsTimes(s, move);
      }
  }

  lemma {:induction false} RunKeepsTimes(s: Direct, acts: seq<Act>)
    requires InStep(s) && TimesRight(s) && IsScheduledRun(s, acts)
    ensures IsActRun(s, acts) && ActEnd(s, acts).Some?
    ensures var end := ActEnd(s, acts).value; InStep(end) && TimesRight(end) && end.gap == s.gap
    decreases |acts|
  {
    if |acts| == 0 {
    } else {
      ScheduledIsAllowed(s, acts[0]);
      hide InStep, Acted, TimesRight, Scheduled, Allowed;
      ActKeeps(s, acts[0]);
      ActKeepsTimes(s, acts[0]);
      GapStays(s, acts[0]);
      RunKeepsTimes(Acted(s, acts[0]).value, acts[1..]);
    }
  }

  lemma GapStays(s: Direct, act: Act)
    requires Allowed(s, act) && Acted(s, act).Some?
    ensures Acted(s, act).value.gap == s.gap
  {
    hide Moved, Possible;
  }

  lemma ScheduledIsAllowed(s: Direct, act: Act)
    requires Scheduled(s, act)
    ensures Allowed(s, act)
  {
  }

  /** In every run of the direct link the first request is sent at once, and each later
      one at the later of the END_REQ of the one before it and the gap after its
      BEGIN_REQ. */
  lemma SendsAreExact(total: nat, gap: real, depth: nat, acts: seq<Act>, k: nat)
    requires depth > 0 && IsScheduledRun(Begun(total, gap, depth), acts)
    ensures IsActRun(Begun(total, gap, depth), acts) && ActEnd(Begun(total, gap, depth), acts).Some?
    ensures var link := ActEnd(Begun(total, gap, depth), acts).value.link;
            Txn(0, k) in link.begun ==>
              if k == 0 then link.begun[Txn(0, k)] == 0.0
              else
                && Behind(link.begun, link.ended, k - 1)
                && link.begun[Txn(0, k)] == Max(link.ended[Txn(0, k - 1)], link.begun[Txn(0, k - 1)] + gap)
  {
    var start := Begun(total, gap, depth);
    StartsRight(total, gap, depth);
    hide Begun, InStep, TimesRight, IsActRun, ActEnd, IsScheduledRun;
    RunKeepsTimes(start, acts);
    var end := ActEnd(start, acts).value;
    if Txn(0, k) in end.link.begun {
      SentAt(end, k);
    }
  }

  lemma StartsRight(total: nat, gap: real, depth: nat)
    requires depth > 0
    ensures InStep(Begun(total, gap, depth)) && TimesRight(Begun(total, gap, depth))
    ensures Begun(total, gap, depth).gap == gap
  {
  }

  lemma SentAt(s: Direct, k: nat)
    requires InStep(s) && TimesRight(s) && Txn(0, k) in s.link.begun
    ensures if k == 0 then s.link.begun[Txn(0, k)] == 0.0
            else
              && Behind(s.link.begun, s.link.ended, k - 1)
              && s.link.begun[Txn(0, k)] == DueAt(s.link.begun, s.link.ended, s.gap, k)
  {
    hide TimedTarget.Inv, OnTime;
    assert k <= s.next ==> SentOnTime(s.link.begun, s.link.ended, s.gap, k);
    assert k <= s.next by {
      assert Txn(0, k).index == k;
    }
  }
}
