/** What the records and the lanes of a finished AT-7 run say, in terms of the case's
    parameters and of the times of the other requests. */
module GpuReport {
  import opened SimTime
  import opened GpuModel
  import opened GpuInvariant
  import opened GpuTheorems

  // ---- The lanes' clocks ----

  /** Requests to a burst, at least one. */
  function Burst(spec: CaseSpec): (b: nat)
    ensures b >= 1 && (spec.burstLength >= 1 ==> b == spec.burstLength)
  {
    if spec.burstLength == 0 then 1 else spec.burstLength
  }

  /** When the lane's k-th request becomes ready: the stagger of its lane for the first,
      a compute gap after each whole burst, else an intra-burst gap. */
  function ReadyTime(spec: CaseSpec, lane: nat, issues: seq<real>, k: nat): real
    requires k < |issues|
  {
    if k == 0 then lane as real * 0.55
    else issues[k - 1] + (if k % Burst(spec) == 0 then spec.computeGap else spec.intraBurstGap)
  }

  /** How many of the first n requests were issued later than ready. */
  function LateRequests(spec: CaseSpec, lane: nat, issues: seq<real>, n: nat): nat
    requires n <= |issues|
  {
    if n == 0 then 0
    else LateRequests(spec, lane, issues, n - 1)
         + (if issues[n - 1] > ReadyTime(spec, lane, issues, n - 1) then 1 else 0)
  }

  lemma ReadyTimeIs(spec: CaseSpec, lane: nat, issues: seq<real>, k: nat)
    requires k < |issues|
    ensures ReadyTime(spec, lane, issues, k) == ReadyAt(spec, lane, issues[..k], k)
  {
  }

  lemma {:induction false} LateRequestsAre(spec: CaseSpec, lane: nat, issues: seq<real>, n: nat)
    requires n <= |issues|
    ensures LateRequests(spec, lane, issues, n) == LateCount(spec, lane, issues[..n])
  {
    if n == 0 {
    } else {
      LateRequestsAre(spec, lane, issues, n - 1);
      ReadyTimeIs(spec, lane, issues, n - 1);
      assert issues[..n][..n - 1] == issues[..n - 1];
    }
  }

  /** A product with a count, kept apart from the arithmetic around it. */
  function Times(n: int, x: real): real { n as real * x }

  lemma TimesNext(n: int, x: real)
    ensures Times(0, x) == 0.0 && Times(n + 1, x) == Times(n, x) + x
  {
  }

  lemma DivNext(n: nat, b: nat)
    requires b >= 1 && n >= 1
    ensures n / b == (n - 1) / b + if n % b == 0 then 1 else 0
  {
    var q, r := (n - 1) / b, (n - 1) % b;
    assert n - 1 == b * q + r;
    if r + 1 == b {
      assert n == b * (q + 1);
      DivUnique(n, b, q + 1, 0);
    } else {
      DivUnique(n, b, q, r + 1);
    }
  }

  lemma DivUnique(n: nat, b: nat, q: nat, r: nat)
    requires r < b && n == b * q + r
    ensures n / b == q && n % b == r
  {
    var p, s := n / b, n % b;
    assert n == b * p + s;
    if p < q {
      assert b * (p + 1) <= b * q by { MultiplesGrow(b, p + 1, q); }
    } else if q < p {
      assert b * (q + 1) <= b * p by { MultiplesGrow(b, q + 1, p); }
    }
  }

  lemma MultiplesGrow(b: nat, x: nat, y: nat)
    requires x <= y
    ensures b * x <= b * y
  {
  }

  /** One compute gap a burst, an intra-burst gap for every other request. */
  lemma {:induction false} GapsAddUp(spec: CaseSpec, n: nat)
    ensures GapSum(spec, n) == Times(n / Burst(spec), spec.computeGap) + Times(n - n / Burst(spec), spec.intraBurstGap)
  {
    var b := Burst(spec);
    if n == 0 {
      TimesNext(0, spec.computeGap);
      TimesNext(0, spec.intraBurstGap);
      assert 0 / b == 0;
    } else {
      GapsAddUp(spec, n - 1);
      DivNext(n, b);
      TimesNext((n - 1) / b, spec.computeGap);
      TimesNext(n - 1 - (n - 1) / b, spec.intraBurstGap);
      hide Times;
    }
  }

  lemma {:induction false} NoneEarlyAt(spec: CaseSpec, lane: nat, issues: seq<real>, k: nat)
    requires NoneEarly(spec, lane, issues) && k < |issues|
    ensures issues[k] >= ReadyTime(spec, lane, issues, k)
  {
    if k == |issues| - 1 {
      ReadyTimeIs(spec, lane, issues, k);
    } else {
      NoneEarlyAt(spec, lane, issues[..|issues| - 1], k);
    }
  }

  lemma LaneClockAt(spec: CaseSpec, f: Sim, l: nat)
    requires RunDone(spec, f) && l < |f.lanes|
    ensures var lane, n := f.lanes[l], spec.requestsPerLane;
            var issues := LaneIssues(LaneIds(f.records), Issues(f.records), l);
            && |issues| == n && NoneEarly(spec, l, issues)
            && lane.stallEvents == LateCount(spec, l, issues)
            && (n > 0 ==> issues[n - 1] == LaneOffset(l) + GapSum(spec, n - 1) + lane.blockedStall)
  {
    StallsTelescope(spec, f, l);
    assert LaneInv(spec, f, l);
    hide TimingInv, AreaInv, QueueInv;
  }

  /** When the lane's m-th request after the first would be issued if nothing blocked it:
      a stagger of 0.55 a lane, a compute gap a whole burst and an intra-burst gap for
      every other request. */
  function UnblockedIssue(spec: CaseSpec, lane: nat, m: nat): real {
    var bursts := m / Burst(spec);
    Times(lane, 0.55) + Times(bursts, spec.computeGap) + Times(m - bursts, spec.intraBurstGap)
  }

  /** A lane's last issue is its stagger, its gaps in closed form and the time it is
      reported to have been blocked; its stall events count exactly the requests issued
      later than ready, and none is issued earlier. */
  lemma StallsAreExact(spec: CaseSpec, f: Sim, l: nat)
    requires RunDone(spec, f) && l < |f.lanes|
    ensures var lane, n := f.lanes[l], spec.requestsPerLane;
            var issues := LaneIssues(LaneIds(f.records), Issues(f.records), l);
            && |issues| == n
            && lane.stallEvents == LateRequests(spec, l, issues, n)
            && (forall k :: 0 <= k < n ==> issues[k] >= ReadyTime(spec, l, issues, k))
            && (n > 0 ==> issues[n - 1] == UnblockedIssue(spec, l, n - 1) + lane.blockedStall)
  {
    LaneClockAt(spec, f, l);
    hide RunDone, LaneIssues, LateRequests, LateCount, ReadyTime, GapSum, NoneEarly, UnblockedIssue, LaneOffset;
    ClockInClosedForm(spec, l, LaneIssues(LaneIds(f.records), Issues(f.records), l));
  }

  lemma ClockInClosedForm(spec: CaseSpec, l: nat, issues: seq<real>)
    requires NoneEarly(spec, l, issues)
    ensures LateRequests(spec, l, issues, |issues|) == LateCount(spec, l, issues)
    ensures forall k :: 0 <= k < |issues| ==> issues[k] >= ReadyTime(spec, l, issues, k)
    ensures |issues| > 0 ==>
              var m := |issues| - 1;
              LaneOffset(l) + GapSum(spec, m) == UnblockedIssue(spec, l, m)
  {
    assert issues[..|issues|] == issues;
    LateRequestsAre(spec, l, issues, |issues|);
    forall k | 0 <= k < |issues| ensures issues[k] >= ReadyTime(spec, l, issues, k) {
      NoneEarlyAt(spec, l, issues, k);
    }
    hide NoneEarly, LateRequests, LateCount, ReadyTime, GapSum, LaneOffset, UnblockedIssue;
    if |issues| > 0 {
      UnblockedIssueIs(spec, l, |issues| - 1);
    }
  }

  lemma UnblockedIssueIs(spec: CaseSpec, l: nat, m: nat)
    ensures LaneOffset(l) + GapSum(spec, m) == UnblockedIssue(spec, l, m)
  {
    GapsAddUp(spec, m);
    assert LaneOffset(l) == Times(l, 0.55);
    hide Times, LaneOffset, GapSum;
  }

  // ---- Delays ----

  /** The service delay of a request: memory time, transfer time and a jitter by the score
      of its lane and position, modulo 2^32; while the score fits, the jitter cycles
      through six values as either grows. */
  lemma ServiceIsExact(spec: CaseSpec, f: Sim, i: nat)
    requires RunDone(spec, f) && i < |f.records|
    ensures var r := f.records[i];
            && r.sizeBytes == spec.requestSize && r.requestId == i + 1
            && r.serviceDelay
               == spec.memoryServiceTime + spec.requestSize as real / spec.bandwidth
                  + Jitter((13 * r.laneId + 7 * r.sequenceIndex) % 0x1_0000_0000)
            && (13 * r.laneId + 7 * r.sequenceIndex < 0x1_0000_0000 ==>
                  r.serviceDelay
                  == spec.memoryServiceTime + spec.requestSize as real / spec.bandwidth
                     + Jitter(r.laneId + r.sequenceIndex))
  {
    hide AreaInv, LanesInv, TotalRequests, LimitsPositive;
    var r := f.records[i];
    JitterOfScore(r.laneId, r.sequenceIndex);
    assert ServedCorrectly(spec, f.records, i);
    hide RunDone, QueueInv, TimingInv, ServiceJitter, Jitter;
    if 13 * r.laneId + 7 * r.sequenceIndex < 0x1_0000_0000 {
      JitterCycles(r.laneId, r.sequenceIndex);
    }
  }

  /** The jitter in steps of 0.18. */
  function Jitter(score: nat): real {
    (score % 6) as real * 0.18
  }

  lemma JitterOfScore(lane: nat, sequence: nat)
    ensures ServiceJitter(lane, sequence) == Jitter((13 * lane + 7 * sequence) % 0x1_0000_0000)
  {
    SumWraps(lane * 13, sequence * 7, 0x1_0000_0000);
  }

  lemma JitterCycles(lane: nat, sequence: nat)
    requires 13 * lane + 7 * sequence < 0x1_0000_0000
    ensures Jitter((13 * lane + 7 * sequence) % 0x1_0000_0000) == Jitter(lane + sequence)
  {
    NoWrap(13 * lane + 7 * sequence);
    SixesCancel(2 * lane + sequence, lane + sequence);
    assert 13 * lane + 7 * sequence == 6 * (2 * lane + sequence) + (lane + sequence);
  }

  lemma SumWraps(a: nat, b: nat, width: nat)
    requires width > 0
    ensures (a % width + b % width) % width == (a + b) % width
  {
    var c := a % width + b % width;
    var q := a / width + b / width + c / width;
    assert a + b == width * q + c % width by {
      Distributes(width, a / width, b / width, c / width);
    }
    DivUnique(a + b, width, q, c % width);
  }

  lemma Distributes(w: nat, x: nat, y: nat, z: nat)
    ensures w * (x + y + z) == w * x + w * y + w * z
  {
  }

  lemma NoWrap(n: nat)
    requires n < 0x1_0000_0000
    ensures n % 0x1_0000_0000 == n
  {
  }

  lemma SixesCancel(m: nat, n: nat)
    ensures (6 * m + n) % 6 == n % 6
  {
  }

  /** The part of the hiding window that the requests in flight fill. */
  function WindowShare(spec: CaseSpec, r: Request): real {
    var window := NatMax(spec.hidingWindow, 1);
    if r.outstandingAfterIssue >= window then 1.0 else r.outstandingAfterIssue as real / window as real
  }

  lemma FinishedAtEnd(spec: CaseSpec, f: Sim, i: nat)
    requires RunDone(spec, f) && i < |f.records|
    ensures FinishedCorrectly(spec, f.records[i])
  {
    hide FinishedCorrectly, AreaInv, LanesInv, TotalRequests, LimitsPositive, ServedCorrectly;
  }

  /** How much of a latency is hidden: 20 % of the service and, in proportion to the part
      of the window that is in flight, another 68 % of the service and 35 % of the
      queueing, or 15.75 % if more than 70 % of the queue was full; never more than there
      is. */
  lemma HiddenIsExact(spec: CaseSpec, f: Sim, i: nat)
    requires RunDone(spec, f) && i < |f.records|
    ensures var r := f.records[i];
            var q := WindowShare(spec, r);
            var share := if 10 * r.depthOnArrival >= 7 * spec.queueCapacity + 10 then 0.1575 else 0.35;
            && r.exposed == r.latency - r.hidden
            && r.hidden == Min(r.latency, r.serviceDelay * (0.2 + 0.68 * q) + r.queueDelay * (share * q))
  {
    hide RunDone, HiddenLatency, WindowShare;
    FinishedAtEnd(spec, f, i);
    HiddenShares(spec, f.records[i]);
  }

  lemma HiddenShares(spec: CaseSpec, r: Request)
    ensures var q := WindowShare(spec, r);
            var share := if 10 * r.depthOnArrival >= 7 * spec.queueCapacity + 10 then 0.1575 else 0.35;
            HiddenLatency(spec, r) == Min(r.latency, r.serviceDelay * (0.2 + 0.68 * q) + r.queueDelay * (share * q))
  {
    var window := NatMax(spec.hidingWindow, 1);
    var q := WindowShare(spec, r);
    PartOf(r.outstandingAfterIssue, window);
    var ratio := Min(1.0, r.outstandingAfterIssue as real / window as real);
    assert ratio == q;
    assert Min(0.88, 0.20 + 0.68 * ratio) == 0.2 + 0.68 * q;
    assert r.depthOnArrival > (7 * spec.queueCapacity + 9) / 10
      <==> 10 * r.depthOnArrival >= 7 * spec.queueCapacity + 10;
  }

  lemma PartOf(n: nat, window: nat)
    requires window >= 1
    ensures n as real / window as real >= 1.0 <==> n >= window
  {
    var q := n as real / window as real;
    assert q * window as real == n as real;
    if q >= 1.0 {
      assert (q - 1.0) * window as real >= 0.0;
    }
  }

  // ---- The order in which lanes issue ----

  /** The records a pass appends come from lanes in increasing order. */
  lemma {:induction false} PassInLaneOrder(spec: CaseSpec, s: Sim, l: nat, issued: bool)
    requires Shape(s) && l <= |s.lanes|
    ensures var t := IssuePass(spec, s, l, issued).0;
            && s.records <= t.records
            && (forall i :: |s.records| <= i < |t.records| ==> l <= t.records[i].laneId < |s.lanes|)
            && (forall i, j :: |s.records| <= i < j < |t.records| ==> t.records[i].laneId < t.records[j].laneId)
    decreases |s.lanes| - l
  {
    if l == |s.lanes| {
    } else if LaneCanIssue(spec, s, l) {
      var t := IssueLane(spec, s, l);
      PassInLaneOrder(spec, t, l + 1, true);
      var u := IssuePass(spec, t, l + 1, true).0;
      assert u.records[|s.records|] == t.records[|s.records|];
    } else {
      PassInLaneOrder(spec, s, l + 1, issued);
    }
  }

  /** A shared limit is reached. */
  predicate Full(spec: CaseSpec, s: Sim) {
    s.globalOutstanding >= spec.globalLimit || |s.queue| >= spec.queueCapacity
  }

  lemma {:induction false} FullIssuesNothing(spec: CaseSpec, s: Sim, l: nat, issued: bool)
    requires Shape(s) && l <= |s.lanes| && Full(spec, s)
    ensures IssuePass(spec, s, l, issued).0 == s
    decreases |s.lanes| - l
  {
    if l == |s.lanes| {
    } else {
      FullIssuesNothing(spec, s, l + 1, issued);
    }
  }

  predicate IssuedFor(s: Sim, t: Sim, lane: nat) {
    exists i :: |s.records| <= i < |t.records| && t.records[i].laneId == lane
  }

  /** Lanes that contend for the last places get them in index order: a lane that is ready
      and below its own limit is passed over only if no later lane issues either. */
  lemma {:induction false} LowerLaneFirst(spec: CaseSpec, s: Sim, l: nat, issued: bool, a: nat, b: nat)
    requires Shape(s) && l <= a < b < |s.lanes|
    requires LaneReady(spec, s.lanes[a], s.time) && s.lanes[a].outstanding < spec.laneLimit
    requires IssuedFor(s, IssuePass(spec, s, l, issued).0, b)
    ensures IssuedFor(s, IssuePass(spec, s, l, issued).0, a)
    decreases |s.lanes| - l
  {
    var u := IssuePass(spec, s, l, issued).0;
    if LaneCanIssue(spec, s, l) {
      var t := IssueLane(spec, s, l);
      PassInLaneOrder(spec, t, l + 1, true);
      if l == a {
        assert u.records[|s.records|] == t.records[|s.records|];
      } else {
        LowerLaneFirst(spec, t, l + 1, true, a, b);
      }
    } else if l == a {
      FullIssuesNothing(spec, s, l + 1, issued);
    } else {
      LowerLaneFirst(spec, s, l + 1, issued, a, b);
    }
  }
}
