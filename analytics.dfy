/** `getUserAnalytics`: one user's closed sessions aggregated into two
    rolling weekly windows, seven weekday buckets, a peak day, a
    four-bucket duration histogram and three goal gauges. Durations are
    seconds throughout, whatever the field names say. */
module Analytics {
  import opened Schema
  import opened Rows
  import opened Store
  import opened JsMath
  import opened Leaderboard

  const DayNames: seq<string> :=
    ["Sunday", "Monday", "Tuesday", "Wednesday", "Thursday", "Friday", "Saturday"]

  /** The user's closed sessions (duration set), in table order. */
  function ClosedOf(sessions: seq<Row<Session>>, uid: nat): (r: seq<Session>)
    ensures forall s :: s in r <==> exists x :: x in sessions && x.userId == uid && x.doc == s && s.duration.Some?
  {
    if sessions == [] then []
    else
      assert forall x :: x in sessions <==> x == sessions[0] || x in sessions[1..];
      (if sessions[0].userId == uid && sessions[0].doc.duration.Some? then [sessions[0].doc] else [])
      + ClosedOf(sessions[1..], uid)
  }

  /** Sessions started at or after `lo`. */
  function Since(ss: seq<Session>, lo: int): (r: seq<Session>)
    ensures forall s :: s in r <==> s in ss && s.startTime >= lo
  {
    if ss == [] then []
    else (if ss[0].startTime >= lo then [ss[0]] else []) + Since(ss[1..], lo)
  }

  /** Sessions started in `[lo, hi)`. */
  function Between(ss: seq<Session>, lo: int, hi: int): (r: seq<Session>)
    ensures forall s :: s in r <==> s in ss && lo <= s.startTime < hi
  {
    if ss == [] then []
    else (if lo <= ss[0].startTime < hi then [ss[0]] else []) + Between(ss[1..], lo, hi)
  }

  function Recent(all: seq<Session>, now: int): seq<Session> {
    Since(all, now - 7 * DayMs)
  }

  function Previous(all: seq<Session>, now: int): seq<Session> {
    Between(all, now - 14 * DayMs, now - 7 * DayMs)
  }

  /** The two weekly windows never share a session. */
  lemma WindowsDisjoint(all: seq<Session>, now: int)
    ensures forall s :: s in Recent(all, now) ==> s !in Previous(all, now)
    ensures forall s :: s in all && s.startTime >= now - 14 * DayMs ==>
      s in Recent(all, now) || s in Previous(all, now)
  {
  }

  /** The sessions of one weekday, in order. */
  function OnDay(ss: seq<Session>, lt: LocalTime, d: Weekday): seq<Session> {
    if ss == [] then []
    else
      var last := ss[|ss| - 1];
      OnDay(ss[..|ss| - 1], lt, d) + (if lt.dayOf(last.startTime) == d then [last] else [])
  }

  function DayTotal(ss: seq<Session>, lt: LocalTime, d: Weekday): int {
    Total(OnDay(ss, lt, d))
  }

  /** The weekdays holding a session, in the order their first session
      appears (the key order of the `dayTotals` record). */
  function DayOrder(ss: seq<Session>, lt: LocalTime): seq<Weekday> {
    if ss == [] then []
    else
      var o := DayOrder(ss[..|ss| - 1], lt);
      var d := lt.dayOf(ss[|ss| - 1].startTime);
      if d in o then o else o + [d]
  }

  lemma {:induction false} DayOrderMembers(ss: seq<Session>, lt: LocalTime, d: Weekday)
    ensures d in DayOrder(ss, lt) <==> OnDay(ss, lt, d) != []
  {
    if ss != [] {
      DayOrderMembers(ss[..|ss| - 1], lt, d);
    }
  }

  lemma OnDaySnoc(ss: seq<Session>, s: Session, lt: LocalTime, d: Weekday)
    ensures OnDay(ss + [s], lt, d) == OnDay(ss, lt, d) + (if lt.dayOf(s.startTime) == d then [s] else [])
    ensures DayTotal(ss + [s], lt, d) == DayTotal(ss, lt, d) + (if lt.dayOf(s.startTime) == d then DurationOf(s) else 0)
  {
    assert (ss + [s])[..|ss|] == ss;
    if lt.dayOf(s.startTime) == d {
      TotalSnoc(OnDay(ss, lt, d), s);
    } else {
      assert OnDay(ss, lt, d) + [] == OnDay(ss, lt, d);
    }
  }

  lemma DayOrderSnoc(ss: seq<Session>, s: Session, lt: LocalTime)
    ensures var d := lt.dayOf(s.startTime);
      DayOrder(ss + [s], lt) == if d in DayOrder(ss, lt) then DayOrder(ss, lt) else DayOrder(ss, lt) + [d]
  {
    assert (ss + [s])[..|ss|] == ss;
  }

  /** The index of the first largest value: the head of a stable sort by
      value, largest first. */
  function FirstMaxIndex(vals: seq<int>): (k: nat)
    requires vals != []
    ensures k < |vals|
    ensures forall j :: 0 <= j < |vals| ==> vals[j] <= vals[k]
    ensures forall j :: 0 <= j < k ==> vals[j] < vals[k]
  {
    if |vals| == 1 then 0
    else
      var m := 1 + FirstMaxIndex(vals[1..]);
      assert forall j :: 1 <= j < |vals| ==> vals[j] == vals[1..][j - 1];
      if vals[0] >= vals[m] then 0 else m
  }

  datatype Peak = Peak(day: string, total: int)

  function DayValues(order: seq<Weekday>, ss: seq<Session>, lt: LocalTime): (r: seq<int>)
    ensures |r| == |order|
  {
    seq(|order|, k requires 0 <= k < |order| => DayTotal(ss, lt, order[k]))
  }

  /** The peak day: ("N/A", 0) without recent sessions, otherwise the first
      day, in first-seen order, with the largest total. */
  function PeakOf(recent: seq<Session>, lt: LocalTime): Peak {
    var order := DayOrder(recent, lt);
    if order == [] then Peak("N/A", 0)
    else
      var d := order[FirstMaxIndex(DayValues(order, recent, lt))];
      Peak(DayNames[d], DayTotal(recent, lt, d))
  }

  /** `order` and `totals` are the `dayTotals` record after the sessions `ss`. */
  ghost predicate Tallied(ss: seq<Session>, lt: LocalTime, order: seq<Weekday>, totals: map<Weekday, int>) {
    && order == DayOrder(ss, lt)
    && (forall d :: d in totals <==> d in order)
    && (forall d :: d in totals ==> totals[d] == DayTotal(ss, lt, d))
  }

  /** One step of the pass keeps the record in step with the sessions seen. */
  lemma TallyStep(ss: seq<Session>, s: Session, lt: LocalTime, order: seq<Weekday>, totals: map<Weekday, int>,
                  order': seq<Weekday>, totals': map<Weekday, int>)
    requires Tallied(ss, lt, order, totals)
    requires var d := lt.dayOf(s.startTime);
      && order' == (if d in totals then order else order + [d])
      && totals' == totals[d := (if d in totals then totals[d] else 0) + DurationOf(s)]
    ensures Tallied(ss + [s], lt, order', totals')
  {
    var d := lt.dayOf(s.startTime);
    DayOrderSnoc(ss, s, lt);
    if d !in totals {
      DayOrderMembers(ss, lt, d);
    }
    forall e | e in totals' ensures totals'[e] == DayTotal(ss + [s], lt, e) {
      OnDaySnoc(ss, s, lt, e);
    }
  }

  /** The `forEach` that fills `dayTotals`: one pass over the recent
      sessions, adding each duration to its weekday's running total and
      recording each weekday the first time it is seen. */
  method TallyDays(recent: seq<Session>, lt: LocalTime) returns (order: seq<Weekday>, totals: map<Weekday, int>)
    ensures order == DayOrder(recent, lt)
    ensures forall d :: d in totals <==> d in order
    ensures forall d :: d in totals ==> totals[d] == DayTotal(recent, lt, d)
  {
    order := [];
    totals := map[];
    ghost var seen: seq<Session> := [];
    var i := 0;
    while i < |recent|
      invariant 0 <= i <= |recent| && seen == recent[..i]
      invariant Tallied(seen, lt, order, totals)
    {
      var s := recent[i];
      var d := lt.dayOf(s.startTime);
      var before := 0;
      var order' := order;
      if d in totals {
        before := totals[d];
      } else {
        order' := order + [d];
      }
      var totals' := totals[d := before + DurationOf(s)];
      TallyStep(seen, s, lt, order, totals, order', totals');
      assert recent[..i + 1] == recent[..i] + [s];
      order, totals, seen, i := order', totals', seen + [s], i + 1;
    }
    assert recent[..i] == recent;
  }

  /** No recent session means no peak day, and a weekday without recent
      sessions contributes 0. */
  lemma PeakDayEmpty(recent: seq<Session>, lt: LocalTime)
    ensures (recent == []) <==> (DayOrder(recent, lt) == [])
    ensures recent == [] ==> PeakOf(recent, lt) == Peak("N/A", 0)
    ensures forall d: Weekday :: OnDay(recent, lt, d) == [] ==> DayTotal(recent, lt, d) == 0
  {
    if recent != [] {
      var d0 := lt.dayOf(recent[|recent| - 1].startTime);
      assert recent[|recent| - 1] in recent;
      assert recent[|recent| - 1] in OnDay(recent, lt, d0);
      DayOrderMembers(recent, lt, d0);
    }
  }

  /** With recent sessions, the peak day holds one, no weekday holding one
      has a larger total, and every weekday first seen before it has a
      strictly smaller total. */
  lemma PeakDayIsMax(recent: seq<Session>, lt: LocalTime)
    requires recent != []
    ensures var order := DayOrder(recent, lt);
      && order != []
      && var k := FirstMaxIndex(DayValues(order, recent, lt));
      && PeakOf(recent, lt) == Peak(DayNames[order[k]], DayTotal(recent, lt, order[k]))
      && OnDay(recent, lt, order[k]) != []
      && (forall d: Weekday :: OnDay(recent, lt, d) != [] ==> DayTotal(recent, lt, d) <= DayTotal(recent, lt, order[k]))
      && (forall j :: 0 <= j < k ==> DayTotal(recent, lt, order[j]) < DayTotal(recent, lt, order[k]))
  {
    var order := DayOrder(recent, lt);
    PeakDayEmpty(recent, lt);
    var vals := DayValues(order, recent, lt);
    var k := FirstMaxIndex(vals);
    DayOrderMembers(recent, lt, order[k]);
    forall d: Weekday | OnDay(recent, lt, d) != []
      ensures DayTotal(recent, lt, d) <= DayTotal(recent, lt, order[k])
    {
      DayOrderMembers(recent, lt, d);
      var j :| 0 <= j < |order| && order[j] == d;
      assert vals[j] <= vals[k];
    }
    forall j | 0 <= j < k ensures DayTotal(recent, lt, order[j]) < DayTotal(recent, lt, order[k]) {
      assert vals[j] < vals[k];
    }
  }

  /** The local calendar dates holding a recent session. */
  function Dates(ss: seq<Session>, lt: LocalTime): set<int> {
    set s | s in ss :: lt.dateOf(s.startTime)
  }

  /** Each day's bucket of the weekly chart. The average intensity is kept
      as a (sum, count) pair. */
  datatype DayPoint = DayPoint(day: string, duration: int, intensitySum: int, sessionCount: nat)

  function WeeklyData(recent: seq<Session>, lt: LocalTime): (r: seq<DayPoint>)
    ensures |r| == 7
  {
    seq(7, d requires 0 <= d < 7 =>
      var on := OnDay(recent, lt, d);
      DayPoint(DayNames[d][..3], Total(on), IntensitySum(on), |on|))
  }

  function SumDurations(ps: seq<DayPoint>): int {
    if ps == [] then 0 else ps[0].duration + SumDurations(ps[1..])
  }

  function SumCounts(ps: seq<DayPoint>): int {
    if ps == [] then 0 else ps[0].sessionCount + SumCounts(ps[1..])
  }

  lemma {:induction false} DaysPartition(ss: seq<Session>, lt: LocalTime)
    ensures DayTotal(ss, lt, 0) + DayTotal(ss, lt, 1) + DayTotal(ss, lt, 2)
      + DayTotal(ss, lt, 3) + DayTotal(ss, lt, 4) + DayTotal(ss, lt, 5)
      + DayTotal(ss, lt, 6) == Total(ss)
    ensures |OnDay(ss, lt, 0)| + |OnDay(ss, lt, 1)| + |OnDay(ss, lt, 2)| + |OnDay(ss, lt, 3)|
      + |OnDay(ss, lt, 4)| + |OnDay(ss, lt, 5)| + |OnDay(ss, lt, 6)| == |ss|
  {
    if ss != [] {
      var init := ss[..|ss| - 1];
      var last := ss[|ss| - 1];
      DaysPartition(init, lt);
      assert ss == init + [last];
      TotalSnoc(init, last);
      OnDaySnoc(init, last, lt, 0);
      OnDaySnoc(init, last, lt, 1);
      OnDaySnoc(init, last, lt, 2);
      OnDaySnoc(init, last, lt, 3);
      OnDaySnoc(init, last, lt, 4);
      OnDaySnoc(init, last, lt, 5);
      OnDaySnoc(init, last, lt, 6);
    }
  }

  lemma SumSeven(w: seq<DayPoint>)
    requires |w| == 7
    ensures SumDurations(w) == w[0].duration + w[1].duration + w[2].duration + w[3].duration
      + w[4].duration + w[5].duration + w[6].duration
    ensures SumCounts(w) == w[0].sessionCount + w[1].sessionCount + w[2].sessionCount + w[3].sessionCount
      + w[4].sessionCount + w[5].sessionCount + w[6].sessionCount
  {
    forall i | 0 <= i < 7
      ensures SumDurations(w[i..]) == w[i].duration + SumDurations(w[i + 1..])
      ensures SumCounts(w[i..]) == w[i].sessionCount + SumCounts(w[i + 1..])
    {
      assert w[i..][1..] == w[i + 1..];
    }
    assert w[7..] == [];
    assert w[0..] == w;
  }

  /** The chart has one bucket per weekday, Sunday to Saturday, and its
      durations and session counts add up to the recent window's. */
  lemma WeeklyDataSums(recent: seq<Session>, lt: LocalTime)
    ensures var w := WeeklyData(recent, lt);
      && |w| == 7
      && (forall d :: 0 <= d < 7 ==> w[d].day == DayNames[d][..3])
      && SumDurations(w) == Total(recent)
      && SumCounts(w) == |recent|
  {
    var w := WeeklyData(recent, lt);
    DaysPartition(recent, lt);
    SumSeven(w);
    assert forall d: Weekday :: w[d].duration == DayTotal(recent, lt, d) && w[d].sessionCount == |OnDay(recent, lt, d)|;
  }

  /** The four duration buckets, by the source's four filters. */
  predicate Under30(d: int) { d < 30 }
  predicate ThirtyTo60(d: int) { d >= 30 && d < 60 }
  predicate SixtyTo90(d: int) { d >= 60 && d < 90 }
  predicate Over90(d: int) { d >= 90 }

  function CountWhere(ss: seq<Session>, p: int -> bool): nat {
    if ss == [] then 0 else (if p(DurationOf(ss[0])) then 1 else 0) + CountWhere(ss[1..], p)
  }

  datatype Bucket = Bucket(count: nat, percentage: int)

  /** `round(c / total * 100)`, or 0 with no sessions at all. */
  function Pct(c: nat, total: nat): int {
    if total > 0 then RoundDiv(100 * c, total) else 0
  }

  datatype Distribution = Distribution(under30: Bucket, thirtyTo60: Bucket, sixtyTo90: Bucket, over90: Bucket)

  function DistributionOf(all: seq<Session>): Distribution {
    var a := CountWhere(all, Under30);
    var b := CountWhere(all, ThirtyTo60);
    var c := CountWhere(all, SixtyTo90);
    var d := CountWhere(all, Over90);
    var total := a + b + c + d;
    Distribution(Bucket(a, Pct(a, total)), Bucket(b, Pct(b, total)),
                 Bucket(c, Pct(c, total)), Bucket(d, Pct(d, total)))
  }

  lemma {:induction false} BucketsPartition(ss: seq<Session>)
    ensures CountWhere(ss, Under30) + CountWhere(ss, ThirtyTo60) + CountWhere(ss, SixtyTo90)
      + CountWhere(ss, Over90) == |ss|
  {
    if ss != [] {
      BucketsPartition(ss[1..]);
    }
  }

  lemma PctBounds(c: nat, total: nat)
    requires c <= total
    ensures 0 <= Pct(c, total) <= 100
    ensures total > 0 ==> 200 * c - total < 2 * total * Pct(c, total) <= 200 * c + total
  {
    if total > 0 {
      RoundDivMono(0, 100 * c, total);
      RoundDivMono(100 * c, 100 * total, total);
      RoundDivUnique(0, total, 0);
      RoundDivUnique(100 * total, total, 100);
    }
  }

  /** Four percentages of one total, rounded separately, add up to between
      99 and 102. */
  lemma PctSum(a: nat, b: nat, c: nat, d: nat)
    requires a + b + c + d > 0
    ensures var n := a + b + c + d;
      99 <= Pct(a, n) + Pct(b, n) + Pct(c, n) + Pct(d, n) <= 102
  {
    var n := a + b + c + d;
    PctBounds(a, n);
    PctBounds(b, n);
    PctBounds(c, n);
    PctBounds(d, n);
    RoundedSum(n, a, b, c, d, Pct(a, n), Pct(b, n), Pct(c, n), Pct(d, n));
  }

  /** Four values each within half a unit of `100 x / n`, for parts `x`
      adding up to `n`, add up to more than 98 and at most 102. */
  lemma RoundedSum(n: int, a: int, b: int, c: int, d: int, pa: int, pb: int, pc: int, pd: int)
    requires n > 0 && n == a + b + c + d
    requires 200 * a - n < 2 * n * pa <= 200 * a + n
    requires 200 * b - n < 2 * n * pb <= 200 * b + n
    requires 200 * c - n < 2 * n * pc <= 200 * c + n
    requires 200 * d - n < 2 * n * pd <= 200 * d + n
    ensures 99 <= pa + pb + pc + pd <= 102
  {
    var s := pa + pb + pc + pd;
    assert 2 * n * s == 2 * n * pa + 2 * n * pb + 2 * n * pc + 2 * n * pd;
    assert 2 * n * 98 < 2 * n * s <= 2 * n * 102;
    MulCompare(2 * n, s, 98);
    MulCompare(2 * n, s, 102);
  }

  /** The four buckets partition the closed sessions. With none, every
      percentage is 0; otherwise each lies in [0, 100] and, rounded
      separately, they add up to between 99 and 102. */
  lemma DistributionFacts(all: seq<Session>)
    ensures var r := DistributionOf(all);
      && r.under30.count + r.thirtyTo60.count + r.sixtyTo90.count + r.over90.count == |all|
      && (all == [] ==> r.under30.percentage == r.thirtyTo60.percentage
                        == r.sixtyTo90.percentage == r.over90.percentage == 0)
      && (all != [] ==>
            && 0 <= r.under30.percentage <= 100 && 0 <= r.thirtyTo60.percentage <= 100
            && 0 <= r.sixtyTo90.percentage <= 100 && 0 <= r.over90.percentage <= 100
            && 99 <= r.under30.percentage + r.thirtyTo60.percentage
                     + r.sixtyTo90.percentage + r.over90.percentage <= 102)
  {
    BucketsPartition(all);
    var a := CountWhere(all, Under30);
    var b := CountWhere(all, ThirtyTo60);
    var c := CountWhere(all, SixtyTo90);
    var d := CountWhere(all, Over90);
    var n := a + b + c + d;
    PctBounds(a, n);
    PctBounds(b, n);
    PctBounds(c, n);
    PctBounds(d, n);
    if n > 0 {
      PctSum(a, b, c, d);
    }
  }

  /** Rounding each bucket separately can overshoot: counts 1, 1, 3, 3 of 8
      give 13 + 13 + 38 + 38 = 102. */
  lemma PercentagesCanSumTo102()
    ensures Pct(1, 8) + Pct(1, 8) + Pct(3, 8) + Pct(3, 8) == 102
  {
    RoundDivUnique(100, 8, 13);
    RoundDivUnique(300, 8, 38);
  }

  datatype Goal = Goal(target: int, current: int, progress: int)

  /** `min(round(current / target * 100), 100)` */
  function GoalOf(current: int, target: int): Goal
    requires target > 0
  {
    Goal(target, current, Min(RoundDiv(100 * current, target), 100))
  }

  /** Progress never exceeds 100, is never negative for a non-negative
      current value, and is 100 once the target is reached. */
  lemma GoalBounds(current: int, target: int)
    requires target > 0
    ensures var g := GoalOf(current, target);
      && g.progress <= 100
      && (current >= 0 ==> 0 <= g.progress)
      && (current >= target ==> g.progress == 100)
      && (0 <= current ==> g.progress == 100 || 2 * target * g.progress <= 200 * current + target)
  {
    if current >= 0 {
      RoundDivMono(0, 100 * current, target);
      RoundDivUnique(0, target, 0);
    }
    if current >= target {
      RoundDivMono(100 * target, 100 * current, target);
      RoundDivUnique(100 * target, target, 100);
    }
  }

  datatype Summary = Summary(
    thisWeekMinutes: int,
    weekChange: int,
    avgDuration: int,
    peakDay: string,
    peakDayMinutes: int,
    consistency: int,
    activeDays: nat)

  datatype Report = Report(
    summary: Summary,
    weeklyData: seq<DayPoint>,
    distribution: Distribution,
    weeklyGoal: Goal,
    streak: Goal,
    totalSessions: Goal)

  function WeekChange(thisWeek: int, lastWeek: int): int {
    if lastWeek > 0 then RoundDiv(100 * (thisWeek - lastWeek), lastWeek) else 0
  }

  function AvgDuration(total: int, count: nat): int {
    if count > 0 then RoundDiv(total, count) else 0
  }

  /** `round(days / 7 * 100)`, not clipped. */
  function Consistency(days: nat): int {
    RoundDiv(100 * days, 7)
  }

  function ReportOf(u: User, all: seq<Session>, now: int, lt: LocalTime): Report {
    var recent := Recent(all, now);
    var thisWeek := Total(recent);
    var lastWeek := Total(Previous(all, now));
    var peak := PeakOf(recent, lt);
    var days := |Dates(recent, lt)|;
    Report(
      Summary(thisWeek, WeekChange(thisWeek, lastWeek), AvgDuration(thisWeek, |recent|),
              peak.day, peak.total, Consistency(days), days),
      WeeklyData(recent, lt),
      DistributionOf(all),
      GoalOf(thisWeek, 500),
      GoalOf(u.currentStreak, 30),
      GoalOf(u.totalSessions, 100))
  }

  /** The query's answer: null for an unknown user. */
  function UserAnalytics(users: seq<User>, sessions: seq<Row<Session>>, uid: nat, now: int, lt: LocalTime): Option<Report> {
    match FindUser(users, uid)
    case None => None
    case Some(u) => Some(ReportOf(u, ClosedOf(sessions, uid), now, lt))
  }

  /** `getUserAnalytics`: the aggregations with the weekday tally done by
      the loop. */
  method GetUserAnalytics(users: seq<User>, sessions: seq<Row<Session>>, uid: nat, now: int, lt: LocalTime)
    returns (r: Option<Report>)
    ensures r == UserAnalytics(users, sessions, uid, now, lt)
  {
    var user := FindUser(users, uid);
    if user.None? {
      return None;
    }
    var all := ClosedOf(sessions, uid);
    var recent := Recent(all, now);
    var thisWeek := Total(recent);
    var lastWeek := Total(Previous(all, now));
    var order, totals := TallyDays(recent, lt);
    var peak := Peak("N/A", 0);
    if |order| > 0 {
      var vals := seq(|order|, k requires 0 <= k < |order| => totals[order[k]]);
      assert vals == DayValues(order, recent, lt);
      var k := FirstMaxIndex(vals);
      peak := Peak(DayNames[order[k]], vals[k]);
    }
    var days := |Dates(recent, lt)|;
    var u := user.value;
    r := Some(Report(
      Summary(thisWeek, WeekChange(thisWeek, lastWeek), AvgDuration(thisWeek, |recent|),
              peak.day, peak.total, Consistency(days), days),
      WeeklyData(recent, lt),
      DistributionOf(all),
      GoalOf(thisWeek, 500),
      GoalOf(u.currentStreak, 30),
      GoalOf(u.totalSessions, 100)));
  }

  /** Without a previous-week total the change is 0; without recent sessions
      the average, the peak ("N/A", 0), the active days and the consistency
      are all 0; the active days never exceed the recent sessions. */
  lemma SummaryDefaults(u: User, all: seq<Session>, now: int, lt: LocalTime)
    ensures var s := ReportOf(u, all, now, lt).summary;
      && (Total(Previous(all, now)) <= 0 ==> s.weekChange == 0)
      && s.activeDays <= |Recent(all, now)|
      && (Recent(all, now) == [] ==>
            s.avgDuration == 0 && s.peakDay == "N/A" && s.peakDayMinutes == 0
            && s.activeDays == 0 && s.consistency == 0)
  {
    var recent := Recent(all, now);
    PeakDayEmpty(recent, lt);
    DatesBound(recent, lt);
    if recent == [] {
      RoundDivUnique(0, 7, 0);
    }
  }

  lemma {:induction false} DatesBound(ss: seq<Session>, lt: LocalTime)
    ensures |Dates(ss, lt)| <= |ss|
  {
    if ss != [] {
      DatesBound(ss[1..], lt);
      assert Dates(ss, lt) == Dates(ss[1..], lt) + {lt.dateOf(ss[0].startTime)};
    }
  }

  /** Consistency is at most 100 exactly when the window touches at most
      seven calendar dates; a seven-day window that touches eight reports
      114. */
  lemma ConsistencyNotClipped(days: nat)
    ensures Consistency(days) <= 100 <==> days <= 7
    ensures days == 8 ==> Consistency(days) == 114
  {
    if days <= 7 {
      RoundDivMono(100 * days, 700, 7);
      RoundDivUnique(700, 7, 100);
    } else {
      RoundDivMono(800, 100 * days, 7);
      RoundDivUnique(800, 7, 114);
    }
  }
}
