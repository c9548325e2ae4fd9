/** The achievement table and its evaluator. The evaluator reads the
    user's finished sessions and counters, and "unlocks" each earned badge
    with an achievement record followed by a notification, skipping the
    badges the user held before the call. The held set is read once and
    never updated during the call, so the two time-of-day badges are
    unlocked once per qualifying session. */
module Achievements {
  import opened Schema
  import opened Rows
  import opened Store
  import opened JsMath
  import opened Leaderboard

  datatype Category = MilestoneCategory | DurationCategory | StreakCategory | IntensityCategory | SpecialCategory

  /** The table key of a badge. */
  function Key(b: Badge): string {
    match b
    case FirstSession => "first_session"
    case FiveSessions => "five_sessions"
    case TenSessions => "ten_sessions"
    case FiftySessions => "fifty_sessions"
    case HundredSessions => "hundred_sessions"
    case OneHour => "one_hour"
    case TenHours => "ten_hours"
    case HundredHours => "hundred_hours"
    case ThreeDayStreak => "three_day_streak"
    case SevenDayStreak => "seven_day_streak"
    case ThirtyDayStreak => "thirty_day_streak"
    case HundredDayStreak => "hundred_day_streak"
    case MaxIntensity => "max_intensity"
    case TenMaxSessions => "ten_max_sessions"
    case NightOwl => "night_owl"
    case EarlyBird => "early_bird"
    case WeekendWarrior => "weekend_warrior"
  }

  function Icon(b: Badge): string {
    match b
    case FirstSession => "\U{1F3AF}"
    case FiveSessions => "\U{1F525}"
    case TenSessions => "\U{1F4AA}"
    case FiftySessions => "\U{1F3C6}"
    case HundredSessions => "\U{1F4AF}"
    case OneHour => "\U{23F0}"
    case TenHours => "\U{1F451}"
    case HundredHours => "\U{26A1}"
    case ThreeDayStreak => "\U{1F525}"
    case SevenDayStreak => "\U{1F4C5}"
    case ThirtyDayStreak => "\U{1F4C6}"
    case HundredDayStreak => "\U{1F4A5}"
    case MaxIntensity => "\U{1F31F}"
    case TenMaxSessions => "\U{1F4AA}"
    case NightOwl => "\U{1F989}"
    case EarlyBird => "\U{1F305}"
    case WeekendWarrior => "\U{1F3AE}"
  }

  /** The display name: a title followed by the badge's icon. */
  function Name(b: Badge): string {
    var title := match b
      case FirstSession => "First Goon!"
      case FiveSessions => "Getting Started"
      case TenSessions => "Dedicated Gooner"
      case FiftySessions => "Veteran Gooner"
      case HundredSessions => "Century Club"
      case OneHour => "Hour Hero"
      case TenHours => "Endurance King"
      case HundredHours => "Time Master"
      case ThreeDayStreak => "On Fire"
      case SevenDayStreak => "Week Warrior"
      case ThirtyDayStreak => "Monthly Master"
      case HundredDayStreak => "Unstoppable Force"
      case MaxIntensity => "Maximum Effort"
      case TenMaxSessions => "Intensity Beast"
      case NightOwl => "Night Owl"
      case EarlyBird => "Early Bird"
      case WeekendWarrior => "Weekend Warrior";
    title + " " + Icon(b)
  }

  function Description(b: Badge): string {
    match b
    case FirstSession => "Complete your first session"
    case FiveSessions => "Complete 5 sessions"
    case TenSessions => "Complete 10 sessions"
    case FiftySessions => "Complete 50 sessions"
    case HundredSessions => "Complete 100 sessions"
    case OneHour => "Accumulate 1 hour total"
    case TenHours => "Accumulate 10 hours total"
    case HundredHours => "Accumulate 100 hours total"
    case ThreeDayStreak => "Maintain a 3-day streak"
    case SevenDayStreak => "Maintain a 7-day streak"
    case ThirtyDayStreak => "Maintain a 30-day streak"
    case HundredDayStreak => "Maintain a 100-day streak"
    case MaxIntensity => "Complete a session at max intensity (10)"
    case TenMaxSessions => "Complete 10 sessions at max intensity"
    case NightOwl => "Complete a session between 12 AM - 5 AM"
    case EarlyBird => "Complete a session between 5 AM - 7 AM"
    case WeekendWarrior => "Complete 10 weekend sessions"
  }

  function CategoryOf(b: Badge): Category {
    match b
    case FirstSession | FiveSessions | TenSessions | FiftySessions | HundredSessions => MilestoneCategory
    case OneHour | TenHours | HundredHours => DurationCategory
    case ThreeDayStreak | SevenDayStreak | ThirtyDayStreak | HundredDayStreak => StreakCategory
    case MaxIntensity | TenMaxSessions => IntensityCategory
    case NightOwl | EarlyBird | WeekendWarrior => SpecialCategory
  }

  /** The table's keys in declaration order. */
  const AllBadges: seq<Badge> := [
    FirstSession, FiveSessions, TenSessions, FiftySessions, HundredSessions,
    OneHour, TenHours, HundredHours,
    ThreeDayStreak, SevenDayStreak, ThirtyDayStreak, HundredDayStreak,
    MaxIntensity, TenMaxSessions,
    NightOwl, EarlyBird, WeekendWarrior]

  /** The table's seventeen keys are distinct, so no badge is listed twice. */
  lemma KeysDistinct()
    ensures forall i, j :: 0 <= i < j < |AllBadges| ==> Key(AllBadges[i]) != Key(AllBadges[j])
  {
  }

  /** The table lists every badge, in seventeen entries. */
  lemma TableComplete()
    ensures |AllBadges| == 17
    ensures forall b: Badge :: b in AllBadges
  {
    forall b: Badge ensures b in AllBadges {
      match b
      case FirstSession => assert AllBadges[0] == b;
      case FiveSessions => assert AllBadges[1] == b;
      case TenSessions => assert AllBadges[2] == b;
      case FiftySessions => assert AllBadges[3] == b;
      case HundredSessions => assert AllBadges[4] == b;
      case OneHour => assert AllBadges[5] == b;
      case TenHours => assert AllBadges[6] == b;
      case HundredHours => assert AllBadges[7] == b;
      case ThreeDayStreak => assert AllBadges[8] == b;
      case SevenDayStreak => assert AllBadges[9] == b;
      case ThirtyDayStreak => assert AllBadges[10] == b;
      case HundredDayStreak => assert AllBadges[11] == b;
      case MaxIntensity => assert AllBadges[12] == b;
      case TenMaxSessions => assert AllBadges[13] == b;
      case NightOwl => assert AllBadges[14] == b;
      case EarlyBird => assert AllBadges[15] == b;
      case WeekendWarrior => assert AllBadges[16] == b;
    }
  }

  /** The user's sessions with an end time, in table order. */
  function Finished(sessions: seq<Row<Session>>, uid: nat): (r: seq<Row<Session>>)
    ensures forall x :: x in r <==> x in sessions && x.userId == uid && x.doc.endTime.Some?
  {
    if sessions == [] then []
    else
      (if sessions[0].userId == uid && sessions[0].doc.endTime.Some? then [sessions[0]] else [])
      + Finished(sessions[1..], uid)
  }

  /** Total seconds: the sum of `duration || 0`. */
  function Seconds(ss: seq<Row<Session>>): int {
    if ss == [] then 0 else Seconds(ss[..|ss| - 1]) + DurationOf(ss[|ss| - 1].doc)
  }

  /** Sessions at intensity exactly 10. */
  function MaxCount(ss: seq<Row<Session>>): nat {
    if ss == [] then 0 else MaxCount(ss[..|ss| - 1]) + (if ss[|ss| - 1].doc.intensity == 10 then 1 else 0)
  }

  predicate Weekend(s: Session, lt: LocalTime) {
    lt.dayOf(s.startTime) == 0 || lt.dayOf(s.startTime) == 6
  }

  function WeekendCount(ss: seq<Row<Session>>, lt: LocalTime): nat {
    if ss == [] then 0 else WeekendCount(ss[..|ss| - 1], lt) + (if Weekend(ss[|ss| - 1].doc, lt) then 1 else 0)
  }

  predicate Night(s: Session, lt: LocalTime) { lt.hourOf(s.startTime) < 5 }
  predicate Early(s: Session, lt: LocalTime) { 5 <= lt.hourOf(s.startTime) < 7 }

  function NightCount(ss: seq<Row<Session>>, lt: LocalTime): nat {
    if ss == [] then 0 else NightCount(ss[..|ss| - 1], lt) + (if Night(ss[|ss| - 1].doc, lt) then 1 else 0)
  }

  function EarlyCount(ss: seq<Row<Session>>, lt: LocalTime): nat {
    if ss == [] then 0 else EarlyCount(ss[..|ss| - 1], lt) + (if Early(ss[|ss| - 1].doc, lt) then 1 else 0)
  }

  /** One `unlock(type, metadata)` call. */
  datatype Call = Call(badge: Badge, meta: Option<nat>)

  /** The call `c` if its guard holds, and no call otherwise. */
  function Maybe(guard: bool, c: Call): seq<Call> {
    if guard then [c] else []
  }

  /** A guarded call without metadata. */
  function When(guard: bool, b: Badge): seq<Call> {
    Maybe(guard, Call(b, None))
  }

  /** The calls one session makes in the time-of-day loop. */
  function SessionCalls(r: Row<Session>, lt: LocalTime): seq<Call> {
    Maybe(Night(r.doc, lt), Call(NightOwl, Some(r.id))) + Maybe(Early(r.doc, lt), Call(EarlyBird, Some(r.id)))
  }

  function LoopCalls(ss: seq<Row<Session>>, lt: LocalTime): seq<Call> {
    if ss == [] then [] else LoopCalls(ss[..|ss| - 1], lt) + SessionCalls(ss[|ss| - 1], lt)
  }

  /** Session-count milestones. */
  function MilestoneCalls(n: nat): seq<Call> {
    When(n >= 1, FirstSession) + When(n >= 5, FiveSessions) + When(n >= 10, TenSessions)
    + When(n >= 50, FiftySessions) + When(n >= 100, HundredSessions)
  }

  /** Total seconds against whole hours: `totalSeconds / 3600 >= h` in
      exact arithmetic is `totalSeconds >= 3600 * h`. */
  function HourCalls(secs: int): seq<Call> {
    When(secs >= 3600, OneHour) + When(secs >= 36000, TenHours) + When(secs >= 360000, HundredHours)
  }

  function StreakCalls(streak: int): seq<Call> {
    When(streak >= 3, ThreeDayStreak) + When(streak >= 7, SevenDayStreak)
    + When(streak >= 30, ThirtyDayStreak) + When(streak >= 100, HundredDayStreak)
  }

  /** Sessions at intensity 10. */
  function IntensityCalls(maxes: nat): seq<Call> {
    When(maxes >= 1, MaxIntensity) + When(maxes >= 10, TenMaxSessions)
  }

  /** Every `unlock(type, metadata)` call of one evaluation, in order. */
  function Calls(ss: seq<Row<Session>>, u: User, lt: LocalTime): seq<Call> {
    MilestoneCalls(|ss|) + HourCalls(Seconds(ss)) + StreakCalls(u.currentStreak) + IntensityCalls(MaxCount(ss))
    + LoopCalls(ss, lt)
    + When(WeekendCount(ss, lt) >= 10, WeekendWarrior)
  }

  /** The badges a user holds: the types of their achievement records. */
  function Held(achievements: seq<Row<Achievement>>, uid: nat): set<Badge> {
    set r | r in achievements && r.userId == uid :: r.doc.badge
  }

  /** The badges of the calls that insert, in call order: those not held
      before the evaluation. */
  function Newly(held: set<Badge>, cs: seq<Call>): seq<Badge> {
    if cs == [] then []
    else Newly(held, cs[..|cs| - 1]) + (if cs[|cs| - 1].badge in held then [] else [cs[|cs| - 1].badge])
  }

  function NoticeFor(b: Badge, now: int): Notification {
    Notification("Achievement Unlocked! \U{1F389}", Icon(b) + " " + Name(b) + ": " + Description(b),
                 AchievementNotice, false, now, None)
  }

  /** One unlock that inserts: the achievement record, then its notification. */
  function InsertPair(t: Tables, uid: nat, c: Call, now: int): Tables {
    t.(achievements := t.achievements + [Row(t.nextId, uid, Achievement(c.badge, now, c.meta))],
       notifications := t.notifications + [Row(t.nextId + 1, uid, NoticeFor(c.badge, now))],
       nextId := t.nextId + 2)
  }

  /** The tables after running `cs` against a fixed held set. */
  function Applied(t: Tables, uid: nat, held: set<Badge>, cs: seq<Call>, now: int): Tables {
    if cs == [] then t
    else
      var prev := Applied(t, uid, held, cs[..|cs| - 1], now);
      var c := cs[|cs| - 1];
      if c.badge in held then prev else InsertPair(prev, uid, c, now)
  }

  datatype Evaluation = Evaluation(tables: Tables, unlocked: seq<Badge>)

  /** `checkAndUnlockAchievements`: nothing for an unknown user. */
  function Evaluate(t: Tables, uid: nat, now: int, lt: LocalTime): Evaluation {
    match FindUser(t.users, uid)
    case None => Evaluation(t, [])
    case Some(u) =>
      var held := Held(t.achievements, uid);
      var cs := Calls(Finished(t.sessions, uid), u, lt);
      Evaluation(Applied(t, uid, held, cs, now), Newly(held, cs))
  }

  lemma InsertPairWellFormed(t: Tables, uid: nat, c: Call, now: int)
    requires WellFormed(t)
    ensures WellFormed(InsertPair(t, uid, c, now))
  {
    var a := Row(t.nextId, uid, Achievement(c.badge, now, c.meta));
    var n := Row(t.nextId + 1, uid, NoticeFor(c.badge, now));
    AppendOrdered(t.achievements, a, t.nextId);
    AppendOrdered(t.notifications, n, t.nextId);
    var t' := InsertPair(t, uid, c, now);
    assert IdsBelow(t'.achievements, t'.nextId) && IdsBelow(t'.notifications, t'.nextId);
    assert IdsBelow(t'.sessions, t'.nextId) && IdsBelow(t'.settings, t'.nextId);
    assert IdsBelow(t'.chatMessages, t'.nextId) && IdsBelow(t'.insights, t'.nextId);
    assert UserIdsBelow(t'.users, t'.nextId);
  }

  /** What the evaluator has done after the calls `done`. */
  ghost predicate Progressed(t: Tables, t0: Tables, uid: nat, held: set<Badge>, done: seq<Call>,
                             now: int, newly: seq<Badge>)
  {
    t == Applied(t0, uid, held, done, now) && newly == Newly(held, done)
  }

  /** Replaying calls keeps every table in id order with fresh ids. */
  lemma {:induction false} AppliedWellFormed(t0: Tables, uid: nat, held: set<Badge>, cs: seq<Call>, now: int)
    requires WellFormed(t0)
    ensures WellFormed(Applied(t0, uid, held, cs, now))
  {
    if cs != [] {
      AppliedWellFormed(t0, uid, held, cs[..|cs| - 1], now);
      InsertPairWellFormed(Applied(t0, uid, held, cs[..|cs| - 1], now), uid, cs[|cs| - 1], now);
    }
  }

  /** One more call extends the replay by at most one insertion. */
  lemma AppliedSnoc(t0: Tables, uid: nat, held: set<Badge>, done: seq<Call>, c: Call, now: int)
    ensures Applied(t0, uid, held, done + [c], now)
         == if c.badge in held then Applied(t0, uid, held, done, now)
            else InsertPair(Applied(t0, uid, held, done, now), uid, c, now)
    ensures Newly(held, done + [c])
         == Newly(held, done) + (if c.badge in held then [] else [c.badge])
  {
    assert (done + [c])[..|done|] == done;
  }

  /** The `unlock` closure when its guard holds: inserts the achievement and
      its notification unless the badge is in the held set read at the
      start of the evaluation. */
  method Unlock(db: Db, uid: nat, held: set<Badge>, c: Call, now: int, newly: seq<Badge>,
                ghost t0: Tables, ghost done: seq<Call>)
    returns (newly': seq<Badge>)
    requires Progressed(db.Snapshot(), t0, uid, held, done, now, newly)
    modifies db
    ensures Progressed(db.Snapshot(), t0, uid, held, done + [c], now, newly')
  {
    AppliedSnoc(t0, uid, held, done, c, now);
    if c.badge !in held {
      var id := db.nextId;
      db.achievements, db.notifications, db.nextId :=
        db.achievements + [Row(id, uid, Achievement(c.badge, now, c.meta))],
        db.notifications + [Row(id + 1, uid, NoticeFor(c.badge, now))],
        id + 2;
      newly' := newly + [c.badge];
    } else {
      newly' := newly;
    }
  }

  /** A guarded `unlock` call. */
  method UnlockIf(db: Db, uid: nat, held: set<Badge>, guard: bool, c: Call, now: int, newly: seq<Badge>,
                  ghost t0: Tables, ghost done: seq<Call>)
    returns (newly': seq<Badge>)
    requires Progressed(db.Snapshot(), t0, uid, held, done, now, newly)
    modifies db
    ensures Progressed(db.Snapshot(), t0, uid, held, done + Maybe(guard, c), now, newly')
  {
    if guard {
      newly' := Unlock(db, uid, held, c, now, newly, t0, done);
    } else {
      assert done + [] == done;
      newly' := newly;
    }
  }

  lemma MilestoneConcat(before: seq<Call>, n: nat)
    ensures before + Maybe(n >= 1, Call(FirstSession, None)) + Maybe(n >= 5, Call(FiveSessions, None)) + Maybe(n >= 10, Call(TenSessions, None)) + Maybe(n >= 50, Call(FiftySessions, None)) + Maybe(n >= 100, Call(HundredSessions, None))
         == before + MilestoneCalls(n)
  {
  }

  lemma HourConcat(before: seq<Call>, secs: int)
    ensures before + Maybe(secs >= 3600, Call(OneHour, None)) + Maybe(secs >= 36000, Call(TenHours, None)) + Maybe(secs >= 360000, Call(HundredHours, None))
         == before + HourCalls(secs)
  {
  }

  lemma StreakConcat(before: seq<Call>, streak: int)
    ensures before + Maybe(streak >= 3, Call(ThreeDayStreak, None)) + Maybe(streak >= 7, Call(SevenDayStreak, None)) + Maybe(streak >= 30, Call(ThirtyDayStreak, None)) + Maybe(streak >= 100, Call(HundredDayStreak, None))
         == before + StreakCalls(streak)
  {
  }

  lemma IntensityConcat(before: seq<Call>, maxes: nat)
    ensures before + Maybe(maxes >= 1, Call(MaxIntensity, None)) + Maybe(maxes >= 10, Call(TenMaxSessions, None))
         == before + IntensityCalls(maxes)
  {
  }

  /** The session-count checks. */
  method UnlockMilestones(db: Db, uid: nat, held: set<Badge>, n: nat, now: int, newly: seq<Badge>,
                          ghost t0: Tables, ghost before: seq<Call>)
    returns (newly': seq<Badge>)
    requires Progressed(db.Snapshot(), t0, uid, held, before, now, newly)
    modifies db
    ensures Progressed(db.Snapshot(), t0, uid, held, before + MilestoneCalls(n), now, newly')
  {
    ghost var done := before;
    newly' := newly;
    newly' := UnlockIf(db, uid, held, n >= 1, Call(FirstSession, None), now, newly', t0, done);
    done := done + Maybe(n >= 1, Call(FirstSession, None));
    newly' := UnlockIf(db, uid, held, n >= 5, Call(FiveSessions, None), now, newly', t0, done);
    done := done + Maybe(n >= 5, Call(FiveSessions, None));
    newly' := UnlockIf(db, uid, held, n >= 10, Call(TenSessions, None), now, newly', t0, done);
    done := done + Maybe(n >= 10, Call(TenSessions, None));
    newly' := UnlockIf(db, uid, held, n >= 50, Call(FiftySessions, None), now, newly', t0, done);
    done := done + Maybe(n >= 50, Call(FiftySessions, None));
    newly' := UnlockIf(db, uid, held, n >= 100, Call(HundredSessions, None), now, newly', t0, done);
    done := done + Maybe(n >= 100, Call(HundredSessions, None));
    MilestoneConcat(before, n);
  }

  /** The total-time checks. */
  method UnlockHours(db: Db, uid: nat, held: set<Badge>, secs: int, now: int, newly: seq<Badge>,
                     ghost t0: Tables, ghost before: seq<Call>)
    returns (newly': seq<Badge>)
    requires Progressed(db.Snapshot(), t0, uid, held, before, now, newly)
    modifies db
    ensures Progressed(db.Snapshot(), t0, uid, held, before + HourCalls(secs), now, newly')
  {
    ghost var done := before;
    newly' := newly;
    newly' := UnlockIf(db, uid, held, secs >= 3600, Call(OneHour, None), now, newly', t0, done);
    done := done + Maybe(secs >= 3600, Call(OneHour, None));
    newly' := UnlockIf(db, uid, held, secs >= 36000, Call(TenHours, None), now, newly', t0, done);
    done := done + Maybe(secs >= 36000, Call(TenHours, None));
    newly' := UnlockIf(db, uid, held, secs >= 360000, Call(HundredHours, None), now, newly', t0, done);
    done := done + Maybe(secs >= 360000, Call(HundredHours, None));
    HourConcat(before, secs);
  }

  /** The current-streak checks. */
  method UnlockStreaks(db: Db, uid: nat, held: set<Badge>, streak: int, now: int, newly: seq<Badge>,
                       ghost t0: Tables, ghost before: seq<Call>)
    returns (newly': seq<Badge>)
    requires Progressed(db.Snapshot(), t0, uid, held, before, now, newly)
    modifies db
    ensures Progressed(db.Snapshot(), t0, uid, held, before + StreakCalls(streak), now, newly')
  {
    ghost var done := before;
    newly' := newly;
    newly' := UnlockIf(db, uid, held, streak >= 3, Call(ThreeDayStreak, None), now, newly', t0, done);
    done := done + Maybe(streak >= 3, Call(ThreeDayStreak, None));
    newly' := UnlockIf(db, uid, held, streak >= 7, Call(SevenDayStreak, None), now, newly', t0, done);
    done := done + Maybe(streak >= 7, Call(SevenDayStreak, None));
    newly' := UnlockIf(db, uid, held, streak >= 30, Call(ThirtyDayStreak, None), now, newly', t0, done);
    done := done + Maybe(streak >= 30, Call(ThirtyDayStreak, None));
    newly' := UnlockIf(db, uid, held, streak >= 100, Call(HundredDayStreak, None), now, newly', t0, done);
    done := done + Maybe(streak >= 100, Call(HundredDayStreak, None));
    StreakConcat(before, streak);
  }

  /** The maximum-intensity checks. */
  method UnlockIntensity(db: Db, uid: nat, held: set<Badge>, maxes: nat, now: int, newly: seq<Badge>,
                         ghost t0: Tables, ghost before: seq<Call>)
    returns (newly': seq<Badge>)
    requires Progressed(db.Snapshot(), t0, uid, held, before, now, newly)
    modifies db
    ensures Progressed(db.Snapshot(), t0, uid, held, before + IntensityCalls(maxes), now, newly')
  {
    ghost var done := before;
    newly' := newly;
    newly' := UnlockIf(db, uid, held, maxes >= 1, Call(MaxIntensity, None), now, newly', t0, done);
    done := done + Maybe(maxes >= 1, Call(MaxIntensity, None));
    newly' := UnlockIf(db, uid, held, maxes >= 10, Call(TenMaxSessions, None), now, newly', t0, done);
    done := done + Maybe(maxes >= 10, Call(TenMaxSessions, None));
    IntensityConcat(before, maxes);
  }

  /** One more session extends the loop's calls by that session's calls. */
  lemma LoopCallsSnoc(before: seq<Call>, ss: seq<Row<Session>>, i: nat, lt: LocalTime)
    requires i < |ss|
    ensures before + LoopCalls(ss[..i], lt)
              + Maybe(Night(ss[i].doc, lt), Call(NightOwl, Some(ss[i].id)))
              + Maybe(Early(ss[i].doc, lt), Call(EarlyBird, Some(ss[i].id)))
         == before + LoopCalls(ss[..i + 1], lt)
  {
    assert ss[..i + 1][..i] == ss[..i];
  }

  /** The loop over finished sessions: a night-owl call for a start before
      05:00 local time and an early-bird call for one in [05:00, 07:00),
      each carrying the session's id. */
  method UnlockTimeOfDay(db: Db, uid: nat, held: set<Badge>, sessions: seq<Row<Session>>, lt: LocalTime,
                         now: int, newly: seq<Badge>, ghost t0: Tables, ghost before: seq<Call>)
    returns (newly': seq<Badge>)
    requires Progressed(db.Snapshot(), t0, uid, held, before, now, newly)
    modifies db
    ensures Progressed(db.Snapshot(), t0, uid, held, before + LoopCalls(sessions, lt), now, newly')
  {
    newly' := newly;
    ghost var done := before;
    var i := 0;
    while i < |sessions|
      invariant 0 <= i <= |sessions|
      invariant done == before + LoopCalls(sessions[..i], lt)
      invariant Progressed(db.Snapshot(), t0, uid, held, done, now, newly')
    {
      var s := sessions[i];
      newly' := UnlockIf(db, uid, held, Night(s.doc, lt), Call(NightOwl, Some(s.id)), now, newly', t0, done);
      done := done + Maybe(Night(s.doc, lt), Call(NightOwl, Some(s.id)));
      newly' := UnlockIf(db, uid, held, Early(s.doc, lt), Call(EarlyBird, Some(s.id)), now, newly', t0, done);
      done := done + Maybe(Early(s.doc, lt), Call(EarlyBird, Some(s.id)));
      LoopCallsSnoc(before, sessions, i, lt);
      i := i + 1;
    }
    assert sessions[..i] == sessions;
  }

  lemma CallsConcat(ss: seq<Row<Session>>, u: User, lt: LocalTime)
    ensures MilestoneCalls(|ss|) + HourCalls(Seconds(ss)) + StreakCalls(u.currentStreak)
            + IntensityCalls(MaxCount(ss)) + LoopCalls(ss, lt)
            + Maybe(WeekendCount(ss, lt) >= 10, Call(WeekendWarrior, None))
         == Calls(ss, u, lt)
  {
  }

  /** Every check of one evaluation, in the order the source makes them. */
  method UnlockAll(db: Db, uid: nat, held: set<Badge>, sessions: seq<Row<Session>>, u: User,
                   lt: LocalTime, now: int, ghost t0: Tables)
    returns (unlocked: seq<Badge>)
    requires db.Snapshot() == t0
    modifies db
    ensures Progressed(db.Snapshot(), t0, uid, held, Calls(sessions, u, lt), now, unlocked)
  {
    ghost var done: seq<Call> := [];
    unlocked := UnlockMilestones(db, uid, held, |sessions|, now, [], t0, done);
    assert done + MilestoneCalls(|sessions|) == MilestoneCalls(|sessions|);
    done := MilestoneCalls(|sessions|);
    unlocked := UnlockHours(db, uid, held, Seconds(sessions), now, unlocked, t0, done);
    done := done + HourCalls(Seconds(sessions));
    unlocked := UnlockStreaks(db, uid, held, u.currentStreak, now, unlocked, t0, done);
    done := done + StreakCalls(u.currentStreak);
    unlocked := UnlockIntensity(db, uid, held, MaxCount(sessions), now, unlocked, t0, done);
    done := done + IntensityCalls(MaxCount(sessions));
    unlocked := UnlockTimeOfDay(db, uid, held, sessions, lt, now, unlocked, t0, done);
    done := done + LoopCalls(sessions, lt);
    var weekend := WeekendCount(sessions, lt);
    unlocked := UnlockIf(db, uid, held, weekend >= 10, Call(WeekendWarrior, None), now, unlocked, t0, done);
    done := done + Maybe(weekend >= 10, Call(WeekendWarrior, None));
    CallsConcat(sessions, u, lt);
  }

  /** `checkAndUnlockAchievements` on the store. */
  method CheckAndUnlockAchievements(db: Db, uid: nat, now: int, lt: LocalTime) returns (unlocked: seq<Badge>)
    requires db.Valid()
    modifies db
    ensures db.Valid()
    ensures var e := Evaluate(old(db.Snapshot()), uid, now, lt);
      db.Snapshot() == e.tables && unlocked == e.unlocked
  {
    var user := FindUser(db.users, uid);
    if user.None? {
      return [];
    }
    ghost var t0 := db.Snapshot();
    var held := Held(db.achievements, uid);
    unlocked := UnlockAll(db, uid, held, Finished(db.sessions, uid), user.value, lt, now, t0);
    AppliedWellFormed(t0, uid, held, Calls(Finished(t0.sessions, uid), user.value, lt), now);
    Validated(db);
  }

  // ---------------------------------------------------------------------
  // What one evaluation does

  /** Replaying calls appends rows only to the achievements and
      notifications tables, one of each per unlocked badge, and hands out
      two ids per unlock. */
  lemma {:induction false} AppliedTables(t: Tables, uid: nat, held: set<Badge>, cs: seq<Call>, now: int)
    ensures var r := Applied(t, uid, held, cs, now); var nb := Newly(held, cs);
      && r.users == t.users && r.sessions == t.sessions && r.settings == t.settings
      && r.chatMessages == t.chatMessages && r.insights == t.insights
      && |r.achievements| == |t.achievements| + |nb|
      && |r.notifications| == |t.notifications| + |nb|
      && r.achievements[..|t.achievements|] == t.achievements
      && r.notifications[..|t.notifications|] == t.notifications
      && r.nextId == t.nextId + 2 * |nb|
  {
    if cs != [] {
      AppliedTables(t, uid, held, cs[..|cs| - 1], now);
    }
  }

  /** The k-th unlock writes the achievement record with id `nextId + 2k`
      and, right after it, its notification with id `nextId + 2k + 1`. */
  lemma {:induction false} AppliedRows(t: Tables, uid: nat, held: set<Badge>, cs: seq<Call>, now: int, k: nat)
    requires k < |Newly(held, cs)|
    ensures var r := Applied(t, uid, held, cs, now); var b := Newly(held, cs)[k];
      && |t.achievements| + k < |r.achievements| && |t.notifications| + k < |r.notifications|
      && r.achievements[|t.achievements| + k].id == t.nextId + 2 * k
      && r.achievements[|t.achievements| + k].userId == uid
      && r.achievements[|t.achievements| + k].doc.badge == b
      && r.achievements[|t.achievements| + k].doc.unlockedAt == now
      && r.notifications[|t.notifications| + k] == Row(t.nextId + 2 * k + 1, uid, NoticeFor(b, now))
  {
    var init := cs[..|cs| - 1];
    var c := cs[|cs| - 1];
    AppliedTables(t, uid, held, init, now);
    if c.badge in held || k < |Newly(held, init)| {
      AppliedRows(t, uid, held, init, now, k);
    }
  }

  /** Every call's badge ends up held or newly unlocked. */
  lemma {:induction false} CallsCovered(held: set<Badge>, cs: seq<Call>)
    ensures forall c :: c in cs ==> c.badge in held || c.badge in Newly(held, cs)
  {
    if cs != [] {
      CallsCovered(held, cs[..|cs| - 1]);
      forall c | c in cs ensures c.badge in held || c.badge in Newly(held, cs) {
        if c != cs[|cs| - 1] {
          assert c in cs[..|cs| - 1];
        }
      }
    }
  }

  /** Calls for held badges change nothing. */
  lemma {:induction false} AllHeld(t: Tables, uid: nat, held: set<Badge>, cs: seq<Call>, now: int)
    requires forall c :: c in cs ==> c.badge in held
    ensures Newly(held, cs) == [] && Applied(t, uid, held, cs, now) == t
  {
    if cs != [] {
      assert forall c :: c in cs[..|cs| - 1] ==> c in cs;
      AllHeld(t, uid, held, cs[..|cs| - 1], now);
    }
  }

  /** `checkAndUnlockAchievements` touches only the achievements and
      notifications tables: it appends one achievement record per entry of
      `unlocked`, in the same order, each followed by exactly one
      "achievement" notification. An unknown user changes nothing. */
  lemma EvaluateFootprint(t: Tables, uid: nat, now: int, lt: LocalTime, k: nat)
    ensures var e := Evaluate(t, uid, now, lt); var r := e.tables;
      && r.users == t.users && r.sessions == t.sessions && r.settings == t.settings
      && r.chatMessages == t.chatMessages && r.insights == t.insights
      && |r.achievements| == |t.achievements| + |e.unlocked|
      && |r.notifications| == |t.notifications| + |e.unlocked|
      && r.achievements[..|t.achievements|] == t.achievements
      && r.notifications[..|t.notifications|] == t.notifications
      && (FindUser(t.users, uid).None? ==> r == t && e.unlocked == [])
      && (k < |e.unlocked| ==>
            && r.achievements[|t.achievements| + k].userId == uid
            && r.achievements[|t.achievements| + k].doc.badge == e.unlocked[k]
            && r.achievements[|t.achievements| + k].doc.unlockedAt == now
            && r.notifications[|t.notifications| + k].id == r.achievements[|t.achievements| + k].id + 1
            && r.notifications[|t.notifications| + k].doc == NoticeFor(e.unlocked[k], now)
            && r.notifications[|t.notifications| + k].doc.kind == AchievementNotice
            && !r.notifications[|t.notifications| + k].doc.read)
  {
    match FindUser(t.users, uid)
    case None =>
    case Some(u) =>
      var held := Held(t.achievements, uid);
      var cs := Calls(Finished(t.sessions, uid), u, lt);
      AppliedTables(t, uid, held, cs, now);
      if k < |Newly(held, cs)| {
        AppliedRows(t, uid, held, cs, now, k);
      }
  }

  /** Badges held before the replay are still held after it. */
  lemma HeldKept(t: Tables, uid: nat, held: set<Badge>, cs: seq<Call>, now: int)
    ensures Held(t.achievements, uid) <= Held(Applied(t, uid, held, cs, now).achievements, uid)
  {
    var t1 := Applied(t, uid, held, cs, now);
    AppliedTables(t, uid, held, cs, now);
    forall b | b in Held(t.achievements, uid) ensures b in Held(t1.achievements, uid) {
      var x :| x in t.achievements && x.userId == uid && x.doc.badge == b;
      var i :| 0 <= i < |t.achievements| && t.achievements[i] == x;
      assert t1.achievements[i] == x;
    }
  }

  /** Every badge the replay unlocks is held after it. */
  lemma NewlyHeld(t: Tables, uid: nat, held: set<Badge>, cs: seq<Call>, now: int)
    ensures forall b :: b in Newly(held, cs) ==> b in Held(Applied(t, uid, held, cs, now).achievements, uid)
  {
    var t1 := Applied(t, uid, held, cs, now);
    var nb := Newly(held, cs);
    forall b | b in nb ensures b in Held(t1.achievements, uid) {
      var k :| 0 <= k < |nb| && nb[k] == b;
      AppliedRows(t, uid, held, cs, now, k);
      assert t1.achievements[|t.achievements| + k] in t1.achievements;
    }
  }

  /** Evaluating again right after an evaluation unlocks nothing and
      writes nothing: every badge the first call asked for is now held. */
  lemma RerunUnlocksNothing(t: Tables, uid: nat, now: int, later: int, lt: LocalTime)
    ensures var t1 := Evaluate(t, uid, now, lt).tables;
      Evaluate(t1, uid, later, lt) == Evaluation(t1, [])
  {
    match FindUser(t.users, uid)
    case None =>
    case Some(u) =>
      var held := Held(t.achievements, uid);
      var cs := Calls(Finished(t.sessions, uid), u, lt);
      var nb := Newly(held, cs);
      var t1 := Applied(t, uid, held, cs, now);
      AppliedTables(t, uid, held, cs, now);
      var held1 := Held(t1.achievements, uid);
      HeldKept(t, uid, held, cs, now);
      NewlyHeld(t, uid, held, cs, now);
      CallsCovered(held, cs);
      AllHeld(t1, uid, held1, cs, later);
  }

  // ---------------------------------------------------------------------
  // How often each badge is unlocked

  /** How many of the calls are for badge `b`. */
  function CountOf(b: Badge, cs: seq<Call>): nat {
    if cs == [] then 0 else CountOf(b, cs[..|cs| - 1]) + (if cs[|cs| - 1].badge == b then 1 else 0)
  }

  lemma {:induction false} CountOfAppend(b: Badge, x: seq<Call>, y: seq<Call>)
    ensures CountOf(b, x + y) == CountOf(b, x) + CountOf(b, y)
  {
    if y == [] {
      assert x + y == x;
    } else {
      assert (x + y)[..|x + y| - 1] == x + y[..|y| - 1];
      CountOfAppend(b, x, y[..|y| - 1]);
    }
  }

  lemma CountOfMaybe(b: Badge, guard: bool, c: Call)
    ensures CountOf(b, Maybe(guard, c)) == if guard && c.badge == b then 1 else 0
  {
    if guard {
      assert Maybe(guard, c)[..0] == [];
    }
  }

  /** A held badge is never unlocked; any other badge is unlocked once for
      every call made for it. */
  lemma {:induction false} NewlyCount(held: set<Badge>, cs: seq<Call>, b: Badge)
    ensures multiset(Newly(held, cs))[b] == if b in held then 0 else CountOf(b, cs)
  {
    if cs != [] {
      NewlyCount(held, cs[..|cs| - 1], b);
    }
  }

  /** The threshold of each badge, in the unit of its measure. */
  function Threshold(b: Badge): nat {
    match b
    case FirstSession => 1
    case FiveSessions => 5
    case TenSessions => 10
    case FiftySessions => 50
    case HundredSessions => 100
    case OneHour => 3600
    case TenHours => 36000
    case HundredHours => 360000
    case ThreeDayStreak => 3
    case SevenDayStreak => 7
    case ThirtyDayStreak => 30
    case HundredDayStreak => 100
    case MaxIntensity => 1
    case TenMaxSessions => 10
    case NightOwl => 1
    case EarlyBird => 1
    case WeekendWarrior => 10
  }

  /** What a badge's threshold is compared with: finished sessions, total
      seconds, the stored current streak, sessions at intensity 10, or the
      number of night, early or weekend sessions. */
  function Measure(b: Badge, ss: seq<Row<Session>>, u: User, lt: LocalTime): int {
    match CategoryOf(b)
    case MilestoneCategory => |ss|
    case DurationCategory => Seconds(ss)
    case StreakCategory => u.currentStreak
    case IntensityCategory => MaxCount(ss)
    case SpecialCategory =>
      if b == NightOwl then NightCount(ss, lt)
      else if b == EarlyBird then EarlyCount(ss, lt)
      else WeekendCount(ss, lt)
  }

  /** The reference count: the time-of-day badges are asked for once per
      qualifying session; every other badge once if its measure reaches its
      threshold. */
  function Expected(b: Badge, ss: seq<Row<Session>>, u: User, lt: LocalTime): nat {
    if b == NightOwl then NightCount(ss, lt)
    else if b == EarlyBird then EarlyCount(ss, lt)
    else if Measure(b, ss, u, lt) >= Threshold(b) then 1 else 0
  }

  lemma MilestoneCount(b: Badge, n: nat)
    ensures CountOf(b, MilestoneCalls(n)) == if CategoryOf(b) == MilestoneCategory && n >= Threshold(b) then 1 else 0
  {
    var m1, m2, m3 := When(n >= 1, FirstSession), When(n >= 5, FiveSessions), When(n >= 10, TenSessions);
    var m4, m5 := When(n >= 50, FiftySessions), When(n >= 100, HundredSessions);
    CountOfAppend(b, m1, m2);
    CountOfAppend(b, m1 + m2, m3);
    CountOfAppend(b, m1 + m2 + m3, m4);
    CountOfAppend(b, m1 + m2 + m3 + m4, m5);
    CountOfMaybe(b, n >= 1, Call(FirstSession, None));
    CountOfMaybe(b, n >= 5, Call(FiveSessions, None));
    CountOfMaybe(b, n >= 10, Call(TenSessions, None));
    CountOfMaybe(b, n >= 50, Call(FiftySessions, None));
    CountOfMaybe(b, n >= 100, Call(HundredSessions, None));
  }

  lemma HourCount(b: Badge, secs: int)
    ensures CountOf(b, HourCalls(secs)) == if CategoryOf(b) == DurationCategory && secs >= Threshold(b) then 1 else 0
  {
    var m1, m2, m3 := When(secs >= 3600, OneHour), When(secs >= 36000, TenHours), When(secs >= 360000, HundredHours);
    CountOfAppend(b, m1, m2);
    CountOfAppend(b, m1 + m2, m3);
    CountOfMaybe(b, secs >= 3600, Call(OneHour, None));
    CountOfMaybe(b, secs >= 36000, Call(TenHours, None));
    CountOfMaybe(b, secs >= 360000, Call(HundredHours, None));
  }

  lemma StreakCount(b: Badge, streak: int)
    ensures CountOf(b, StreakCalls(streak)) == if CategoryOf(b) == StreakCategory && streak >= Threshold(b) then 1 else 0
  {
    var m1, m2 := When(streak >= 3, ThreeDayStreak), When(streak >= 7, SevenDayStreak);
    var m3, m4 := When(streak >= 30, ThirtyDayStreak), When(streak >= 100, HundredDayStreak);
    CountOfAppend(b, m1, m2);
    CountOfAppend(b, m1 + m2, m3);
    CountOfAppend(b, m1 + m2 + m3, m4);
    CountOfMaybe(b, streak >= 3, Call(ThreeDayStreak, None));
    CountOfMaybe(b, streak >= 7, Call(SevenDayStreak, None));
    CountOfMaybe(b, streak >= 30, Call(ThirtyDayStreak, None));
    CountOfMaybe(b, streak >= 100, Call(HundredDayStreak, None));
  }

  lemma IntensityCount(b: Badge, maxes: nat)
    ensures CountOf(b, IntensityCalls(maxes)) == if CategoryOf(b) == IntensityCategory && maxes >= Threshold(b) then 1 else 0
  {
    CountOfAppend(b, When(maxes >= 1, MaxIntensity), When(maxes >= 10, TenMaxSessions));
    CountOfMaybe(b, maxes >= 1, Call(MaxIntensity, None));
    CountOfMaybe(b, maxes >= 10, Call(TenMaxSessions, None));
  }

  /** The session loop asks for the night-owl badge once per night session
      and for the early-bird badge once per early session, and for nothing
      else. */
  lemma {:induction false} LoopCount(b: Badge, ss: seq<Row<Session>>, lt: LocalTime)
    ensures CountOf(b, LoopCalls(ss, lt))
         == if b == NightOwl then NightCount(ss, lt) else if b == EarlyBird then EarlyCount(ss, lt) else 0
  {
    if ss != [] {
      var last := ss[|ss| - 1];
      LoopCount(b, ss[..|ss| - 1], lt);
      CountOfAppend(b, LoopCalls(ss[..|ss| - 1], lt), SessionCalls(last, lt));
      CountOfAppend(b, Maybe(Night(last.doc, lt), Call(NightOwl, Some(last.id))),
                       Maybe(Early(last.doc, lt), Call(EarlyBird, Some(last.id))));
      CountOfMaybe(b, Night(last.doc, lt), Call(NightOwl, Some(last.id)));
      CountOfMaybe(b, Early(last.doc, lt), Call(EarlyBird, Some(last.id)));
    }
  }

  /** One evaluation asks for each badge exactly as often as the reference
      count says. */
  lemma CallsCount(b: Badge, ss: seq<Row<Session>>, u: User, lt: LocalTime)
    ensures CountOf(b, Calls(ss, u, lt)) == Expected(b, ss, u, lt)
  {
    CallsSum(b, ss, u, lt);
    MilestoneCount(b, |ss|);
    HourCount(b, Seconds(ss));
    StreakCount(b, u.currentStreak);
    IntensityCount(b, MaxCount(ss));
    LoopCount(b, ss, lt);
    CountOfMaybe(b, WeekendCount(ss, lt) >= 10, Call(WeekendWarrior, None));
    ExpectedSplit(b, ss, u, lt);
  }

  /** The reference count as a sum of one term per group of checks, at most
      one of which is non-zero for a given badge. */
  lemma ExpectedSplit(b: Badge, ss: seq<Row<Session>>, u: User, lt: LocalTime)
    ensures Expected(b, ss, u, lt)
         == (if CategoryOf(b) == MilestoneCategory && |ss| >= Threshold(b) then 1 else 0)
          + (if CategoryOf(b) == DurationCategory && Seconds(ss) >= Threshold(b) then 1 else 0)
          + (if CategoryOf(b) == StreakCategory && u.currentStreak >= Threshold(b) then 1 else 0)
          + (if CategoryOf(b) == IntensityCategory && MaxCount(ss) >= Threshold(b) then 1 else 0)
          + (if b == NightOwl then NightCount(ss, lt) else if b == EarlyBird then EarlyCount(ss, lt) else 0)
          + (if WeekendCount(ss, lt) >= 10 && b == WeekendWarrior then 1 else 0)
  {
    match CategoryOf(b)
    case MilestoneCategory =>
    case DurationCategory =>
    case StreakCategory =>
    case IntensityCategory =>
    case SpecialCategory =>
  }

  lemma CallsSum(b: Badge, ss: seq<Row<Session>>, u: User, lt: LocalTime)
    ensures CountOf(b, Calls(ss, u, lt))
         == CountOf(b, MilestoneCalls(|ss|)) + CountOf(b, HourCalls(Seconds(ss)))
            + CountOf(b, StreakCalls(u.currentStreak)) + CountOf(b, IntensityCalls(MaxCount(ss)))
            + CountOf(b, LoopCalls(ss, lt)) + CountOf(b, When(WeekendCount(ss, lt) >= 10, WeekendWarrior))
  {
    var m, h, st := MilestoneCalls(|ss|), HourCalls(Seconds(ss)), StreakCalls(u.currentStreak);
    var i, l := IntensityCalls(MaxCount(ss)), LoopCalls(ss, lt);
    var w := When(WeekendCount(ss, lt) >= 10, WeekendWarrior);
    CountOfAppend(b, m, h);
    CountOfAppend(b, m + h, st);
    CountOfAppend(b, m + h + st, i);
    CountOfAppend(b, m + h + st + i, l);
    CountOfAppend(b, m + h + st + i + l, w);
  }

  /** For a known user, `unlocked` lists a badge held before the call
      never, a time-of-day badge once per qualifying finished session, and
      any other badge once exactly when its measure reaches its threshold. */
  lemma UnlockedMultiplicity(t: Tables, uid: nat, now: int, lt: LocalTime, u: User, b: Badge)
    requires FindUser(t.users, uid) == Some(u)
    ensures var ss := Finished(t.sessions, uid);
      multiset(Evaluate(t, uid, now, lt).unlocked)[b]
        == if b in Held(t.achievements, uid) then 0 else Expected(b, ss, u, lt)
    ensures b != NightOwl && b != EarlyBird ==> multiset(Evaluate(t, uid, now, lt).unlocked)[b] <= 1
  {
    var ss := Finished(t.sessions, uid);
    NewlyCount(Held(t.achievements, uid), Calls(ss, u, lt), b);
    CallsCount(b, ss, u, lt);
  }

  /** Within one category of thresholds, unlocking a badge means every
      badge with a lower threshold is held or unlocked in the same call:
      five sessions' badge never comes without the first session's. */
  lemma LowerThresholdsFollow(t: Tables, uid: nat, now: int, lt: LocalTime, lo: Badge, hi: Badge)
    requires CategoryOf(lo) == CategoryOf(hi) != SpecialCategory
    requires Threshold(lo) <= Threshold(hi)
    requires hi in Evaluate(t, uid, now, lt).unlocked
    ensures lo in Held(t.achievements, uid) || lo in Evaluate(t, uid, now, lt).unlocked
  {
    var u := FindUser(t.users, uid).value;
    var ss := Finished(t.sessions, uid);
    UnlockedMultiplicity(t, uid, now, lt, u, hi);
    UnlockedMultiplicity(t, uid, now, lt, u, lo);
    ExpectedMonotone(lo, hi, ss, u, lt);
  }

  /** Within one threshold category, reaching a threshold means reaching
      every lower one. */
  lemma ExpectedMonotone(lo: Badge, hi: Badge, ss: seq<Row<Session>>, u: User, lt: LocalTime)
    requires CategoryOf(lo) == CategoryOf(hi) != SpecialCategory
    requires Threshold(lo) <= Threshold(hi)
    ensures Expected(hi, ss, u, lt) > 0 ==> Expected(lo, ss, u, lt) == 1
  {
    assert lo != NightOwl && lo != EarlyBird && hi != NightOwl && hi != EarlyBird;
    assert Measure(lo, ss, u, lt) == Measure(hi, ss, u, lt);
  }

  /** With exactly five finished sessions and no badges held, the first two
      milestones are unlocked and the third is not. */
  lemma FiveSessionsExample(t: Tables, uid: nat, now: int, lt: LocalTime, u: User)
    requires FindUser(t.users, uid) == Some(u)
    requires |Finished(t.sessions, uid)| == 5
    requires Held(t.achievements, uid) == {}
    ensures var r := Evaluate(t, uid, now, lt).unlocked;
      FirstSession in r && FiveSessions in r && TenSessions !in r
  {
    UnlockedIff(t, uid, now, lt, u, FirstSession);
    UnlockedIff(t, uid, now, lt, u, FiveSessions);
    UnlockedIff(t, uid, now, lt, u, TenSessions);
  }

  /** For a known user, a badge other than the time-of-day ones is unlocked
      exactly when it was not held and its measure reaches its threshold. */
  lemma UnlockedIff(t: Tables, uid: nat, now: int, lt: LocalTime, u: User, b: Badge)
    requires FindUser(t.users, uid) == Some(u)
    requires b != NightOwl && b != EarlyBird
    ensures b in Evaluate(t, uid, now, lt).unlocked
        <==> b !in Held(t.achievements, uid) && Measure(b, Finished(t.sessions, uid), u, lt) >= Threshold(b)
  {
    UnlockedMultiplicity(t, uid, now, lt, u, b);
  }

  // ---------------------------------------------------------------------
  // Queries

  /** One entry of `getUserAchievements`: the table entry and its status. */
  datatype Status = Status(badge: Badge, key: string, name: string, description: string, icon: string,
                           category: Category, unlocked: bool, unlockedAt: Option<int>)

  predicate OfType(x: Row<Achievement>, uid: nat, b: Badge) {
    x.userId == uid && x.doc.badge == b
  }

  /** The position of the user's first record of type `b` (`find`), or the
      table's length when there is none. */
  function FirstIndexOf(rows: seq<Row<Achievement>>, uid: nat, b: Badge): (r: nat)
    ensures r <= |rows|
    ensures r < |rows| ==> OfType(rows[r], uid, b)
    ensures forall j :: 0 <= j < r ==> !OfType(rows[j], uid, b)
  {
    if rows == [] then 0
    else if OfType(rows[0], uid, b) then 0
    else 1 + FirstIndexOf(rows[1..], uid, b)
  }

  function StatusOf(rows: seq<Row<Achievement>>, uid: nat, b: Badge): Status {
    var k := FirstIndexOf(rows, uid, b);
    Status(b, Key(b), Name(b), Description(b), Icon(b), CategoryOf(b),
           b in Held(rows, uid), if k < |rows| then Some(rows[k].doc.unlockedAt) else None)
  }

  /** `getUserAchievements`: every table entry in table order with its
      unlock status. */
  function GetUserAchievements(rows: seq<Row<Achievement>>, uid: nat): seq<Status> {
    seq(|AllBadges|, i requires 0 <= i < |AllBadges| => StatusOf(rows, uid, AllBadges[i]))
  }

  /** One entry per badge, in table order; an entry is unlocked exactly when
      the user has a record of its type, and then carries the unlock time of
      the user's earliest such record. */
  lemma UserAchievementsFacts(rows: seq<Row<Achievement>>, uid: nat, i: nat)
    requires i < 17
    ensures var r := GetUserAchievements(rows, uid); var b := AllBadges[i];
      && |r| == 17
      && r[i].badge == b && r[i].key == Key(b) && r[i].name == Name(b)
      && (r[i].unlocked <==> exists x :: x in rows && OfType(x, uid, b))
      && (r[i].unlocked <==> r[i].unlockedAt.Some?)
      && (r[i].unlocked ==>
            exists j :: 0 <= j < |rows| && OfType(rows[j], uid, b)
                        && rows[j].doc.unlockedAt == r[i].unlockedAt.value
                        && forall j' :: 0 <= j' < j ==> !OfType(rows[j'], uid, b))
  {
    var b := AllBadges[i];
    var k := FirstIndexOf(rows, uid, b);
    if b in Held(rows, uid) {
      var x :| x in rows && x.userId == uid && x.doc.badge == b;
      var j :| 0 <= j < |rows| && rows[j] == x;
      assert k <= j;
    }
  }

  /** `getAchievementProgress`. Total time is reported in whole tenths of
      an hour, `Math.floor(totalHours * 10) / 10`, kept here as the integer
      number of tenths. */
  datatype Progress = Progress(sessions: nat, totalTenths: int, currentStreak: int, longestStreak: int,
                               maxIntensitySessions: nat, weekendSessions: nat)

  function AchievementProgress(t: Tables, uid: nat, lt: LocalTime): Option<Progress> {
    match FindUser(t.users, uid)
    case None => None
    case Some(u) =>
      var ss := Finished(t.sessions, uid);
      Some(Progress(|ss|, FloorDiv(Seconds(ss), 360), u.currentStreak, u.longestStreak,
                    MaxCount(ss), WeekendCount(ss, lt)))
  }

  /** The progress figures agree with the evaluator: a threshold badge is
      asked for exactly when the reported figure reaches its threshold
      (total time compared in tenths of an hour). */
  lemma ProgressMatchesThresholds(t: Tables, uid: nat, lt: LocalTime, b: Badge)
    requires FindUser(t.users, uid).Some?
    requires b != NightOwl && b != EarlyBird
    ensures var u := FindUser(t.users, uid).value; var p := AchievementProgress(t, uid, lt).value;
      var ss := Finished(t.sessions, uid);
      && 360 * p.totalTenths <= Seconds(ss) < 360 * p.totalTenths + 360
      && (Expected(b, ss, u, lt) == 1 <==>
            match CategoryOf(b)
            case MilestoneCategory => p.sessions >= Threshold(b)
            case DurationCategory => p.totalTenths >= Threshold(b) / 360
            case StreakCategory => p.currentStreak >= Threshold(b)
            case IntensityCategory => p.maxIntensitySessions >= Threshold(b)
            case SpecialCategory => p.weekendSessions >= Threshold(b))
  {
    var u := FindUser(t.users, uid).value;
    var ss := Finished(t.sessions, uid);
    ProgressReach(b, ss, u, lt, AchievementProgress(t, uid, lt).value);
  }

  /** The same agreement for the figures of one user's finished sessions. */
  lemma ProgressReach(b: Badge, ss: seq<Row<Session>>, u: User, lt: LocalTime, p: Progress)
    requires b != NightOwl && b != EarlyBird
    requires p == Progress(|ss|, FloorDiv(Seconds(ss), 360), u.currentStreak, u.longestStreak,
                           MaxCount(ss), WeekendCount(ss, lt))
    ensures 360 * p.totalTenths <= Seconds(ss) < 360 * p.totalTenths + 360
    ensures Expected(b, ss, u, lt) == 1 <==>
            match CategoryOf(b)
            case MilestoneCategory => p.sessions >= Threshold(b)
            case DurationCategory => p.totalTenths >= Threshold(b) / 360
            case StreakCategory => p.currentStreak >= Threshold(b)
            case IntensityCategory => p.maxIntensitySessions >= Threshold(b)
            case SpecialCategory => p.weekendSessions >= Threshold(b)
  {
    if CategoryOf(b) == DurationCategory {
      TenthsReach(Seconds(ss), Threshold(b) / 360);
      assert Threshold(b) == 360 * (Threshold(b) / 360);
    }
  }

  /** Whole tenths of an hour reach `h` exactly when the seconds reach
      `360 h`. */
  lemma TenthsReach(secs: int, h: int)
    ensures FloorDiv(secs, 360) >= h <==> secs >= 360 * h
  {
    var tenths := FloorDiv(secs, 360);
    MulCompare(360, h, tenths);
    MulCompare(360, tenths + 1, h);
  }
}
