/** Record shapes of the hosted store's tables, and the host facilities the
    backend reads (wall clock and local-time helpers) made explicit. */
module Schema {

  datatype Option<T> = None | Some(value: T)

  /** Hours and weekdays as the host's local-time helpers return them. */
  type Hour = h: int | 0 <= h < 24
  type Weekday = d: int | 0 <= d < 7

  /** The host's time-zone dependent helpers, taken as parameters. Instants
      are milliseconds since the epoch. `dateOf` identifies a local calendar
      date, `midnightOf` is the start of the local day holding an instant. */
  datatype LocalTime = LocalTime(
    hourOf: int -> Hour,
    dayOf: int -> Weekday,
    dateOf: int -> int,
    midnightOf: int -> int)

  datatype Tier = Free | Pro | Elite

  datatype User = User(
    id: nat,
    clerkId: string,
    email: string,
    name: Option<string>,
    imageUrl: Option<string>,
    username: Option<string>,
    bio: Option<string>,
    tier: Tier,
    createdAt: int,
    lastActive: int,
    totalSessions: int,
    currentStreak: int,
    longestStreak: int)

  /** A document of a per-user table: its store id, its owner and its fields. */
  datatype Row<T> = Row(id: nat, userId: nat, doc: T)

  datatype Mood = Energized | Focused | Relaxed | Stressed

  /** `duration` is in seconds, although several readers call it minutes. */
  datatype Session = Session(
    startTime: int,
    endTime: Option<int>,
    duration: Option<int>,
    intensity: int,
    tags: seq<string>,
    notes: Option<string>,
    mood: Option<Mood>)

  /** The seventeen keys of the achievement table, in table order. */
  datatype Badge =
    | FirstSession | FiveSessions | TenSessions | FiftySessions | HundredSessions
    | OneHour | TenHours | HundredHours
    | ThreeDayStreak | SevenDayStreak | ThirtyDayStreak | HundredDayStreak
    | MaxIntensity | TenMaxSessions
    | NightOwl | EarlyBird | WeekendWarrior

  /** `metadata` holds the session id for the time-of-day badges. */
  datatype Achievement = Achievement(badge: Badge, unlockedAt: int, metadata: Option<nat>)

  datatype NoticeKind = AchievementNotice | CompetitionNotice | FriendRequestNotice | AiInsightNotice | SystemNotice

  datatype Notification = Notification(
    title: string,
    message: string,
    kind: NoticeKind,
    read: bool,
    createdAt: int,
    link: Option<string>)

  datatype NotificationPrefs = NotificationPrefs(
    sessionReminders: bool,
    streakAlerts: bool,
    leaderboardUpdates: bool,
    aiCoachInsights: bool,
    achievementUnlocks: bool)

  datatype PrivacyPrefs = PrivacyPrefs(
    profileVisibility: bool,
    showStatsPublicly: bool,
    anonymousMode: bool)

  datatype Settings = Settings(notifications: NotificationPrefs, privacy: PrivacyPrefs)

  datatype Role = UserRole | AssistantRole

  datatype ChatMessage = ChatMessage(sessionId: Option<nat>, role: Role, content: string, timestamp: int)

  datatype InsightKind = DailySummary | WeeklyReview | PerformanceTip | MilestoneCelebration | StreakMotivation

  datatype Insight = Insight(
    generatedAt: int,
    kind: InsightKind,
    content: string,
    read: bool,
    actionable: Option<string>)
}
