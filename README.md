# GoonTracker backend core in Dafny

This project models the core of the GoonTracker app's backend and dashboard
helpers: the Convex mutations and queries that open and close training
sessions, keep user records, rank users on a leaderboard, aggregate weekly
analytics, unlock achievements, store per-user settings, and keep the AI
coach's chat log, plus the duration and label formatters the dashboard
shows.

The hosted document store is a class `Store.Db` with one sequence per table
(users, sessions, achievements, notifications, user settings, chat messages,
AI insights) and one id counter shared by all tables. Rows are kept in
insertion order, which is also id order, so "newest first" is "highest id
first". Every mutation is a method whose contract equates the new
`db.Snapshot()` with a pure function of the old one, and the properties are
lemmas about those functions. The wall clock (`now`), the local-time helpers
(hour of day, weekday, calendar date, local midnight), the locale's date
text and the language model are parameters.

Modules, one per file:

- `Schema`: record shapes.
- `Rows` and `Store`: table operations and the store class.
- `JsMath`: exact JavaScript floor, remainder and rounding on integers.
- `Functions`: `createUser`, `startSession`, `endSession` and `getUserSessions`.
- `Leaderboard`: `getLeaderboard` and `getUserRank`.
- `Analytics`: `getUserAnalytics`.
- `Achievements`: the badge table, `checkAndUnlockAchievements`, `getUserAchievements` and `getAchievementProgress`.
- `UserSettings`: profile, settings and account deletion.
- `AiChat`: the chat log and `sendChatMessage`.
- `Format`: the `formatDuration` and `formatDurationToMinutes` library helpers.
- `SessionTracker` and `RecentSessions`: the two dashboard panels.

## Model

| member | source | states |
|---|---|---|
| Functions.UpsertUser | convex/functions.ts:15-45 | Defines `createUser` on the users table and the id counter: patch the user found by clerk id, or append a new one. Its properties are the lemmas below. |
| Functions.UpsertFindsUser | convex/functions.ts:15-45 | After `createUser` the clerk id finds the returned user. That user has the new email, name, image, username and last-active time. An existing user keeps their id, tier, creation time and counters. A new user gets the next id, tier "free" and zero counters. |
| Functions.UpsertOthersUnchanged | convex/functions.ts:20-30 | Every user other than the one answered is left as it was. |
| Functions.UpsertIdempotent | convex/functions.ts:15-45 | Repeating the same `createUser` call gives the same tables and id. |
| Functions.CreateUser | convex/functions.ts:6-49 | The store method performs the upsert, and nothing outside the users table and id counter changes. |
| Functions.UpsertWellFormed | convex/functions.ts:15-45 | Both branches of the upsert keep users in id order with every id below the counter. |
| Functions.OpenSession | convex/functions.ts:76-82 | A new session has no end time and no duration, and it starts now. |
| Functions.StartSession | convex/functions.ts:63-86 | Appends exactly one open session for the user, with the next id. |
| Functions.EndSessionSpec | convex/functions.ts:89-123 | Defines `endSession` on the tables: its answer, its writes and whether it requests the achievement check. Its properties are the three `EndSession…` lemmas. |
| Functions.EndSessionOneShot | convex/functions.ts:95-96 | After a successful close, closing the same session again answers null and writes nothing. |
| Functions.EndSessionClosesSession | convex/functions.ts:95-105 | A missing or closed session gives null and no change. Otherwise the session gets its end time and notes. Its duration is the elapsed milliseconds floored to seconds. Only those three fields change; owner, tags and mood stay. Every other session is unchanged, and so are the settings, chat and insights tables. |
| Functions.EndSessionBumpsOwner | convex/functions.ts:107-119 | The owner's `totalSessions` rises by exactly 1 and `lastActive` becomes the end time. No other user field and no other user changes. The achievement check is requested exactly when the owner exists. |
| Functions.EndSession | convex/functions.ts:89-123 | The store method's result, writes and check request are those of the close specification. |
| Functions.GetUserSessions | convex/functions.ts:126-139 | Defines `getUserSessions`: the user's sessions, newest first, cut to the limit (default 50). |
| Functions.UserSessionsNewestFirst | convex/functions.ts:126-139 | Holds only the user's sessions, `min(limit, count)` of them (default 50), in strictly decreasing id order. Every session left out is older than every one returned. |
| Rows.NewestFirst | convex/functions.ts:133-137 | Taking from the reversed table gives strictly decreasing ids, and everything left out is older. |
| JsMath.FloorDiv | convex/functions.ts:99 | `Math.floor(a / b)` is the unique r with `b*r <= a < b*r + b`. |
| JsMath.RoundDiv | convex/functions.ts:214 | `Math.round(p / q)` is the integer within half of `p/q`, with halves rounded up. |
| JsMath.RoundDivUnique | convex/functions.ts:214 | No other integer meets the rounding bound. |
| Leaderboard.GetLeaderboard | convex/functions.ts:142-217 | Defines `getLeaderboard`: the board for the period's window start, with the limit defaulting to 20. Its properties are the `Board…` lemmas. |
| Leaderboard.GetUserRank | convex/functions.ts:220-301 | Defines `getUserRank`: the rank record for the period's window start. Its properties are `RankAndGap`, `RankWithinCompetitors` and `MoreTimeNeverWorsensRank`. |
| Leaderboard.WindowOf | convex/functions.ts:170-179 | Every document it holds is in the window (started at or after the start, with a duration), and every in-window session of the user is among them. |
| Leaderboard.WindowOfExact | convex/functions.ts:170-179 | Exactness: there is an increasing list of positions covering exactly the user's in-window rows, and the window's k-th document is the row at the k-th position. So it holds only the user's sessions, each once, in table order. |
| Leaderboard.Active | convex/functions.ts:203-204 | Keeps exactly the users with at least one session in the window. |
| Leaderboard.SortDescSorted | convex/functions.ts:205 | The sort orders totals from largest to smallest and is a permutation. |
| Leaderboard.SortDescStable | convex/functions.ts:205 | Users with equal totals keep their enumeration order. |
| Leaderboard.BoardOrder | convex/functions.ts:148-214 | Every entry is an active user with `sessionCount > 0`. Totals never increase down the board. There are `min(limit, active)` entries, ranked 1, 2, 3, … with no shared ranks. |
| Leaderboard.RankedPercentiles | convex/functions.ts:209-215 | Entry i has the percentile `round((i+1)/n*100)` for the n rows kept. Percentiles lie in [0,100], never decrease, and the last is 100. |
| Leaderboard.BoardPercentiles | convex/functions.ts:209-215 | The same percentile facts for the whole board. |
| Leaderboard.BoardKeepsTop | convex/functions.ts:203-206 | An active user left off the board means the board is full, and that user's total is at most the last entry's. |
| Leaderboard.BoardKeepsTieOrder | convex/functions.ts:203-206 | Among equal totals, the board lists users in enumeration order. |
| Leaderboard.ThreeEntryPercentiles | convex/functions.ts:214 | Three entries get the percentiles 33, 67 and 100. |
| Leaderboard.Above | convex/functions.ts:280 | Keeps exactly the totals strictly greater than the user's. |
| Leaderboard.Least | convex/functions.ts:284-289 | The head of the ascending sort is the smallest element. |
| Leaderboard.AheadAndGap | convex/functions.ts:279-290 | Nobody is ahead iff every total is at most the user's. Otherwise the smallest total ahead is some user's total, and no total lies between the two. |
| Leaderboard.RankFromAhead | convex/functions.ts:280-290 | Rank = 1 + the number of totals strictly above one's own, and gap = the smallest such total minus one's own (0 with none). Together they mean: rank 1 iff nobody is ahead, and then gap 0. Otherwise the gap is positive, own total + gap is a total, and no total lies strictly between. |
| Leaderboard.RankAndGap | convex/functions.ts:280-297 | The user's rank and gap have that meaning over all users' window totals, and the rank is at most users + 1. |
| Leaderboard.RankWithinCompetitors | convex/functions.ts:280-298 | A user with a positive total ranks within the count of users with a positive total. |
| Leaderboard.MoreTimeNeverWorsensRank | convex/functions.ts:241-281 | Adding a non-negative window session of one's own never makes the rank worse. |
| Analytics.ClosedOf | convex/functions.ts:313-317 | Holds exactly the user's sessions that have a duration. |
| Analytics.Since | convex/functions.ts:321-323 | Holds exactly the sessions started at or after the bound. |
| Analytics.Between | convex/functions.ts:327-329 | Holds exactly the sessions started in the half-open range. |
| Analytics.WindowsDisjoint | convex/functions.ts:320-329 | The recent and previous weeks share no session, and together they cover every session of the last 14 days. |
| Analytics.DayOrderMembers | convex/functions.ts:352-362 | A weekday is a key of the day-totals record iff some recent session falls on it. |
| Analytics.TallyDays | convex/functions.ts:352-359 | The loop builds the record whose keys are the weekdays in first-seen order and whose values are the per-day duration sums. |
| Analytics.PeakDayEmpty | convex/functions.ts:361-363 | With no recent sessions the peak day is ("N/A", 0), and a weekday without sessions totals 0. |
| Analytics.PeakDayIsMax | convex/functions.ts:361-363 | The peak day holds a session and has the maximal total. Any weekday seen before it in session order has a strictly smaller total, so ties go to the first seen. |
| Analytics.WeeklyDataSums | convex/functions.ts:372-389 | Seven entries, Sunday to Saturday, named by three letters. Their durations sum to the recent total, and their session counts to the recent count. |
| Analytics.DaysPartition | convex/functions.ts:372-377 | The seven weekday buckets partition the sessions, both in duration and in number. |
| Analytics.BucketsPartition | convex/functions.ts:392-401 | The four duration buckets partition all closed sessions. |
| Analytics.PctBounds | convex/functions.ts:419-431 | A bucket percentage lies in [0,100] and is `round(count/total*100)`. |
| Analytics.PctSum | convex/functions.ts:403-431 | The four rounded percentages sum to between 99 and 102. |
| Analytics.DistributionFacts | convex/functions.ts:392-431 | The counts sum to the closed-session count, every percentage is 0 with no sessions, and otherwise the percentage bounds hold. |
| Analytics.PercentagesCanSumTo102 | convex/functions.ts:419-431 | Bucket counts 1, 1, 3 and 3 give percentages summing to 102. |
| Analytics.GoalBounds | convex/functions.ts:434-449 | Progress is `min(round(current/target*100), 100)`. It is at most 100, at least 0 for non-negative input, and 100 once the target is reached. |
| Analytics.UserAnalytics | convex/functions.ts:304-453 | Defines `getUserAnalytics` as a value: null for an unknown user, otherwise the report over the user's closed sessions. The loop-based method is proved equal to it. |
| Analytics.GetUserAnalytics | convex/functions.ts:304-453 | The loop-based query equals the report specification: null for an unknown user. |
| Analytics.SummaryDefaults | convex/functions.ts:340-414 | `weekChange` is 0 when last week totals 0 or less. With no recent sessions, the average, peak, active days and consistency are 0 or "N/A". Active days never exceed the recent count. |
| Analytics.DatesBound | convex/functions.ts:366-368 | There are no more distinct dates than sessions. |
| Analytics.ConsistencyNotClipped | convex/functions.ts:369 | Consistency is at most 100 iff the active days are at most 7. Eight dates give 114. |
| Achievements.TableComplete | convex/achievements.ts:6-118 | The table has 17 entries and lists every badge type. |
| Achievements.KeysDistinct | convex/achievements.ts:6-118 | The 17 keys are pairwise distinct, so no badge is listed twice. |
| Achievements.Finished | convex/achievements.ts:130-134 | Holds exactly the user's sessions that have an end time. |
| Achievements.Evaluate | convex/achievements.ts:121-219 | Defines `checkAndUnlockAchievements` on the tables: the reference call list replayed against the badges held at the start. Its properties are the lemmas below. |
| Achievements.Unlock | convex/achievements.ts:146-169 | One guarded `unlock` call. A held type changes nothing. Otherwise one achievement and one notification are inserted and the type is pushed. |
| Achievements.UnlockMilestones | convex/achievements.ts:172-177 | Performs the session-count calls in source order. |
| Achievements.UnlockHours | convex/achievements.ts:179-184 | Performs the total-time calls in source order. |
| Achievements.UnlockStreaks | convex/achievements.ts:186-190 | Performs the streak calls in source order. |
| Achievements.UnlockIntensity | convex/achievements.ts:192-195 | Performs the maximum-intensity calls in source order. |
| Achievements.UnlockTimeOfDay | convex/achievements.ts:197-208 | The loop performs the night-owl and early-bird calls, session by session. |
| Achievements.UnlockAll | convex/achievements.ts:172-215 | All checks, in source order, perform exactly the reference call list for the user's finished sessions and streak. |
| Achievements.CheckAndUnlockAchievements | convex/achievements.ts:121-219 | The store method's writes and returned list equal the evaluator's. |
| Achievements.AppliedTables | convex/achievements.ts:146-169 | Only achievements and notifications grow, by one row each per newly unlocked type. Existing rows are kept. Ids advance by two per unlock. |
| Achievements.AppliedRows | convex/achievements.ts:148-167 | The k-th unlock inserts an achievement row for the user with that type and time. It also inserts one unread "achievement" notification. |
| Achievements.CallsCovered | convex/achievements.ts:146-147 | Every requested type ends up held or newly unlocked. |
| Achievements.EvaluateFootprint | convex/achievements.ts:121-169 | An unknown user gets an empty list and no change. Otherwise only the two tables grow, one achievement and one notification per listed type. |
| Achievements.RerunUnlocksNothing | convex/achievements.ts:137-147 | Running the evaluator again right after unlocks nothing and writes nothing. |
| Achievements.NewlyCount | convex/achievements.ts:146-154 | A type is listed as often as it is requested, unless it was held before the call. |
| Achievements.CallsCount | convex/achievements.ts:172-215 | Night owl and early bird are requested once per qualifying session. Every other type is requested once iff its measure reaches its threshold. |
| Achievements.UnlockedMultiplicity | convex/achievements.ts:146-215 | Each type's count in the returned list is its reference count, or 0 if held. Types other than night owl and early bird appear at most once. |
| Achievements.UnlockedIff | convex/achievements.ts:146-215 | A threshold badge is in the returned list iff it was not held and its measure reaches its threshold. |
| Achievements.ExpectedMonotone | convex/achievements.ts:172-195 | Within one category, if a higher threshold is reached, every lower one is too. |
| Achievements.LowerThresholdsFollow | convex/achievements.ts:172-195 | When a higher threshold of a category unlocks, every lower one of that category is held or unlocked too. |
| Achievements.FiveSessionsExample | convex/achievements.ts:172-177 | Five closed sessions and nothing held give first and five sessions, but not ten. |
| Achievements.GetUserAchievements | convex/achievements.ts:222-242 | Defines `getUserAchievements`: one status per table entry, in table order. Its properties are `UserAchievementsFacts`. |
| Achievements.FirstIndexOf | convex/achievements.ts:238 | Finds the user's first record of a type, or reports none. |
| Achievements.UserAchievementsFacts | convex/achievements.ts:222-242 | There are 17 entries in table order. An entry is unlocked iff the user has a record of that type, and then it carries the earliest such record's time. |
| Achievements.AchievementProgress | convex/achievements.ts:245-276 | Defines `getAchievementProgress`: null for an unknown user, otherwise the session count, tenths of an hour, streaks, maximum-intensity count and weekend count. |
| Achievements.ProgressMatchesThresholds | convex/achievements.ts:245-276 | Total time is floored to tenths of an hour. A threshold badge is requested iff the reported figure reaches its threshold. |
| UserSettings.KeyNamesParse | convex/userSettings.ts:81-93 | Every key name parses back to its key. |
| UserSettings.WithNotify | convex/userSettings.ts:70-73 | Sets the one notification key and keeps the others. |
| UserSettings.WithPrivate | convex/userSettings.ts:116-119 | Sets the one privacy key and keeps the others. |
| UserSettings.ApplyChangesOneKey | convex/userSettings.ts:68-95 | A change sets its key, keeps every other key and the other group, and applying it again changes nothing. |
| UserSettings.GetUserSettings | convex/userSettings.ts:25-53 | Defines `getUserSettings`: null for an unknown user, otherwise the first stored record or the defaults. |
| UserSettings.SettingsRead | convex/userSettings.ts:28-51 | Null iff the user is unknown. Otherwise the first stored record, or, with none, the defaults: all notifications on except leaderboard updates, and only profile visibility among privacy keys. |
| UserSettings.UpdateThenGet | convex/userSettings.ts:63-97 | After a write, reading the settings gives the old view (record or defaults) with the change applied. |
| UserSettings.UpdateKeepsOthers | convex/userSettings.ts:63-97 | A write leaves other users' settings and every other table unchanged. |
| UserSettings.UpdateLeavesOneRecord | convex/userSettings.ts:78-95 | A user without a record has exactly one afterwards, and the record count is otherwise unchanged. |
| UserSettings.UpdateIdempotent | convex/userSettings.ts:63-97 | Writing the same setting twice gives the same tables as writing it once. |
| UserSettings.WriteSetting | convex/userSettings.ts:63-95 | The store write matches the specification and keeps the store well formed. |
| UserSettings.UpdateNotificationSettings | convex/userSettings.ts:55-99 | Succeeds iff the key is a notification key. An unknown key changes nothing. |
| UserSettings.UpdatePrivacySettings | convex/userSettings.ts:101-145 | Succeeds iff the key is a privacy key. An unknown key changes nothing. |
| UserSettings.UpdateProfileFields | convex/userSettings.ts:13-18 | Only the supplied name, username and bio change, plus `lastActive`. Other users are untouched. |
| UserSettings.UpdateProfile | convex/userSettings.ts:5-22 | Succeeds iff the user exists, and then patches only that user. |
| UserSettings.DeleteAccountRemovesUser | convex/userSettings.ts:181-218 | The user and their sessions, insights, chat messages and first settings record are gone. Achievements and notifications are untouched. |
| UserSettings.DeleteAccountKeepsOthers | convex/userSettings.ts:181-218 | Every other user's records are unchanged. |
| UserSettings.DeleteAccountWellFormed | convex/userSettings.ts:181-218 | Deletion keeps every table in id order. |
| UserSettings.DeleteAccountRows | convex/userSettings.ts:181-215 | The delete loops compute exactly the deletion specification. |
| UserSettings.DeleteUserAccount | convex/userSettings.ts:178-222 | Succeeds iff the user exists. It then applies the deletion, and otherwise changes nothing. |
| Store.DeleteEach | convex/aiChat.ts:173-175 | Deleting the collected rows one by one removes exactly their ids. |
| Store.DeleteAllOwned | convex/userSettings.ts:182-188 | Collecting a user's rows and deleting each removes exactly that user's rows. |
| AiChat.GetChatMessages | convex/aiChat.ts:136-160 | Defines `getChatMessages`: the user's messages newest first, optionally filtered by session within the 200 newest, cut to the limit (default 50). |
| AiChat.InSession | convex/aiChat.ts:154 | Keeps exactly the messages of the session, in order. |
| AiChat.ChatMessagesNewestFirst | convex/aiChat.ts:143-158 | The answer is the user's messages, newest first, at most `limit` of them (default 50). With a session id, every message belongs to that session. |
| AiChat.ChatMessagesAreTheNewest | convex/aiChat.ts:143-158 | Without a session id the answer is the user's `min(limit, count)` newest messages. |
| AiChat.SessionReadWindow | convex/aiChat.ts:150-155 | With a session id, no message outside the user's 200 newest is returned. |
| AiChat.SessionReadComplete | convex/aiChat.ts:150-155 | With at most 200 messages, the session read is the full filtered newest-first list cut to the limit. |
| AiChat.SaveThenRead | convex/aiChat.ts:122-131 | After a save, the user's newest message is the saved one with the next id, the given session, role and content, and the time. |
| AiChat.SaveKeepsOthers | convex/aiChat.ts:122-131 | A save does not change any other user's reads. |
| AiChat.SaveChatMessage | convex/aiChat.ts:115-133 | Appends exactly one message and returns its id. |
| AiChat.ClearLeavesOthers | convex/aiChat.ts:167-177 | After clearing, the user reads nothing and other users read what they read before. |
| AiChat.ClearChatHistory | convex/aiChat.ts:163-179 | Removes exactly the user's messages and returns how many there were. |
| AiChat.Turns | convex/aiChat.ts:51-57 | Maps each message to its role and content, in order. |
| AiChat.ReplyContent | convex/aiChat.ts:88-109 | The reply's text, or the no-text or error fallback. |
| AiChat.SendChatMessage | convex/aiChat.ts:12-112 | Saves the user message, builds the history, asks the coach, and saves exactly one assistant message. |
| AiChat.HistoryEndsWithMessage | convex/aiChat.ts:20-57 | The history has 1 to 10 turns. It is the newest ten messages oldest first, and it ends with the message just sent. |
| AiChat.SendAddsTwo | convex/aiChat.ts:20-109 | Sending appends exactly the user message and then one assistant message, whether the coach answers or fails. |
| AiChat.SendThenRead | convex/aiChat.ts:94-109 | After a send, the user's two newest messages are the reply and then the message sent. |
| AiChat.FallbacksAsWrittenAreMisread | convex/aiChat.ts:88-109 | The fallback texts as written end in the Windows-1252 reading of the UTF-8 bytes of U+1F4AA, so they differ from the intended text. |
| AiChat.FallbacksCorrected | convex/aiChat.ts:88-109 | The corrected fallbacks equal the as-written texts with that four-character tail replaced by the single intended character. |
| Format.NatToString | lib/utils/format.ts:13-24 | Decimal text of a non-negative integer: digits only, no leading zero, and the right width. |
| Format.ParseNatToString | lib/utils/format.ts:13-24 | The decimal text reads back as the number. |
| Format.PadStart | lib/utils/format.ts:19-22 | `padStart` adds the fill only on the left, up to the width, and never truncates. |
| Format.Pad2 | lib/utils/format.ts:19-22 | Two-digit padding reads back as the number, has two characters below 100, and is the plain text from 10 on. |
| Format.Decompose | lib/utils/format.ts:8-10 | `hrs*3600 + mins*60 + secs = s`, with mins and secs in [0,59]. |
| Format.FormatDuration | lib/utils/format.ts:7-25 | Defines `formatDuration` for non-negative integer seconds, in compact and long forms. |
| Format.FormatDurationRoundTrip | lib/utils/format.ts:18-24 | Reading the long form back gives the seconds. |
| Format.FormatDurationShape | lib/utils/format.ts:18-24 | The long form is three fields with hours, two with minutes, else one. 0 gives "0s". |
| Format.CompactRoundTrip | lib/utils/format.ts:12-16 | Reading the compact form back gives the seconds, floored to whole minutes when hours show. |
| Format.CompactWithHours | lib/utils/format.ts:13 | "Hh Mm" reads back as the seconds with the seconds part dropped. |
| Format.CompactWithMinutes | lib/utils/format.ts:14 | "Mm Ss" reads back as the seconds. |
| Format.FormatDurationToMinutes | lib/utils/format.ts:31-37 | Defines `formatDurationToMinutes` for non-negative integer seconds. A `toFixed(1)` tie gives no result. |
| Format.MinutesMeaning | lib/utils/format.ts:31-37 | Under 60 seconds the text is "{s}s". A multiple of 60 gives "{s/60} min". Otherwise, away from rounding ties, it gives "{q}.{f} min" with q.f the minutes rounded to tenths. |
| Format.NotWholeCanShowZeroTenths | lib/utils/format.ts:36 | 61 seconds shows "1.0 min", although it is not a whole number of minutes. |
| SessionTracker.FormatTime | components/dashboard/SessionTracker.tsx:72-77 | Defines `formatTime`: hours, minutes and seconds, each padded to two digits, joined by colons. |
| SessionTracker.FormatTimeZero | components/dashboard/SessionTracker.tsx:72-77 | 0 seconds shows "00:00:00". |
| SessionTracker.FormatTimeRoundTrip | components/dashboard/SessionTracker.tsx:72-77 | The display is three colon-separated fields and reads back as the seconds. |
| SessionTracker.FormatTimeWidth | components/dashboard/SessionTracker.tsx:76 | Below 360000 seconds it is exactly 8 characters. From there the hour field is the full hour count and is never cut. |
| SessionTracker.Tracker.constructor | components/dashboard/SessionTracker.tsx:18-22 | The panel starts inactive, with no session, intensity 7, a zero clock and no notes. |
| SessionTracker.Tracker.Tick | components/dashboard/SessionTracker.tsx:28-36 | The clock advances by one only while active. |
| SessionTracker.Tracker.HandleStart | components/dashboard/SessionTracker.tsx:38-53 | Opens one session tagged "manual" with mood focused at the chosen intensity, holds its id, and restarts the clock. |
| SessionTracker.Tracker.HandleStop | components/dashboard/SessionTracker.tsx:55-70 | Without a held id nothing changes. Otherwise it ends that session with the notes (empty means none) and resets the panel. |
| RecentSessions.IntToString | components/dashboard/RecentSessions.tsx:22-23 | Template-literal text of an integer, with a leading minus for negatives. |
| RecentSessions.FormatDuration | components/dashboard/RecentSessions.tsx:18-24 | Defines the card's own `formatDuration`: "0m" for a missing or zero length, otherwise hours (when positive) and minutes, using JavaScript floor and remainder. |
| RecentSessions.AgreesWithCompactFromAnHour | components/dashboard/RecentSessions.tsx:18-24 | From one hour on, the card's text equals the library's compact form. |
| RecentSessions.MinutesOnlyBelowAnHour | components/dashboard/RecentSessions.tsx:18-24 | Between one minute and one hour, the card's text is the library's compact form without its seconds term. |
| RecentSessions.FormatDurationReadsBack | components/dashboard/RecentSessions.tsx:18-24 | The card's text reads back as the length floored to whole minutes. |
| RecentSessions.UnderAMinuteIsZero | components/dashboard/RecentSessions.tsx:19-23 | A missing length and any length under a minute show "0m". |
| RecentSessions.NegativeLength | components/dashboard/RecentSessions.tsx:19-23 | A negative length never shows hours. A whole number of hours shows "0m", and otherwise it shows minus the minutes within the hour, rounded away from zero. |
| RecentSessions.IntensityColor | components/dashboard/RecentSessions.tsx:37-42 | Defines `getIntensityColor`: red from 8, orange from 6, yellow from 4, otherwise green. |
| RecentSessions.IntensityBands | components/dashboard/RecentSessions.tsx:37-42 | Every intensity gets exactly one of the four colours, with bands starting at 4, 6 and 8. |
| RecentSessions.IntensityColorMonotone | components/dashboard/RecentSessions.tsx:37-42 | A higher intensity never gets a milder colour. |
| RecentSessions.FormatDate | components/dashboard/RecentSessions.tsx:26-35 | Defines `formatDate` from the floored whole hours elapsed: "Just now" under one hour, "{n}h ago" under 24, "Yesterday" under 48, otherwise the given locale date text. |
| RecentSessions.FormatDateThresholds | components/dashboard/RecentSessions.tsx:26-35 | Under an hour, or in the future, gives "Just now". One to two days gives "Yesterday". Two days or more gives the locale date. |
| RecentSessions.HoursAgoReadsBack | components/dashboard/RecentSessions.tsx:29-32 | Between one hour and a day the label is "Nh ago", where N in 1..23 is the number of whole hours elapsed. |

## Left out

- The language model call, the system prompt, and the analytics and session context built for it are not modelled. The model is a parameter function from the history to a reply, no text, or failure.
- `sendChatMessage` runs its analytics and session-context queries only for the prompt. They do not affect the stored messages, so they are left out.
- Floating-point results are left out and kept exact where possible:
  - the average intensity is a (sum, count) pair;
  - `Math.round` is exact half-up rounding on rationals;
  - `toFixed(1)` ties give no result in `Format.FormatDurationToMinutes`;
  - no IEEE-exact equality is claimed.
- Format.FormatDurationToMinutes: models only non-negative integer input. Negative seconds are not modelled; the source returns "{s}s" for them, such as "-5s". A `toFixed(1)` tie (tenths exactly half-way, `s % 6 == 3`) gives no result, because binary floating point decides it.
- Format.FormatDuration and SessionTracker.FormatTime: model only non-negative integer seconds; negative and fractional inputs are not modelled.
- `getAchievementProgress` `totalHours`: kept as whole tenths, `floor(seconds / 360)`. This equals `Math.floor(totalHours*10)/10` up to floating point.
- Negative `weekChange` rounding is modelled exactly, not as IEEE arithmetic.
- Clocks, time zones and locale text are parameters (`Date.now`, `getDay`, `getHours`, `setHours`, `toDateString`, `toLocaleDateString`).
- Concurrency is not modelled:
  - the `Promise.all` fan-out is a sequential map in user order;
  - `ctx.scheduler.runAfter` is the `checkRequested` result of `endSession`;
  - races between concurrent achievement checks are not modelled.
- A mutation that throws (a patch or delete of a missing document, or a settings key the schema rejects) is modelled as a failed call that changes nothing. Convex rolls such a transaction back.
- Limits are natural numbers. Negative or fractional `limit` arguments are not modelled.
- Only closed sessions have durations. A duration can be negative if the clock ran backwards, and `RecentSessions.NegativeLength` covers that case.
- The React rendering, the timer interval itself, the `alert` and `console.error` error paths of the handlers, the Clerk webhook, `getCurrentUser`, `exportUserData`, `getRecentAchievements` and the AI insights actions are not part of this model.
- Generated typings and the declarative schema are used only for record shapes.
- AiChat.ReplyContent: stores the corrected fallbacks `NoTextFallback` and `ErrorFallback`, which end in U+1F4AA. The source stores texts ending in the four characters "ðŸ’ª" (see Findings). So `SendSpec` and `AiChat.SendChatMessage` model the intended reply, not the bytes as written. `AiChat.FallbacksAsWrittenAreMisread` and `AiChat.FallbacksCorrected` relate the two.

## Findings

| source | as written | input that shows it | evidently intended | confidence | as-written member | corrected member |
|---|---|---|---|---|---|---|
| convex/aiChat.ts:91 | The no-text fallback ends in the four characters "ðŸ’ª". | Any coach reply without a text block. | It ends in the flexed-biceps emoji U+1F4AA, whose UTF-8 bytes were read as Windows-1252. | high, not executed | AiChat.FallbacksAsWrittenAreMisread | AiChat.FallbacksCorrected |
| convex/aiChat.ts:108 | The error fallback ends in the same four characters. | Any coach call that throws. | It ends in U+1F4AA. | high, not executed | AiChat.FallbacksAsWrittenAreMisread | AiChat.FallbacksCorrected |
