/** Profile edits, per-user settings and account deletion. A user has at
    most one settings record in practice; reads take the first one by id.
    A settings key arrives as a string; a key the schema does not know makes
    the write fail validation, so the mutation fails and nothing changes. */
module UserSettings {
  import opened Schema
  import opened Rows
  import opened Store

  datatype NotificationKey = SessionReminders | StreakAlerts | LeaderboardUpdates | AiCoachInsights | AchievementUnlocks
  datatype PrivacyKey = ProfileVisibility | ShowStatsPublicly | AnonymousMode

  function NotificationKeyName(k: NotificationKey): string {
    match k
    case SessionReminders => "sessionReminders"
    case StreakAlerts => "streakAlerts"
    case LeaderboardUpdates => "leaderboardUpdates"
    case AiCoachInsights => "aiCoachInsights"
    case AchievementUnlocks => "achievementUnlocks"
  }

  function PrivacyKeyName(k: PrivacyKey): string {
    match k
    case ProfileVisibility => "profileVisibility"
    case ShowStatsPublicly => "showStatsPublicly"
    case AnonymousMode => "anonymousMode"
  }

  /** The notification key a string names, if the schema has it. */
  function ParseNotificationKey(s: string): (r: Option<NotificationKey>)
    ensures r.Some? ==> NotificationKeyName(r.value) == s
  {
    if s == "sessionReminders" then Some(SessionReminders)
    else if s == "streakAlerts" then Some(StreakAlerts)
    else if s == "leaderboardUpdates" then Some(LeaderboardUpdates)
    else if s == "aiCoachInsights" then Some(AiCoachInsights)
    else if s == "achievementUnlocks" then Some(AchievementUnlocks)
    else None
  }

  function ParsePrivacyKey(s: string): (r: Option<PrivacyKey>)
    ensures r.Some? ==> PrivacyKeyName(r.value) == s
  {
    if s == "profileVisibility" then Some(ProfileVisibility)
    else if s == "showStatsPublicly" then Some(ShowStatsPublicly)
    else if s == "anonymousMode" then Some(AnonymousMode)
    else None
  }

  /** Every schema key is accepted under its own name. */
  lemma KeyNamesParse(n: NotificationKey, p: PrivacyKey)
    ensures ParseNotificationKey(NotificationKeyName(n)) == Some(n)
    ensures ParsePrivacyKey(PrivacyKeyName(p)) == Some(p)
  {
    match n
    case SessionReminders =>
    case StreakAlerts => assert NotificationKeyName(n) != "sessionReminders";
    case LeaderboardUpdates => assert NotificationKeyName(n)[0] == 'l';
    case AiCoachInsights => assert NotificationKeyName(n)[0] == 'a';
    case AchievementUnlocks => assert NotificationKeyName(n)[1] == 'c';
  }

  function Notify(p: NotificationPrefs, k: NotificationKey): bool {
    match k
    case SessionReminders => p.sessionReminders
    case StreakAlerts => p.streakAlerts
    case LeaderboardUpdates => p.leaderboardUpdates
    case AiCoachInsights => p.aiCoachInsights
    case AchievementUnlocks => p.achievementUnlocks
  }

  function Private(p: PrivacyPrefs, k: PrivacyKey): bool {
    match k
    case ProfileVisibility => p.profileVisibility
    case ShowStatsPublicly => p.showStatsPublicly
    case AnonymousMode => p.anonymousMode
  }

  /** `{...prefs, [key]: enabled}` on the notification preferences. */
  function WithNotify(p: NotificationPrefs, k: NotificationKey, enabled: bool): (r: NotificationPrefs)
    ensures Notify(r, k) == enabled
    ensures forall k' :: k' != k ==> Notify(r, k') == Notify(p, k')
  {
    match k
    case SessionReminders => p.(sessionReminders := enabled)
    case StreakAlerts => p.(streakAlerts := enabled)
    case LeaderboardUpdates => p.(leaderboardUpdates := enabled)
    case AiCoachInsights => p.(aiCoachInsights := enabled)
    case AchievementUnlocks => p.(achievementUnlocks := enabled)
  }

  /** `{...prefs, [key]: enabled}` on the privacy preferences. */
  function WithPrivate(p: PrivacyPrefs, k: PrivacyKey, enabled: bool): (r: PrivacyPrefs)
    ensures Private(r, k) == enabled
    ensures forall k' :: k' != k ==> Private(r, k') == Private(p, k')
  {
    match k
    case ProfileVisibility => p.(profileVisibility := enabled)
    case ShowStatsPublicly => p.(showStatsPublicly := enabled)
    case AnonymousMode => p.(anonymousMode := enabled)
  }

  /** Preferences are determined by their keys. */
  lemma PrefsByKeys(a: Settings, b: Settings)
    requires forall k :: Notify(a.notifications, k) == Notify(b.notifications, k)
    requires forall k :: Private(a.privacy, k) == Private(b.privacy, k)
    ensures a == b
  {
    assert Notify(a.notifications, SessionReminders) == Notify(b.notifications, SessionReminders);
    assert Notify(a.notifications, StreakAlerts) == Notify(b.notifications, StreakAlerts);
    assert Notify(a.notifications, LeaderboardUpdates) == Notify(b.notifications, LeaderboardUpdates);
    assert Notify(a.notifications, AiCoachInsights) == Notify(b.notifications, AiCoachInsights);
    assert Notify(a.notifications, AchievementUnlocks) == Notify(b.notifications, AchievementUnlocks);
    assert Private(a.privacy, ProfileVisibility) == Private(b.privacy, ProfileVisibility);
    assert Private(a.privacy, ShowStatsPublicly) == Private(b.privacy, ShowStatsPublicly);
    assert Private(a.privacy, AnonymousMode) == Private(b.privacy, AnonymousMode);
  }

  /** The settings a user without a record sees, and the base of a new record. */
  const Defaults: Settings := Settings(NotificationPrefs(true, true, false, true, true), PrivacyPrefs(true, false, false))

  /** One settings write: a notification key or a privacy key set to a value. */
  datatype Change = NotifyChange(nkey: NotificationKey, enabled: bool) | PrivacyChange(pkey: PrivacyKey, enabled: bool)

  function Apply(s: Settings, c: Change): Settings {
    match c
    case NotifyChange(k, v) => s.(notifications := WithNotify(s.notifications, k, v))
    case PrivacyChange(k, v) => s.(privacy := WithPrivate(s.privacy, k, v))
  }

  /** A change sets its own key and no other, in either group. */
  lemma ApplyChangesOneKey(s: Settings, c: Change)
    ensures var r := Apply(s, c);
      && (c.NotifyChange? ==> Notify(r.notifications, c.nkey) == c.enabled && r.privacy == s.privacy)
      && (c.NotifyChange? ==> forall k :: k != c.nkey ==> Notify(r.notifications, k) == Notify(s.notifications, k))
      && (c.PrivacyChange? ==> Private(r.privacy, c.pkey) == c.enabled && r.notifications == s.notifications)
      && (c.PrivacyChange? ==> forall k :: k != c.pkey ==> Private(r.privacy, k) == Private(s.privacy, k))
      && Apply(r, c) == r
  {
    var r := Apply(s, c);
    match c
    case NotifyChange(k, v) =>
      PrefsByKeys(Apply(r, c), r);
    case PrivacyChange(k, v) =>
      PrefsByKeys(Apply(r, c), r);
  }

  /** `getUserSettings`: null for an unknown user, the user's first stored
      record if there is one, and the defaults otherwise. */
  function GetUserSettings(t: Tables, uid: nat): Option<Settings> {
    if FindUser(t.users, uid).None? then None
    else match FirstOwned(t.settings, uid)
      case Some(r) => Some(r.doc)
      case None => Some(Defaults)
  }

  /** Null exactly for an unknown user; a known user gets the earliest of
      their stored records, or, with none, the defaults: every notification
      on except leaderboard updates, and of the privacy keys only profile
      visibility on. */
  lemma SettingsRead(t: Tables, uid: nat)
    ensures GetUserSettings(t, uid).None? <==> FindUser(t.users, uid).None?
    ensures FindUser(t.users, uid).Some? && OwnedBy(t.settings, uid) != [] ==>
      GetUserSettings(t, uid) == Some(OwnedBy(t.settings, uid)[0].doc)
    ensures FindUser(t.users, uid).Some? && OwnedBy(t.settings, uid) == [] ==>
      && GetUserSettings(t, uid) == Some(Defaults)
      && (forall k :: Notify(Defaults.notifications, k) <==> k != LeaderboardUpdates)
      && (forall k :: Private(Defaults.privacy, k) <==> k == ProfileVisibility)
  {
  }

  /** The tables after one settings write: the user's first record is
      patched, or, when there is none, the defaults with the change applied
      are inserted. The user's existence is not checked. */
  function UpdateSpec(t: Tables, uid: nat, c: Change): Tables {
    match FirstOwned(t.settings, uid)
    case Some(r) => t.(settings := Replace(t.settings, r.id, Apply(r.doc, c)))
    case None => t.(settings := t.settings + [Row(t.nextId, uid, Apply(Defaults, c))], nextId := t.nextId + 1)
  }

  /** What the user sees after a write is what they saw before with the
      change applied: with a record, only that key moves; without one, the
      defaults with that key overridden. */
  lemma UpdateThenGet(t: Tables, uid: nat, c: Change)
    requires FindUser(t.users, uid).Some?
    ensures GetUserSettings(UpdateSpec(t, uid, c), uid) == Some(Apply(GetUserSettings(t, uid).value, c))
  {
    match FirstOwned(t.settings, uid)
    case Some(r) =>
      FirstOwnedReplace(t.settings, uid, r.id, Apply(r.doc, c));
    case None =>
      FirstOwnedAppend(t.settings, Row(t.nextId, uid, Apply(Defaults, c)), uid);
  }

  /** A write touches no other user's view and no other table. */
  lemma UpdateKeepsOthers(t: Tables, uid: nat, c: Change, other: nat)
    requires WellFormed(t)
    requires other != uid
    ensures var r := UpdateSpec(t, uid, c);
      && GetUserSettings(r, other) == GetUserSettings(t, other)
      && r.users == t.users && r.sessions == t.sessions && r.achievements == t.achievements
      && r.notifications == t.notifications && r.chatMessages == t.chatMessages && r.insights == t.insights
  {
    OtherFirstKept(t.settings, t.nextId, uid, c, other);
  }

  lemma OtherFirstKept(s: seq<Row<Settings>>, next: nat, uid: nat, c: Change, other: nat)
    requires Ordered(s)
    requires other != uid
    ensures FirstOwned(s, uid).Some? ==>
      FirstOwned(Replace(s, FirstOwned(s, uid).value.id, Apply(FirstOwned(s, uid).value.doc, c)), other)
        == FirstOwned(s, other)
    ensures FirstOwned(s + [Row(next, uid, Apply(Defaults, c))], other) == FirstOwned(s, other)
  {
    FirstOwnedAppend(s, Row(next, uid, Apply(Defaults, c)), other);
    if FirstOwned(s, uid).Some? {
      var r := FirstOwned(s, uid).value;
      FirstOwnedReplace(s, other, r.id, Apply(r.doc, c));
      if FirstOwned(s, other).Some? {
        var x := FirstOwned(s, other).value;
        if x.id == r.id {
          OrderedUnique(s, x, r);
        }
      }
    }
  }

  /** After a write the user has at least one record, and exactly one if
      they had at most one before: a write never adds a second record. */
  lemma UpdateLeavesOneRecord(t: Tables, uid: nat, c: Change)
    ensures var n := |OwnedBy(t.settings, uid)|;
      |OwnedBy(UpdateSpec(t, uid, c).settings, uid)| == if n == 0 then 1 else n
  {
    match FirstOwned(t.settings, uid)
    case Some(r) =>
      OwnedByReplace(t.settings, r.id, Apply(r.doc, c), uid);
    case None =>
      var row := Row(t.nextId, uid, Apply(Defaults, c));
      OwnedByAppend(t.settings, [row], uid);
      assert OwnedBy([row], uid) == [row] by {
        assert [row][1..] == [];
      }
  }

  /** Writing the same key and value twice is the same as writing it once. */
  lemma UpdateIdempotent(t: Tables, uid: nat, c: Change)
    requires WellFormed(t)
    ensures UpdateSpec(UpdateSpec(t, uid, c), uid, c) == UpdateSpec(t, uid, c)
  {
    var t1 := UpdateSpec(t, uid, c);
    match FirstOwned(t.settings, uid)
    case Some(r) =>
      var d := Apply(r.doc, c);
      ApplyChangesOneKey(r.doc, c);
      FirstOwnedReplace(t.settings, uid, r.id, d);
      ReplaceSame(t1.settings, r.id, d);
    case None =>
      var row := Row(t.nextId, uid, Apply(Defaults, c));
      ApplyChangesOneKey(Defaults, c);
      FirstOwnedAppend(t.settings, row, uid);
      forall x | x in t1.settings && x.id == row.id ensures x.doc == row.doc {
      }
      ReplaceSame(t1.settings, row.id, row.doc);
  }

  /** Keeps `WellFormed` across a settings write. */
  lemma UpdateWellFormed(t: Tables, uid: nat, c: Change)
    requires WellFormed(t)
    ensures WellFormed(UpdateSpec(t, uid, c))
  {
    match FirstOwned(t.settings, uid)
    case Some(r) =>
      ReplaceOrdered(t.settings, r.id, Apply(r.doc, c), t.nextId);
    case None =>
      var row := Row(t.nextId, uid, Apply(Defaults, c));
      AppendOrdered(t.settings, row, t.nextId);
  }

  /** One settings write on the store. */
  method WriteSetting(db: Db, uid: nat, c: Change)
    requires db.Valid()
    modifies db
    ensures db.Valid()
    ensures db.Snapshot() == UpdateSpec(old(db.Snapshot()), uid, c)
  {
    UpdateWellFormed(db.Snapshot(), uid, c);
    var t := db.Snapshot();
    var existing := FirstOwned(t.settings, uid);
    if existing.Some? {
      var r := existing.value;
      db.Commit(t.(settings := Replace(t.settings, r.id, Apply(r.doc, c))));
    } else {
      var id := t.nextId;
      db.Commit(t.(settings := t.settings + [Row(id, uid, Apply(Defaults, c))], nextId := id + 1));
    }
  }

  /** `updateNotificationSettings`: fails, writing nothing, for a key the
      schema does not have. */
  method UpdateNotificationSettings(db: Db, uid: nat, setting: string, enabled: bool) returns (success: bool)
    requires db.Valid()
    modifies db
    ensures db.Valid()
    ensures success == ParseNotificationKey(setting).Some?
    ensures !success ==> db.Snapshot() == old(db.Snapshot())
    ensures success ==>
      db.Snapshot() == UpdateSpec(old(db.Snapshot()), uid, NotifyChange(ParseNotificationKey(setting).value, enabled))
  {
    var key := ParseNotificationKey(setting);
    if key.None? {
      return false;
    }
    WriteSetting(db, uid, NotifyChange(key.value, enabled));
    return true;
  }

  /** `updatePrivacySettings`, the same for the privacy keys. */
  method UpdatePrivacySettings(db: Db, uid: nat, setting: string, enabled: bool) returns (success: bool)
    requires db.Valid()
    modifies db
    ensures db.Valid()
    ensures success == ParsePrivacyKey(setting).Some?
    ensures !success ==> db.Snapshot() == old(db.Snapshot())
    ensures success ==>
      db.Snapshot() == UpdateSpec(old(db.Snapshot()), uid, PrivacyChange(ParsePrivacyKey(setting).value, enabled))
  {
    var key := ParsePrivacyKey(setting);
    if key.None? {
      return false;
    }
    WriteSetting(db, uid, PrivacyChange(key.value, enabled));
    return true;
  }

  // ---------------------------------------------------------------------
  // Profile

  /** The user as `updateProfile` patches it: each supplied field replaced,
      and `lastActive` set. */
  function PatchProfile(u: User, name: Option<string>, username: Option<string>, bio: Option<string>, now: int): User {
    u.(name := if name.Some? then name else u.name,
       username := if username.Some? then username else u.username,
       bio := if bio.Some? then bio else u.bio,
       lastActive := now)
  }

  /** A profile edit changes the supplied fields and `lastActive` of that
      user and nothing else, and no other user. */
  lemma UpdateProfileFields(users: seq<User>, uid: nat, name: Option<string>, username: Option<string>,
                            bio: Option<string>, now: int, other: nat)
    requires FindUser(users, uid).Some?
    ensures var u := FindUser(users, uid).value;
      var after := ReplaceUser(users, PatchProfile(u, name, username, bio, now));
      && FindUser(after, uid).Some?
      && var v := FindUser(after, uid).value;
      && (name.Some? ==> v.name == name) && (name.None? ==> v.name == u.name)
      && (username.Some? ==> v.username == username) && (username.None? ==> v.username == u.username)
      && (bio.Some? ==> v.bio == bio) && (bio.None? ==> v.bio == u.bio)
      && v.lastActive == now
      && v == u.(name := v.name, username := v.username, bio := v.bio, lastActive := now)
      && (other != uid ==> FindUser(after, other) == FindUser(users, other))
  {
    var u := FindUser(users, uid).value;
    var p := PatchProfile(u, name, username, bio, now);
    FindUserAfterReplace(users, p, uid);
    FindUserAfterReplace(users, p, other);
  }

  /** `updateProfile`. Patching a user that does not exist fails and
      writes nothing. */
  method UpdateProfile(db: Db, uid: nat, name: Option<string>, username: Option<string>, bio: Option<string>,
                       now: int)
    returns (success: bool)
    requires db.Valid()
    modifies db
    ensures db.Valid()
    ensures success == FindUser(old(db.users), uid).Some?
    ensures !success ==> db.Snapshot() == old(db.Snapshot())
    ensures success ==> db.Snapshot() == old(db.Snapshot()).(users :=
      ReplaceUser(old(db.users), PatchProfile(FindUser(old(db.users), uid).value, name, username, bio, now)))
  {
    var user := FindUser(db.users, uid);
    if user.None? {
      return false;
    }
    var users := ReplaceUser(db.users, PatchProfile(user.value, name, username, bio, now));
    ReplaceUserWellFormed(db.users, PatchProfile(user.value, name, username, bio, now), db.nextId);
    WithUsers(db.Snapshot(), users);
    db.Commit(db.Snapshot().(users := users));
    return true;
  }

  // ---------------------------------------------------------------------
  // Account deletion

  /** The settings table after deleting the user's first record, if any. */
  function WithoutFirstSettings(s: seq<Row<Settings>>, uid: nat): seq<Row<Settings>> {
    match FirstOwned(s, uid)
    case Some(r) => WithoutIds(s, {r.id})
    case None => s
  }

  /** The tables after `deleteUserAccount` for an existing user. */
  function DeleteAccountSpec(t: Tables, uid: nat): Tables {
    t.(sessions := NotOwnedBy(t.sessions, uid),
       insights := NotOwnedBy(t.insights, uid),
       chatMessages := NotOwnedBy(t.chatMessages, uid),
       settings := WithoutFirstSettings(t.settings, uid),
       users := RemoveUser(t.users, uid))
  }

  /** Deletion leaves the user no user record, sessions, insights or chat
      messages, and only the settings records after their first; it does not
      touch achievements or notifications. */
  lemma DeleteAccountRemovesUser(t: Tables, uid: nat)
    requires WellFormed(t)
    ensures var r := DeleteAccountSpec(t, uid);
      && FindUser(r.users, uid).None?
      && OwnedBy(r.sessions, uid) == [] && OwnedBy(r.insights, uid) == [] && OwnedBy(r.chatMessages, uid) == []
      && OwnedBy(r.settings, uid) == (if OwnedBy(t.settings, uid) == [] then [] else OwnedBy(t.settings, uid)[1..])
      && r.achievements == t.achievements && r.notifications == t.notifications
  {
    OwnedByNotOwnedBy(t.sessions, uid, uid);
    OwnedByNotOwnedBy(t.insights, uid, uid);
    OwnedByNotOwnedBy(t.chatMessages, uid, uid);
    FirstSettingsGone(t.settings, uid);
  }

  /** Deletion leaves every other user's records as they were. */
  lemma DeleteAccountKeepsOthers(t: Tables, uid: nat, other: nat)
    requires WellFormed(t)
    requires other != uid
    ensures var r := DeleteAccountSpec(t, uid);
      && FindUser(r.users, other) == FindUser(t.users, other)
      && OwnedBy(r.sessions, other) == OwnedBy(t.sessions, other)
      && OwnedBy(r.insights, other) == OwnedBy(t.insights, other)
      && OwnedBy(r.chatMessages, other) == OwnedBy(t.chatMessages, other)
      && OwnedBy(r.settings, other) == OwnedBy(t.settings, other)
  {
    OwnedByNotOwnedBy(t.sessions, uid, other);
    OwnedByNotOwnedBy(t.insights, uid, other);
    OwnedByNotOwnedBy(t.chatMessages, uid, other);
    FindUserAfterRemove(t.users, uid, other);
    OtherSettingsKept(t.settings, uid, other);
  }

  lemma FindUserAfterRemove(s: seq<User>, uid: nat, other: nat)
    requires UsersOrdered(s)
    requires other != uid
    ensures FindUser(RemoveUser(s, uid), other) == FindUser(s, other)
  {
    var r := RemoveUser(s, uid);
    if FindUser(s, other).Some? {
      var u := FindUser(s, other).value;
      assert u in r;
    }
  }

  lemma FirstSettingsGone(s: seq<Row<Settings>>, uid: nat)
    requires Ordered(s)
    ensures OwnedBy(WithoutFirstSettings(s, uid), uid) == (if OwnedBy(s, uid) == [] then [] else OwnedBy(s, uid)[1..])
  {
    if FirstOwned(s, uid).Some? {
      var r := FirstOwned(s, uid).value;
      OwnedByWithout(s, {r.id}, uid);
      var mine := OwnedBy(s, uid);
      OwnedByOrdered(s, uid);
      WithoutHead(mine, r.id);
    }
  }

  /** Dropping the head of an ordered table by its id leaves the tail. */
  lemma WithoutHead<T(!new)>(s: seq<Row<T>>, id: nat)
    requires Ordered(s) && s != [] && s[0].id == id
    ensures WithoutIds(s, {id}) == s[1..]
  {
    forall x | x in s[1..] ensures x.id !in {id} {
      var k :| 1 <= k < |s| && s[k] == x;
    }
    WithoutAbsent(s[1..], {id});
  }

  lemma OtherSettingsKept(s: seq<Row<Settings>>, uid: nat, other: nat)
    requires Ordered(s)
    requires other != uid
    ensures OwnedBy(WithoutFirstSettings(s, uid), other) == OwnedBy(s, other)
  {
    if FirstOwned(s, uid).Some? {
      var r := FirstOwned(s, uid).value;
      OwnedByWithout(s, {r.id}, other);
      forall x | x in OwnedBy(s, other) ensures x.id !in {r.id} {
        if x.id == r.id {
          OrderedUnique(s, x, r);
        }
      }
      WithoutAbsent(OwnedBy(s, other), {r.id});
    }
  }

  lemma DeleteAccountWellFormed(t: Tables, uid: nat)
    requires WellFormed(t)
    ensures WellFormed(DeleteAccountSpec(t, uid))
  {
    NotOwnedWellFormed(t.sessions, uid, t.nextId);
    NotOwnedWellFormed(t.insights, uid, t.nextId);
    NotOwnedWellFormed(t.chatMessages, uid, t.nextId);
    if FirstOwned(t.settings, uid).Some? {
      WithoutIdsOrdered(t.settings, {FirstOwned(t.settings, uid).value.id});
    }
    RemoveUserOrdered(t.users, uid);
  }

  /** The four delete loops of `deleteUserAccount`, then the user. */
  method DeleteAccountRows(t: Tables, uid: nat) returns (r: Tables)
    requires WellFormed(t)
    ensures r == DeleteAccountSpec(t, uid)
  {
    var sessions := DeleteAllOwned(t.sessions, uid);
    var insights := DeleteAllOwned(t.insights, uid);
    var chat := DeleteAllOwned(t.chatMessages, uid);
    var settings := t.settings;
    var first := FirstOwned(t.settings, uid);
    if first.Some? {
      settings := WithoutIds(settings, {first.value.id});
    }
    r := t.(sessions := sessions, insights := insights, chatMessages := chat, settings := settings,
            users := RemoveUser(t.users, uid));
  }

  /** `deleteUserAccount`. For an unknown user the final delete fails and
      the whole mutation with it, so nothing changes. */
  method DeleteUserAccount(db: Db, uid: nat) returns (success: bool)
    requires db.Valid()
    modifies db
    ensures db.Valid()
    ensures success == FindUser(old(db.users), uid).Some?
    ensures !success ==> db.Snapshot() == old(db.Snapshot())
    ensures success ==> db.Snapshot() == DeleteAccountSpec(old(db.Snapshot()), uid)
  {
    if FindUser(db.users, uid).None? {
      return false;
    }
    DeleteAccountWellFormed(db.Snapshot(), uid);
    var r := DeleteAccountRows(db.Snapshot(), uid);
    db.Commit(r);
    return true;
  }
}
