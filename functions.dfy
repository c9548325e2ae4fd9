/** Account creation and the session lifecycle: a session is started open,
    closed exactly once, and closing it bumps its owner's session counter. */
module Functions {
  import opened Schema
  import opened Rows
  import opened Store

  /** What `createUser` leaves behind: the users table, the id counter and
      the id it answers with. */
  datatype Upserted = Upserted(users: seq<User>, nextId: nat, id: nat)

  /** `createUser`: an upsert keyed on the identity-provider id. An existing
      user has its contact fields and `lastActive` overwritten; otherwise a
      free-tier user with zeroed counters is appended. */
  function UpsertUser(users: seq<User>, nextId: nat, clerkId: string, email: string,
                      name: Option<string>, imageUrl: Option<string>, username: Option<string>,
                      now: int): Upserted
  {
    match FindByClerk(users, clerkId)
    case Some(u) =>
      Upserted(ReplaceUser(users, u.(email := email, name := name, imageUrl := imageUrl,
                                      username := username, lastActive := now)),
               nextId, u.id)
    case None =>
      Upserted(users + [User(nextId, clerkId, email, name, imageUrl, username, None, Free,
                             now, now, 0, 0, 0)],
               nextId + 1, nextId)
  }

  lemma {:induction false} FindByClerkAfterReplace(s: seq<User>, u: User, p: User)
    requires UsersOrdered(s)
    requires FindByClerk(s, p.clerkId) == Some(u) && u.id == p.id
    ensures FindByClerk(ReplaceUser(s, p), p.clerkId) == Some(p)
  {
    var r := ReplaceUser(s, p);
    if s[0].clerkId == p.clerkId {
      assert u == s[0];
      assert r[0] == p;
    } else {
      var tail := s[1..];
      assert FindByClerk(tail, p.clerkId) == Some(u);
      HeadBelowTail(s, u);
      FindByClerkAfterReplace(tail, u, p);
      assert r == [s[0]] + ReplaceUser(tail, p);
      assert r[1..] == ReplaceUser(tail, p);
    }
  }

  lemma {:induction false} FindByClerkAppend(s: seq<User>, n: User)
    requires forall u :: u in s ==> u.clerkId != n.clerkId
    ensures FindByClerk(s + [n], n.clerkId) == Some(n)
  {
    if s != [] {
      assert s[0] in s;
      assert (s + [n])[1..] == s[1..] + [n];
      FindByClerkAppend(s[1..], n);
    }
  }

  lemma {:induction false} FindUserAppend(s: seq<User>, n: User)
    requires forall u :: u in s ==> u.id != n.id
    ensures FindUser(s + [n], n.id) == Some(n)
  {
    if s != [] {
      assert s[0] in s;
      assert (s + [n])[1..] == s[1..] + [n];
      FindUserAppend(s[1..], n);
    }
  }

  /** After `createUser` the identity-provider id finds the user whose id was
      returned, carrying the given contact fields. An existing user keeps its
      tier, creation time, bio and counters; a new one is free-tier with all
      three counters at zero. */
  lemma UpsertFindsUser(users: seq<User>, nextId: nat, clerkId: string, email: string,
                        name: Option<string>, imageUrl: Option<string>, username: Option<string>,
                        now: int)
    requires UsersOrdered(users) && UserIdsBelow(users, nextId)
    ensures var r := UpsertUser(users, nextId, clerkId, email, name, imageUrl, username, now);
      && FindByClerk(r.users, clerkId).Some?
      && var v := FindByClerk(r.users, clerkId).value;
      && v.id == r.id && FindUser(r.users, r.id) == Some(v)
      && v.email == email && v.name == name && v.imageUrl == imageUrl
      && v.username == username && v.lastActive == now
      && (match FindByClerk(users, clerkId)
          case Some(u) =>
            && v.tier == u.tier && v.createdAt == u.createdAt && v.bio == u.bio
            && v.totalSessions == u.totalSessions && v.currentStreak == u.currentStreak
            && v.longestStreak == u.longestStreak && r.nextId == nextId
          case None =>
            && v.tier == Free && v.createdAt == now && v.bio == None
            && v.totalSessions == 0 && v.currentStreak == 0 && v.longestStreak == 0
            && r.nextId == nextId + 1)
  {
    match FindByClerk(users, clerkId)
    case Some(u) =>
      var p := u.(email := email, name := name, imageUrl := imageUrl, username := username, lastActive := now);
      FindByClerkAfterReplace(users, u, p);
      FindUserAfterReplace(users, p, p.id);
    case None =>
      var n := User(nextId, clerkId, email, name, imageUrl, username, None, Free, now, now, 0, 0, 0);
      FindByClerkAppend(users, n);
      FindUserAppend(users, n);
  }

  /** Every user other than the one `createUser` answers with is untouched. */
  lemma UpsertOthersUnchanged(users: seq<User>, nextId: nat, clerkId: string, email: string,
                              name: Option<string>, imageUrl: Option<string>, username: Option<string>,
                              now: int)
    ensures var r := UpsertUser(users, nextId, clerkId, email, name, imageUrl, username, now);
      forall i :: 0 <= i < |users| && users[i].id != r.id ==> i < |r.users| && r.users[i] == users[i]
  {
  }

  /** Replacing a user by itself changes nothing. */
  lemma ReplaceUserSame(s: seq<User>, p: User)
    requires forall u :: u in s && u.id == p.id ==> u == p
    ensures ReplaceUser(s, p) == s
  {
    var r := ReplaceUser(s, p);
    forall i | 0 <= i < |s| ensures r[i] == s[i] {
      assert s[i] in s;
    }
  }

  /** Delivering the same identity-provider event twice with the same clock
      gives the same users table, counter and id as delivering it once. */
  lemma UpsertIdempotent(users: seq<User>, nextId: nat, clerkId: string, email: string,
                         name: Option<string>, imageUrl: Option<string>, username: Option<string>,
                         now: int)
    requires UsersOrdered(users) && UserIdsBelow(users, nextId)
    ensures var r := UpsertUser(users, nextId, clerkId, email, name, imageUrl, username, now);
      UpsertUser(r.users, r.nextId, clerkId, email, name, imageUrl, username, now) == r
  {
    var r := UpsertUser(users, nextId, clerkId, email, name, imageUrl, username, now);
    UpsertFindsUser(users, nextId, clerkId, email, name, imageUrl, username, now);
    var v := FindByClerk(r.users, clerkId).value;
    assert v.(email := email, name := name, imageUrl := imageUrl, username := username, lastActive := now) == v;
    forall w | w in r.users && w.id == v.id ensures w == v {
      var k :| 0 <= k < |r.users| && r.users[k] == w;
      match FindByClerk(users, clerkId)
      case Some(u) =>
      case None =>
        assert forall j :: 0 <= j < |users| ==> r.users[j] == users[j] && users[j] in users;
    }
    ReplaceUserSame(r.users, v);
  }

  /** `createUser` on the store. */
  method CreateUser(db: Db, clerkId: string, email: string, name: Option<string>,
                    imageUrl: Option<string>, username: Option<string>, now: int)
    returns (id: nat)
    requires db.Valid()
    modifies db
    ensures db.Valid()
    ensures var r := UpsertUser(old(db.users), old(db.nextId), clerkId, email, name, imageUrl, username, now);
      id == r.id && db.Snapshot() == old(db.Snapshot()).(users := r.users, nextId := r.nextId)
  {
    var t := db.Snapshot();
    var r := UpsertUser(t.users, t.nextId, clerkId, email, name, imageUrl, username, now);
    UpsertWellFormed(t, clerkId, email, name, imageUrl, username, now);
    db.Commit(t.(users := r.users, nextId := r.nextId));
    id := r.id;
  }

  /** The upsert keeps the store well formed: users stay in id order below
      the id counter, whichever branch runs. */
  lemma UpsertWellFormed(t: Tables, clerkId: string, email: string, name: Option<string>,
                         imageUrl: Option<string>, username: Option<string>, now: int)
    requires WellFormed(t)
    ensures var r := UpsertUser(t.users, t.nextId, clerkId, email, name, imageUrl, username, now);
      WellFormed(t.(users := r.users, nextId := r.nextId))
  {
    match FindByClerk(t.users, clerkId)
    case Some(u) =>
      var patched := u.(email := email, name := name, imageUrl := imageUrl, username := username, lastActive := now);
      ReplaceUserWellFormed(t.users, patched, t.nextId);
      WithUsers(t, ReplaceUser(t.users, patched));
    case None =>
      var created := User(t.nextId, clerkId, email, name, imageUrl, username, None, Free, now, now, 0, 0, 0);
      AppendUserWellFormed(t.users, created, t.nextId);
      WithNextId(t, t.nextId + 1);
      WithUsers(t.(nextId := t.nextId + 1), t.users + [created]);
  }

  /** The freshly started, still open session. */
  function OpenSession(intensity: int, tags: seq<string>, mood: Option<Mood>, now: int): (s: Session)
    ensures s.endTime.None? && s.duration.None? && s.startTime == now
  {
    Session(now, None, None, intensity, tags, None, mood)
  }

  /** `startSession`: appends one open session for the user. */
  method StartSession(db: Db, uid: nat, intensity: int, tags: seq<string>, mood: Option<Mood>, now: int)
    returns (id: nat)
    requires db.Valid()
    modifies db
    ensures db.Valid()
    ensures id == old(db.nextId)
    ensures db.Snapshot() == old(db.Snapshot()).(
      sessions := old(db.sessions) + [Row(id, uid, OpenSession(intensity, tags, mood, now))],
      nextId := id + 1)
  {
    id := db.nextId;
    var row := Row(id, uid, OpenSession(intensity, tags, mood, now));
    AppendOrdered(db.sessions, row, db.nextId);
    db.sessions := db.sessions + [row];
    db.nextId := db.nextId + 1;
    assert WellFormed(db.Snapshot()) by {
      var t := db.Snapshot();
      assert UserIdsBelow(t.users, t.nextId) && IdsBelow(t.achievements, t.nextId);
      assert IdsBelow(t.notifications, t.nextId) && IdsBelow(t.settings, t.nextId);
      assert IdsBelow(t.chatMessages, t.nextId) && IdsBelow(t.insights, t.nextId);
    }
  }

  /** A session counts as closed when its end time is set and non-zero (the
      source tests the end time for truthiness). */
  predicate IsClosed(s: Session) {
    s.endTime.Some? && s.endTime.value != 0
  }

  datatype Closed = Closed(duration: int, endTime: int)

  /** What `endSession` leaves behind: the tables, its answer (null is
      `None`) and whether it asked for an achievement check. */
  datatype Ended = Ended(tables: Tables, result: Option<Closed>, checkRequested: bool)

  /** The session as `endSession` patches it: end time, duration in whole
      seconds (`/` rounds toward minus infinity here, as the floor does) and
      the given notes. */
  function CloseDoc(doc: Session, notes: Option<string>, now: int): Session
  {
    doc.(endTime := Some(now), duration := Some((now - doc.startTime) / 1000), notes := notes)
  }

  /** The owner as `endSession` patches it. */
  function Bump(u: User, now: int): User
  {
    u.(totalSessions := u.totalSessions + 1, lastActive := now)
  }

  /** `endSession`: a missing or already closed session is left alone. An
      open one gets its end time, its duration in whole seconds (rounded
      toward minus infinity) and the given notes; its owner, when present,
      gets one more session and a new `lastActive`, and an achievement check
      is requested. */
  function EndSessionSpec(t: Tables, sid: nat, notes: Option<string>, now: int): Ended
  {
    var found := Find(t.sessions, sid);
    if found.None? || IsClosed(found.value.doc) then Ended(t, None, false)
    else
      var closed := CloseDoc(found.value.doc, notes, now);
      var t1 := t.(sessions := Replace(t.sessions, sid, closed));
      var owner := FindUser(t.users, found.value.userId);
      var t2 := if owner.Some? then t1.(users := ReplaceUser(t.users, Bump(owner.value, now))) else t1;
      Ended(t2, Some(Closed(closed.duration.value, now)), owner.Some?)
  }

  /** A session is closed at most once: after a successful close, closing it
      again answers null and writes nothing (for any clock other than the
      epoch itself, which the truthiness test would read as "open"). */
  lemma EndSessionOneShot(t: Tables, sid: nat, notes: Option<string>, now: int,
                          notes2: Option<string>, now2: int)
    requires now != 0
    requires EndSessionSpec(t, sid, notes, now).result.Some?
    ensures var first := EndSessionSpec(t, sid, notes, now);
      EndSessionSpec(first.tables, sid, notes2, now2) == Ended(first.tables, None, false)
  {
    var row := Find(t.sessions, sid).value;
    FindAfterReplace(t.sessions, sid, CloseDoc(row.doc, notes, now), sid);
  }

  /** A failed close changes nothing and schedules nothing; a successful one
      was on an open session, sets its end time and notes, and records as its
      duration the elapsed milliseconds floored to whole seconds, leaving
      every other session, and the other tables, as they were. */
  lemma EndSessionClosesSession(t: Tables, sid: nat, notes: Option<string>, now: int, other: nat)
    ensures var e := EndSessionSpec(t, sid, notes, now);
      && (e.result.None? ==> e.tables == t && !e.checkRequested)
      && (e.result.Some? ==>
            && Find(t.sessions, sid).Some? && !IsClosed(Find(t.sessions, sid).value.doc)
            && var before := Find(t.sessions, sid).value.doc;
            && Find(e.tables.sessions, sid).Some?
            && var doc := Find(e.tables.sessions, sid).value.doc;
            && doc.endTime == Some(now) && doc.notes == notes
            && doc.duration == Some(e.result.value.duration)
            && (now - before.startTime) - 1000 < 1000 * e.result.value.duration <= now - before.startTime
            && doc.startTime == before.startTime && doc.intensity == before.intensity
            && doc == before.(endTime := Some(now), duration := Some(e.result.value.duration), notes := notes)
            && Find(e.tables.sessions, sid).value.userId == Find(t.sessions, sid).value.userId
            && (other != sid ==> Find(e.tables.sessions, other) == Find(t.sessions, other))
            && e.tables.achievements == t.achievements && e.tables.notifications == t.notifications
            && e.tables.settings == t.settings && e.tables.chatMessages == t.chatMessages
            && e.tables.insights == t.insights
            && e.tables.nextId == t.nextId)
  {
    var e := EndSessionSpec(t, sid, notes, now);
    if e.result.Some? {
      var row := Find(t.sessions, sid).value;
      var closed := CloseDoc(row.doc, notes, now);
      FindAfterReplace(t.sessions, sid, closed, sid);
      FindAfterReplace(t.sessions, sid, closed, other);
    }
  }

  /** A successful close raises exactly its owner's `totalSessions`, by one,
      sets the owner's `lastActive` to the close time, requests an
      achievement check exactly when the owner exists, and leaves every
      other user as it was. */
  lemma EndSessionBumpsOwner(t: Tables, sid: nat, notes: Option<string>, now: int, other: nat)
    requires EndSessionSpec(t, sid, notes, now).result.Some?
    ensures var e := EndSessionSpec(t, sid, notes, now);
      var owner := Find(t.sessions, sid).value.userId;
      && e.checkRequested == FindUser(t.users, owner).Some?
      && (other != owner ==> FindUser(e.tables.users, other) == FindUser(t.users, other))
      && (FindUser(t.users, owner).Some? ==>
            && FindUser(e.tables.users, owner).Some?
            && var u := FindUser(t.users, owner).value;
            && var v := FindUser(e.tables.users, owner).value;
            && v.totalSessions == u.totalSessions + 1 && v.lastActive == now
            && v == u.(totalSessions := v.totalSessions, lastActive := v.lastActive))
  {
    var owner := Find(t.sessions, sid).value.userId;
    if FindUser(t.users, owner).Some? {
      var u' := Bump(FindUser(t.users, owner).value, now);
      FindUserAfterReplace(t.users, u', owner);
      FindUserAfterReplace(t.users, u', other);
    }
  }

  /** `endSession` on the store. */
  method EndSession(db: Db, sid: nat, notes: Option<string>, now: int)
    returns (result: Option<Closed>, checkRequested: bool)
    requires db.Valid()
    modifies db
    ensures db.Valid()
    ensures var e := EndSessionSpec(old(db.Snapshot()), sid, notes, now);
      db.Snapshot() == e.tables && result == e.result && checkRequested == e.checkRequested
  {
    var t := db.Snapshot();
    var session := Find(db.sessions, sid);
    if session.None? || IsClosed(session.value.doc) {
      return None, false;
    }
    var endTime := now;
    var closed := CloseDoc(session.value.doc, notes, endTime);
    var sessions := Replace(db.sessions, sid, closed);
    ReplaceOrdered(db.sessions, sid, closed, db.nextId);
    WithSessions(t, sessions);
    db.Commit(t.(sessions := sessions));
    var user := FindUser(db.users, session.value.userId);
    checkRequested := false;
    if user.Some? {
      var users := ReplaceUser(db.users, Bump(user.value, endTime));
      ReplaceUserWellFormed(db.users, Bump(user.value, endTime), db.nextId);
      WithUsers(t.(sessions := sessions), users);
      db.Commit(t.(sessions := sessions, users := users));
      checkRequested := true;
    }
    result := Some(Closed(closed.duration.value, endTime));
    assert db.Snapshot() == EndSessionSpec(t, sid, notes, now).tables;
  }

  /** `getUserSessions`: the user's sessions, newest first, cut to `limit`
      (50 when absent). */
  function GetUserSessions(sessions: seq<Row<Session>>, uid: nat, limit: Option<nat>): seq<Row<Session>>
  {
    Take(Reverse(OwnedBy(sessions, uid)), match limit case Some(n) => n case None => 50)
  }

  /** The answer holds only the user's sessions, at most `limit` (default 50)
      of them, newest first, and no session of the user it leaves out is
      newer than one it keeps. */
  lemma UserSessionsNewestFirst(sessions: seq<Row<Session>>, uid: nat, limit: Option<nat>)
    requires Ordered(sessions)
    ensures var r := GetUserSessions(sessions, uid, limit);
      var n := match limit case Some(n) => n case None => 50;
      && |r| == (if n < |OwnedBy(sessions, uid)| then n else |OwnedBy(sessions, uid)|)
      && (forall x :: x in r ==> x in sessions && x.userId == uid)
      && (forall i, j :: 0 <= i < j < |r| ==> r[i].id > r[j].id)
      && (forall x, y :: x in sessions && x.userId == uid && x !in r && y in r ==> x.id < y.id)
  {
    var owned := OwnedBy(sessions, uid);
    var n := match limit case Some(n) => n case None => 50;
    OwnedByOrdered(sessions, uid);
    NewestFirst(owned, n);
    TakeReverseIn(owned, n);
  }
}
