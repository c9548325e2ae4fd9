/** The hosted document store, in memory: one sequence per table, in
    insertion order, and one counter that hands out fresh ids. */
module Store {
  import opened Schema
  import opened Rows

  /** The contents of every table at one moment. */
  datatype Tables = Tables(
    users: seq<User>,
    sessions: seq<Row<Session>>,
    achievements: seq<Row<Achievement>>,
    notifications: seq<Row<Notification>>,
    settings: seq<Row<Settings>>,
    chatMessages: seq<Row<ChatMessage>>,
    insights: seq<Row<Insight>>,
    nextId: nat)

  ghost predicate UsersOrdered(s: seq<User>) {
    forall i, j :: 0 <= i < j < |s| ==> s[i].id < s[j].id
  }

  ghost predicate UserIdsBelow(s: seq<User>, bound: nat) {
    forall u :: u in s ==> u.id < bound
  }

  /** Every table is in id order and no id has been handed out twice. */
  ghost predicate WellFormed(t: Tables) {
    && UsersOrdered(t.users) && UserIdsBelow(t.users, t.nextId)
    && Ordered(t.sessions) && IdsBelow(t.sessions, t.nextId)
    && Ordered(t.achievements) && IdsBelow(t.achievements, t.nextId)
    && Ordered(t.notifications) && IdsBelow(t.notifications, t.nextId)
    && Ordered(t.settings) && IdsBelow(t.settings, t.nextId)
    && Ordered(t.chatMessages) && IdsBelow(t.chatMessages, t.nextId)
    && Ordered(t.insights) && IdsBelow(t.insights, t.nextId)
  }

  /** The user with a given id (`db.get` on the users table). */
  function FindUser(s: seq<User>, id: nat): (r: Option<User>)
    ensures r.Some? ==> r.value in s && r.value.id == id
    ensures r.None? <==> forall u :: u in s ==> u.id != id
  {
    if s == [] then None
    else if s[0].id == id then Some(s[0])
    else FindUser(s[1..], id)
  }

  /** The first user with a given identity-provider id (the `by_clerk_id` index). */
  function FindByClerk(s: seq<User>, clerkId: string): (r: Option<User>)
    ensures r.Some? ==> r.value in s && r.value.clerkId == clerkId
    ensures r.None? <==> forall u :: u in s ==> u.clerkId != clerkId
  {
    if s == [] then None
    else if s[0].clerkId == clerkId then Some(s[0])
    else FindByClerk(s[1..], clerkId)
  }

  /** The users table after patching the user whose id is `u.id` to `u`. */
  function ReplaceUser(s: seq<User>, u: User): (r: seq<User>)
    ensures |r| == |s|
    ensures forall i :: 0 <= i < |s| ==> r[i] == (if s[i].id == u.id then u else s[i])
  {
    if s == [] then [] else [if s[0].id == u.id then u else s[0]] + ReplaceUser(s[1..], u)
  }

  /** The users table after deleting the user with id `id`. */
  function RemoveUser(s: seq<User>, id: nat): (r: seq<User>)
    ensures |r| <= |s|
    ensures forall u :: u in r <==> u in s && u.id != id
  {
    if s == [] then []
    else (if s[0].id != id then [s[0]] else []) + RemoveUser(s[1..], id)
  }

  lemma ReplaceUserWellFormed(s: seq<User>, u: User, bound: nat)
    requires UsersOrdered(s) && UserIdsBelow(s, bound)
    ensures UsersOrdered(ReplaceUser(s, u)) && UserIdsBelow(ReplaceUser(s, u), bound)
  {
    var r := ReplaceUser(s, u);
    forall k | 0 <= k < |r| ensures r[k].id == s[k].id {
    }
    forall x | x in r ensures x.id < bound {
      var k :| 0 <= k < |r| && r[k] == x;
      assert s[k] in s;
    }
    forall i, j | 0 <= i < j < |r| ensures r[i].id < r[j].id {
      assert r[i].id == s[i].id && r[j].id == s[j].id;
    }
  }

  /** In an ordered users table the head's id is below every later id, and
      the tail is ordered too. */
  lemma HeadBelowTail(s: seq<User>, u: User)
    requires UsersOrdered(s) && s != [] && u in s[1..]
    ensures s[0].id < u.id && UsersOrdered(s[1..])
  {
    var k :| 1 <= k < |s| && s[k] == u;
    forall i, j | 0 <= i < j < |s| - 1 ensures s[1..][i].id < s[1..][j].id {
      assert s[1..][i] == s[i + 1] && s[1..][j] == s[j + 1];
    }
  }

  lemma AppendUserWellFormed(s: seq<User>, u: User, bound: nat)
    requires UsersOrdered(s) && UserIdsBelow(s, bound) && bound <= u.id
    ensures UsersOrdered(s + [u]) && UserIdsBelow(s + [u], u.id + 1)
  {
    forall i, j | 0 <= i < j < |s + [u]| ensures (s + [u])[i].id < (s + [u])[j].id {
      if j == |s| {
        assert s[i] in s;
      }
    }
  }

  lemma {:induction false} RemoveUserOrdered(s: seq<User>, id: nat)
    requires UsersOrdered(s)
    ensures UsersOrdered(RemoveUser(s, id))
  {
    if s != [] {
      RemoveUserOrdered(s[1..], id);
      forall x | x in RemoveUser(s[1..], id) ensures s[0].id < x.id {
        var k :| 0 <= k < |s[1..]| && s[1..][k] == x;
        assert s[k + 1] == x;
      }
    }
  }

  lemma {:induction false} FindUserAfterReplace(s: seq<User>, u: User, other: nat)
    ensures FindUser(ReplaceUser(s, u), other) ==
      (if other == u.id && FindUser(s, other).Some? then Some(u) else FindUser(s, other))
  {
    if s != [] {
      FindUserAfterReplace(s[1..], u, other);
      assert ReplaceUser(s, u)[1..] == ReplaceUser(s[1..], u);
    }
  }

  lemma WithUsers(t: Tables, users: seq<User>)
    requires WellFormed(t) && UsersOrdered(users) && UserIdsBelow(users, t.nextId)
    ensures WellFormed(t.(users := users))
  {
  }

  lemma WithSessions(t: Tables, sessions: seq<Row<Session>>)
    requires WellFormed(t) && Ordered(sessions) && IdsBelow(sessions, t.nextId)
    ensures WellFormed(t.(sessions := sessions))
  {
  }

  lemma WithSettings(t: Tables, settings: seq<Row<Settings>>)
    requires WellFormed(t) && Ordered(settings) && IdsBelow(settings, t.nextId)
    ensures WellFormed(t.(settings := settings))
  {
  }

  lemma WithChat(t: Tables, chat: seq<Row<ChatMessage>>)
    requires WellFormed(t) && Ordered(chat) && IdsBelow(chat, t.nextId)
    ensures WellFormed(t.(chatMessages := chat))
  {
  }

  lemma WithInsights(t: Tables, insights: seq<Row<Insight>>)
    requires WellFormed(t) && Ordered(insights) && IdsBelow(insights, t.nextId)
    ensures WellFormed(t.(insights := insights))
  {
  }

  /** Raising the id counter keeps every table's ids below it. */
  lemma WithNextId(t: Tables, n: nat)
    requires WellFormed(t) && t.nextId <= n
    ensures WellFormed(t.(nextId := n))
  {
  }

  /** A `for` loop of `delete` calls over `rows`, applied to one table. */
  method DeleteEach<T(!new)>(table: seq<Row<T>>, rows: seq<Row<T>>) returns (r: seq<Row<T>>)
    ensures r == WithoutIds(table, IdsOf(rows))
  {
    WithoutAbsent(table, {});
    r := table;
    var i := 0;
    assert IdsOf(rows[..0]) == {};
    while i < |rows|
      invariant 0 <= i <= |rows|
      invariant r == WithoutIds(table, IdsOf(rows[..i]))
    {
      WithoutIdsTwice(table, IdsOf(rows[..i]), {rows[i].id});
      assert IdsOf(rows[..i + 1]) == IdsOf(rows[..i]) + {rows[i].id} by {
        assert rows[..i + 1] == rows[..i] + [rows[i]];
      }
      r := WithoutIds(r, {rows[i].id});
      i := i + 1;
    }
    assert rows[..i] == rows;
  }

  /** Deleting every row of one user, one `delete` at a time, leaves
      exactly the other users' rows. */
  lemma DeleteOwned<T(!new)>(table: seq<Row<T>>, uid: nat)
    requires Ordered(table)
    ensures WithoutIds(table, IdsOf(OwnedBy(table, uid))) == NotOwnedBy(table, uid)
  {
    OwnedIdsPickOwner(table, uid);
    WithoutOwnedIds(table, uid, IdsOf(OwnedBy(table, uid)));
  }

  lemma NotOwnedWellFormed<T(!new)>(s: seq<Row<T>>, uid: nat, bound: nat)
    requires Ordered(s) && IdsBelow(s, bound)
    ensures Ordered(NotOwnedBy(s, uid)) && IdsBelow(NotOwnedBy(s, uid), bound)
  {
    DeleteOwned(s, uid);
    WithoutIdsOrdered(s, IdsOf(OwnedBy(s, uid)));
  }

  /** The delete loop of a mutation over one table: every row of the user,
      one at a time. */
  method DeleteAllOwned<T(!new)>(table: seq<Row<T>>, uid: nat) returns (r: seq<Row<T>>)
    requires Ordered(table)
    ensures r == NotOwnedBy(table, uid)
  {
    r := DeleteEach(table, OwnedBy(table, uid));
    DeleteOwned(table, uid);
  }

  /** The store. Each table is a field that the mutations reassign. */
  /** A store whose tables are well formed is valid. */
  lemma Validated(db: Db)
    requires WellFormed(db.Snapshot())
    ensures db.Valid()
  {
  }

  class Db {
    var users: seq<User>
    var sessions: seq<Row<Session>>
    var achievements: seq<Row<Achievement>>
    var notifications: seq<Row<Notification>>
    var settings: seq<Row<Settings>>
    var chatMessages: seq<Row<ChatMessage>>
    var insights: seq<Row<Insight>>
    var nextId: nat

    function Snapshot(): Tables
      reads this
    {
      Tables(users, sessions, achievements, notifications, settings, chatMessages, insights, nextId)
    }

    ghost predicate Valid()
      reads this
    {
      WellFormed(Snapshot())
    }

    /** Writes a whole new set of tables. */
    method Commit(t: Tables)
      requires WellFormed(t)
      modifies this
      ensures Valid() && Snapshot() == t
    {
      users, sessions, achievements, notifications := t.users, t.sessions, t.achievements, t.notifications;
      settings, chatMessages, insights, nextId := t.settings, t.chatMessages, t.insights, t.nextId;
    }

    constructor ()
      ensures Valid()
      ensures Snapshot() == Tables([], [], [], [], [], [], [], 0)
    {
      users, sessions, achievements, notifications := [], [], [], [];
      settings, chatMessages, insights, nextId := [], [], [], 0;
    }
  }
}
