/** Queries over one table of per-user documents. A table is kept in
    insertion order, which is also increasing id order, so the store's
    `by_user` index read ascending is `OwnedBy` and read descending is its
    reverse. */
module Rows {
  import opened Schema

  /** Ids strictly increase along the table. */
  ghost predicate Ordered<T>(s: seq<Row<T>>) {
    forall i, j :: 0 <= i < j < |s| ==> s[i].id < s[j].id
  }

  /** Every id in the table is below `bound` (the next id to hand out). */
  ghost predicate IdsBelow<T>(s: seq<Row<T>>, bound: nat) {
    forall r :: r in s ==> r.id < bound
  }

  /** The rows of one user, in table order (the `by_user` index). */
  function OwnedBy<T(!new)>(s: seq<Row<T>>, uid: nat): (r: seq<Row<T>>)
    ensures |r| <= |s|
    ensures forall x :: x in r <==> x in s && x.userId == uid
  {
    if s == [] then []
    else (if s[0].userId == uid then [s[0]] else []) + OwnedBy(s[1..], uid)
  }

  /** The rows of everybody but one user, in table order. */
  function NotOwnedBy<T(!new)>(s: seq<Row<T>>, uid: nat): (r: seq<Row<T>>)
    ensures |r| <= |s|
    ensures forall x :: x in r <==> x in s && x.userId != uid
  {
    if s == [] then []
    else (if s[0].userId != uid then [s[0]] else []) + NotOwnedBy(s[1..], uid)
  }

  /** The table after deleting every row whose id is in `ids`. */
  function WithoutIds<T(!new)>(s: seq<Row<T>>, ids: set<nat>): (r: seq<Row<T>>)
    ensures |r| <= |s|
    ensures forall x :: x in r <==> x in s && x.id !in ids
  {
    if s == [] then []
    else (if s[0].id !in ids then [s[0]] else []) + WithoutIds(s[1..], ids)
  }

  /** The first row with a given id. */
  function Find<T(!new)>(s: seq<Row<T>>, id: nat): (r: Option<Row<T>>)
    ensures r.Some? ==> r.value in s && r.value.id == id
    ensures r.None? <==> forall x :: x in s ==> x.id != id
  {
    if s == [] then None
    else if s[0].id == id then Some(s[0])
    else Find(s[1..], id)
  }

  /** The first row of a user (the `by_user` index's `first()`). */
  function FirstOwned<T(!new)>(s: seq<Row<T>>, uid: nat): (r: Option<Row<T>>)
    ensures r.Some? ==> r.value in s && r.value.userId == uid
    ensures r.None? <==> OwnedBy(s, uid) == []
    ensures r.Some? ==> r.value == OwnedBy(s, uid)[0]
  {
    if s == [] then None
    else if s[0].userId == uid then Some(s[0])
    else FirstOwned(s[1..], uid)
  }

  /** The table after patching the document of the row with id `id`. */
  function Replace<T>(s: seq<Row<T>>, id: nat, doc: T): (r: seq<Row<T>>)
    ensures |r| == |s|
    ensures forall i :: 0 <= i < |s| ==> r[i].id == s[i].id && r[i].userId == s[i].userId
    ensures forall i :: 0 <= i < |s| ==> r[i].doc == (if s[i].id == id then doc else s[i].doc)
  {
    if s == [] then []
    else [if s[0].id == id then s[0].(doc := doc) else s[0]] + Replace(s[1..], id, doc)
  }

  /** Reversal: the descending read of an index. */
  function Reverse<T>(s: seq<T>): (r: seq<T>)
    ensures |r| == |s|
    ensures forall i :: 0 <= i < |s| ==> r[i] == s[|s| - 1 - i]
  {
    if s == [] then [] else Reverse(s[1..]) + [s[0]]
  }

  /** `take(n)`: the first `n` elements, or all of them. */
  function Take<T>(s: seq<T>, n: nat): (r: seq<T>)
    ensures |r| == if n < |s| then n else |s|
    ensures r <= s
  {
    if n < |s| then s[..n] else s
  }

  lemma {:induction false} OwnedByAppend<T(!new)>(a: seq<Row<T>>, b: seq<Row<T>>, uid: nat)
    ensures OwnedBy(a + b, uid) == OwnedBy(a, uid) + OwnedBy(b, uid)
  {
    if a == [] {
      assert a + b == b;
    } else {
      assert (a + b)[1..] == a[1..] + b;
      OwnedByAppend(a[1..], b, uid);
    }
  }

  lemma {:induction false} NotOwnedByAppend<T(!new)>(a: seq<Row<T>>, b: seq<Row<T>>, uid: nat)
    ensures NotOwnedBy(a + b, uid) == NotOwnedBy(a, uid) + NotOwnedBy(b, uid)
  {
    if a == [] {
      assert a + b == b;
    } else {
      assert (a + b)[1..] == a[1..] + b;
      NotOwnedByAppend(a[1..], b, uid);
    }
  }

  lemma {:induction false} WithoutIdsOrdered<T(!new)>(s: seq<Row<T>>, ids: set<nat>)
    requires Ordered(s)
    ensures Ordered(WithoutIds(s, ids))
  {
    if s != [] {
      WithoutIdsOrdered(s[1..], ids);
      var tail := WithoutIds(s[1..], ids);
      forall x | x in tail ensures s[0].id < x.id {
        var k :| 0 <= k < |s[1..]| && s[1..][k] == x;
        assert s[k + 1] == x;
      }
    }
  }

  lemma {:induction false} WithoutIdsTwice<T(!new)>(s: seq<Row<T>>, a: set<nat>, b: set<nat>)
    ensures WithoutIds(WithoutIds(s, a), b) == WithoutIds(s, a + b)
  {
    if s != [] {
      WithoutIdsTwice(s[1..], a, b);
      if s[0].id !in a {
        assert WithoutIds(s, a) == [s[0]] + WithoutIds(s[1..], a);
        assert WithoutIds(s, a)[1..] == WithoutIds(s[1..], a);
      } else {
        assert WithoutIds(s, a) == WithoutIds(s[1..], a);
      }
    }
  }

  /** Deleting a set of ids that picks out exactly one user's rows is the
      same as keeping everybody else's rows. */
  lemma {:induction false} WithoutOwnedIds<T(!new)>(s: seq<Row<T>>, uid: nat, ids: set<nat>)
    requires forall x :: x in s ==> (x.id in ids <==> x.userId == uid)
    ensures WithoutIds(s, ids) == NotOwnedBy(s, uid)
  {
    if s != [] {
      assert s[0] in s;
      WithoutOwnedIds(s[1..], uid, ids);
    }
  }

  lemma OrderedUnique<T(!new)>(s: seq<Row<T>>, x: Row<T>, y: Row<T>)
    requires Ordered(s) && x in s && y in s && x.id == y.id
    ensures x == y
  {
    var i :| 0 <= i < |s| && s[i] == x;
    var j :| 0 <= j < |s| && s[j] == y;
    assert !(i < j) && !(j < i);
  }

  /** Appending a row with a fresh, larger id keeps the table ordered. */
  lemma AppendOrdered<T(!new)>(s: seq<Row<T>>, r: Row<T>, bound: nat)
    requires Ordered(s) && IdsBelow(s, bound) && bound <= r.id
    ensures Ordered(s + [r]) && IdsBelow(s + [r], r.id + 1)
  {
    forall i, j | 0 <= i < j < |s + [r]| ensures (s + [r])[i].id < (s + [r])[j].id {
      if j == |s| {
        assert s[i] in s;
      }
    }
  }

  lemma ReplaceOrdered<T(!new)>(s: seq<Row<T>>, id: nat, doc: T, bound: nat)
    requires Ordered(s) && IdsBelow(s, bound)
    ensures Ordered(Replace(s, id, doc)) && IdsBelow(Replace(s, id, doc), bound)
  {
    var r := Replace(s, id, doc);
    forall x | x in r ensures x.id < bound {
      var k :| 0 <= k < |r| && r[k] == x;
      assert s[k] in s;
    }
  }

  lemma WithoutIdsBelow<T(!new)>(s: seq<Row<T>>, ids: set<nat>, bound: nat)
    requires IdsBelow(s, bound)
    ensures IdsBelow(WithoutIds(s, ids), bound)
  {
  }

  /** Patching a row leaves every lookup by id in place, and the patched row
      is found with its new document. */
  lemma {:induction false} FindAfterReplace<T(!new)>(s: seq<Row<T>>, id: nat, doc: T, other: nat)
    ensures Find(Replace(s, id, doc), other) ==
      (if other == id && Find(s, id).Some? then Some(Find(s, id).value.(doc := doc)) else Find(s, other))
  {
    if s != [] {
      FindAfterReplace(s[1..], id, doc, other);
      assert Replace(s, id, doc)[1..] == Replace(s[1..], id, doc);
    }
  }

  lemma {:induction false} OwnedByOrdered<T(!new)>(s: seq<Row<T>>, uid: nat)
    requires Ordered(s)
    ensures Ordered(OwnedBy(s, uid))
  {
    if s != [] {
      OwnedByOrdered(s[1..], uid);
      forall x | x in OwnedBy(s[1..], uid) ensures s[0].id < x.id {
        var k :| 0 <= k < |s[1..]| && s[1..][k] == x;
        assert s[k + 1] == x;
      }
    }
  }

  /** The descending read of an ordered table cut to `n` rows holds the
      newest rows, newest first: ids strictly decrease, and every row left
      out is older than every row kept. */
  lemma NewestFirst<T(!new)>(s: seq<Row<T>>, n: nat)
    requires Ordered(s)
    ensures var r := Take(Reverse(s), n);
      && (forall i, j :: 0 <= i < j < |r| ==> r[i].id > r[j].id)
      && (forall x, y :: x in s && x !in r && y in r ==> x.id < y.id)
  {
    var r := Take(Reverse(s), n);
    var m := |r|;
    assert forall k :: |s| - m <= k < |s| ==> s[k] == r[|s| - 1 - k];
    forall x, y | x in s && x !in r && y in r ensures x.id < y.id {
      var k :| 0 <= k < |s| && s[k] == x;
      var j :| 0 <= j < m && r[j] == y;
      assert k < |s| - m;
      assert y == s[|s| - 1 - j];
    }
  }

  lemma TakeReverseIn<T>(s: seq<T>, n: nat)
    ensures forall x :: x in Take(Reverse(s), n) ==> x in s
  {
    var r := Take(Reverse(s), n);
    forall x | x in r ensures x in s {
      var k :| 0 <= k < |r| && r[k] == x;
      assert x == s[|s| - 1 - k];
    }
  }

  /** The ids of a list of rows. */
  ghost function IdsOf<T(!new)>(rows: seq<Row<T>>): set<nat> {
    set x | x in rows :: x.id
  }

  /** Deleting ids no row carries leaves the table as it was. */
  lemma {:induction false} WithoutAbsent<T(!new)>(s: seq<Row<T>>, ids: set<nat>)
    requires forall x :: x in s ==> x.id !in ids
    ensures WithoutIds(s, ids) == s
  {
    if s != [] {
      assert s[0] in s;
      WithoutAbsent(s[1..], ids);
    }
  }

  /** In an ordered table the ids of one user's rows pick out exactly
      that user's rows. */
  lemma OwnedIdsPickOwner<T(!new)>(s: seq<Row<T>>, uid: nat)
    requires Ordered(s)
    ensures forall x :: x in s ==> (x.id in IdsOf(OwnedBy(s, uid)) <==> x.userId == uid)
  {
    forall x | x in s && x.id in IdsOf(OwnedBy(s, uid)) ensures x.userId == uid {
      var y :| y in OwnedBy(s, uid) && y.id == x.id;
      OrderedUnique(s, x, y);
    }
  }

  /** Removing one user's rows leaves every other user's rows, in order. */
  lemma {:induction false} OwnedByNotOwnedBy<T(!new)>(s: seq<Row<T>>, uid: nat, other: nat)
    ensures OwnedBy(NotOwnedBy(s, uid), other) == if other == uid then [] else OwnedBy(s, other)
  {
    if s != [] {
      OwnedByNotOwnedBy(s[1..], uid, other);
      OwnedByAppend(if s[0].userId != uid then [s[0]] else [], NotOwnedBy(s[1..], uid), other);
      assert OwnedBy([s[0]], other) == if s[0].userId == other then [s[0]] else [] by {
        assert [s[0]][1..] == [];
      }
    }
  }

  /** Filtering by owner and deleting by id commute. */
  lemma {:induction false} OwnedByWithout<T(!new)>(s: seq<Row<T>>, ids: set<nat>, uid: nat)
    ensures OwnedBy(WithoutIds(s, ids), uid) == WithoutIds(OwnedBy(s, uid), ids)
  {
    if s != [] {
      var x, rest := s[0], s[1..];
      OwnedByWithout(rest, ids, uid);
      if x.id in ids {
        assert WithoutIds(s, ids) == WithoutIds(rest, ids);
        if x.userId == uid {
          assert OwnedBy(s, uid) == [x] + OwnedBy(rest, uid);
          assert WithoutIds([x] + OwnedBy(rest, uid), ids) == WithoutIds(OwnedBy(rest, uid), ids) by {
            assert ([x] + OwnedBy(rest, uid))[1..] == OwnedBy(rest, uid);
          }
        } else {
          assert OwnedBy(s, uid) == OwnedBy(rest, uid);
        }
      } else {
        var w := WithoutIds(rest, ids);
        assert WithoutIds(s, ids) == [x] + w;
        assert ([x] + w)[1..] == w;
        if x.userId == uid {
          assert OwnedBy([x] + w, uid) == [x] + OwnedBy(w, uid);
          assert OwnedBy(s, uid) == [x] + OwnedBy(rest, uid);
          assert ([x] + OwnedBy(rest, uid))[1..] == OwnedBy(rest, uid);
        } else {
          assert OwnedBy([x] + w, uid) == OwnedBy(w, uid);
          assert OwnedBy(s, uid) == OwnedBy(rest, uid);
        }
      }
    }
  }

  /** Patching documents keeps the position of a user's first row. */
  lemma {:induction false} FirstOwnedReplace<T(!new)>(s: seq<Row<T>>, uid: nat, id: nat, doc: T)
    ensures FirstOwned(Replace(s, id, doc), uid)
         == match FirstOwned(s, uid)
            case None => None
            case Some(x) => Some(if x.id == id then x.(doc := doc) else x)
  {
    if s != [] {
      FirstOwnedReplace(s[1..], uid, id, doc);
      assert Replace(s, id, doc)[1..] == Replace(s[1..], id, doc);
    }
  }

  lemma {:induction false} FirstOwnedAppend<T(!new)>(s: seq<Row<T>>, row: Row<T>, uid: nat)
    ensures FirstOwned(s + [row], uid)
         == if FirstOwned(s, uid).Some? then FirstOwned(s, uid)
            else if row.userId == uid then Some(row) else None
  {
    if s == [] {
      assert [row][1..] == [];
    } else {
      assert (s + [row])[1..] == s[1..] + [row];
      FirstOwnedAppend(s[1..], row, uid);
    }
  }

  /** Patching a row to the document it already has changes nothing. */
  lemma ReplaceSame<T(!new)>(s: seq<Row<T>>, id: nat, doc: T)
    requires forall x :: x in s && x.id == id ==> x.doc == doc
    ensures Replace(s, id, doc) == s
  {
    var r := Replace(s, id, doc);
    forall i | 0 <= i < |s| ensures r[i] == s[i] {
      assert s[i] in s;
    }
  }

  /** Patching documents keeps how many rows each user has. */
  lemma {:induction false} OwnedByReplace<T(!new)>(s: seq<Row<T>>, id: nat, doc: T, uid: nat)
    ensures |OwnedBy(Replace(s, id, doc), uid)| == |OwnedBy(s, uid)|
  {
    if s != [] {
      OwnedByReplace(s[1..], id, doc, uid);
      assert Replace(s, id, doc)[1..] == Replace(s[1..], id, doc);
    }
  }
}
