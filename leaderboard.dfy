/** The two leaderboard queries: per-user totals over a time window, a
    stable sort by total, a cut to a limit, and 1-based ranks with a
    percentile; and one user's rank counted as "users strictly ahead". */
module Leaderboard {
  import opened Schema
  import opened Rows
  import opened JsMath

  datatype Period = Daily | Weekly | Monthly

  const DayMs: int := 24 * 60 * 60 * 1000

  /** Start of the window: local midnight today, or seven or thirty days of
      milliseconds back from `now`. */
  function WindowStart(period: Period, now: int, lt: LocalTime): int
  {
    match period
    case Daily => lt.midnightOf(now)
    case Weekly => now - 7 * DayMs
    case Monthly => now - 30 * DayMs
  }

  /** A session the window counts: started at or after `start` and closed
      (its duration is set). There is no upper bound. */
  predicate InWindow(s: Session, start: int) {
    s.startTime >= start && s.duration.Some?
  }

  /** `s.duration || 0` */
  function DurationOf(s: Session): int {
    match s.duration case Some(d) => d case None => 0
  }

  /** `s.intensity || 5`: an intensity of zero counts as five. */
  function IntensityOf(s: Session): int {
    if s.intensity == 0 then 5 else s.intensity
  }

  /** The documents of one user's sessions in the window, in table order. */
  function WindowOf(sessions: seq<Row<Session>>, uid: nat, start: int): (r: seq<Session>)
    ensures |r| <= |sessions|
    ensures forall s :: s in r ==> InWindow(s, start)
    ensures forall x :: x in sessions && x.userId == uid && InWindow(x.doc, start) ==> x.doc in r
  {
    if sessions == [] then []
    else
      (if sessions[0].userId == uid && InWindow(sessions[0].doc, start) then [sessions[0].doc] else [])
      + WindowOf(sessions[1..], uid, start)
  }

  /** `idx` lists, in increasing order, the positions of exactly the rows of
      `uid` in the window, and `w` holds their documents in that order. */
  ghost predicate Enumerates(sessions: seq<Row<Session>>, uid: nat, start: int, w: seq<Session>, idx: seq<nat>) {
    |idx| == |w| && PicksWindow(sessions, uid, start, w, idx) && Increasing(idx) && Covers(sessions, uid, start, idx)
  }

  /** The k-th position holds a row of `uid` in the window whose document is `w[k]`. */
  ghost predicate PicksWindow(sessions: seq<Row<Session>>, uid: nat, start: int, w: seq<Session>, idx: seq<nat>)
    requires |idx| == |w|
  {
    forall k :: 0 <= k < |idx| ==>
      && idx[k] < |sessions| && sessions[idx[k]].userId == uid && InWindow(sessions[idx[k]].doc, start)
      && sessions[idx[k]].doc == w[k]
  }

  ghost predicate Increasing(idx: seq<nat>) {
    forall k, l :: 0 <= k < l < |idx| ==> idx[k] < idx[l]
  }

  /** Every row of `uid` in the window has its position listed. */
  ghost predicate Covers(sessions: seq<Row<Session>>, uid: nat, start: int, idx: seq<nat>) {
    forall i :: 0 <= i < |sessions| && sessions[i].userId == uid && InWindow(sessions[i].doc, start) ==> i in idx
  }

  /** The window is exactly the documents of the user's in-window rows, in
      table order. */
  lemma {:induction false} WindowOfExact(sessions: seq<Row<Session>>, uid: nat, start: int) returns (idx: seq<nat>)
    ensures Enumerates(sessions, uid, start, WindowOf(sessions, uid, start), idx)
  {
    if sessions == [] {
      return [];
    }
    var rest := WindowOfExact(sessions[1..], uid, start);
    assert sessions == [sessions[0]] + sessions[1..];
    idx := EnumeratesCons(sessions[0], sessions[1..], uid, start, WindowOf(sessions[1..], uid, start), rest);
  }

  function Shift(idx: seq<nat>): (r: seq<nat>)
    ensures |r| == |idx| && forall k :: 0 <= k < |idx| ==> r[k] == idx[k] + 1
  {
    seq(|idx|, k requires 0 <= k < |idx| => idx[k] + 1)
  }

  lemma EnumeratesCons(row: Row<Session>, tail: seq<Row<Session>>, uid: nat, start: int,
                       wt: seq<Session>, rest: seq<nat>) returns (idx: seq<nat>)
    requires Enumerates(tail, uid, start, wt, rest)
    ensures Enumerates([row] + tail, uid, start,
                       (if row.userId == uid && InWindow(row.doc, start) then [row.doc] else []) + wt, idx)
  {
    if row.userId == uid && InWindow(row.doc, start) {
      EnumeratesKept(row, tail, uid, start, wt, rest);
      idx := [0] + Shift(rest);
    } else {
      EnumeratesSkipped(row, tail, uid, start, wt, rest);
      assert [] + wt == wt;
      idx := Shift(rest);
    }
  }

  /** A leading row outside the window shifts every position by one. */
  lemma EnumeratesSkipped(row: Row<Session>, tail: seq<Row<Session>>, uid: nat, start: int,
                          wt: seq<Session>, rest: seq<nat>)
    requires Enumerates(tail, uid, start, wt, rest)
    requires !(row.userId == uid && InWindow(row.doc, start))
    ensures Enumerates([row] + tail, uid, start, wt, Shift(rest))
  {
    var sessions, idx := [row] + tail, Shift(rest);
    forall k | 0 <= k < |idx|
      ensures idx[k] < |sessions| && sessions[idx[k]].userId == uid && InWindow(sessions[idx[k]].doc, start)
      ensures sessions[idx[k]].doc == wt[k]
    {
      assert sessions[idx[k]] == tail[rest[k]];
    }
    forall i | 0 <= i < |sessions| && sessions[i].userId == uid && InWindow(sessions[i].doc, start)
      ensures i in idx
    {
      assert tail[i - 1] == sessions[i];
      var k :| 0 <= k < |rest| && rest[k] == i - 1;
      assert idx[k] == i;
    }
  }

  /** A leading row in the window takes position 0 ahead of the shifted
      positions of the rest. */
  lemma EnumeratesKept(row: Row<Session>, tail: seq<Row<Session>>, uid: nat, start: int,
                       wt: seq<Session>, rest: seq<nat>)
    requires Enumerates(tail, uid, start, wt, rest)
    requires row.userId == uid && InWindow(row.doc, start)
    ensures Enumerates([row] + tail, uid, start, [row.doc] + wt, [0] + Shift(rest))
  {
    KeptPicks(row, tail, uid, start, wt, rest);
    KeptIncreasing(rest);
    KeptCovers(row, tail, uid, start, rest);
  }

  lemma KeptPicks(row: Row<Session>, tail: seq<Row<Session>>, uid: nat, start: int,
                  wt: seq<Session>, rest: seq<nat>)
    requires |rest| == |wt| && PicksWindow(tail, uid, start, wt, rest)
    requires row.userId == uid && InWindow(row.doc, start)
    ensures PicksWindow([row] + tail, uid, start, [row.doc] + wt, [0] + Shift(rest))
  {
    var sessions, idx, w := [row] + tail, [0] + Shift(rest), [row.doc] + wt;
    forall k | 0 <= k < |idx|
      ensures idx[k] < |sessions| && sessions[idx[k]].userId == uid && InWindow(sessions[idx[k]].doc, start)
      ensures sessions[idx[k]].doc == w[k]
    {
      if k > 0 {
        assert idx[k] == rest[k - 1] + 1 && w[k] == wt[k - 1];
        assert sessions[idx[k]] == tail[rest[k - 1]];
      }
    }
  }

  lemma KeptIncreasing(rest: seq<nat>)
    requires Increasing(rest)
    ensures Increasing([0] + Shift(rest))
  {
    var idx := [0] + Shift(rest);
    forall k, l | 0 <= k < l < |idx| ensures idx[k] < idx[l] {
      assert idx[l] == rest[l - 1] + 1;
      if k > 0 {
        assert idx[k] == rest[k - 1] + 1;
      }
    }
  }

  lemma KeptCovers(row: Row<Session>, tail: seq<Row<Session>>, uid: nat, start: int, rest: seq<nat>)
    requires Covers(tail, uid, start, rest)
    ensures Covers([row] + tail, uid, start, [0] + Shift(rest))
  {
    var sessions, idx := [row] + tail, [0] + Shift(rest);
    forall i | 0 <= i < |sessions| && sessions[i].userId == uid && InWindow(sessions[i].doc, start)
      ensures i in idx
    {
      if i > 0 {
        assert tail[i - 1] == sessions[i];
        var k :| 0 <= k < |rest| && rest[k] == i - 1;
        assert idx[k + 1] == i;
      }
    }
  }

  function Total(ss: seq<Session>): int {
    if ss == [] then 0 else Total(ss[..|ss| - 1]) + DurationOf(ss[|ss| - 1])
  }

  function IntensitySum(ss: seq<Session>): int {
    if ss == [] then 0 else IntensitySum(ss[..|ss| - 1]) + IntensityOf(ss[|ss| - 1])
  }

  /** The public part of a user the leaderboard shows. */
  datatype Card = Card(name: Option<string>, username: Option<string>, imageUrl: Option<string>, clerkId: string)

  /** One user's window statistics. The average intensity is kept as the
      pair (`intensitySum`, `sessionCount`). */
  datatype Stat = Stat(userId: nat, card: Card, totalDuration: int, sessionCount: nat, intensitySum: int)

  function StatOf(u: User, sessions: seq<Row<Session>>, start: int): Stat {
    var w := WindowOf(sessions, u.id, start);
    Stat(u.id, Card(u.name, u.username, u.imageUrl, u.clerkId), Total(w), |w|, IntensitySum(w))
  }

  /** The per-user map, in user enumeration order. */
  function AllStats(users: seq<User>, sessions: seq<Row<Session>>, start: int): (r: seq<Stat>)
    ensures |r| == |users|
  {
    seq(|users|, i requires 0 <= i < |users| => StatOf(users[i], sessions, start))
  }

  /** Users with at least one session in the window, order kept. */
  function Active(s: seq<Stat>): (r: seq<Stat>)
    ensures |r| <= |s|
    ensures forall x :: x in r <==> x in s && x.sessionCount > 0
  {
    if s == [] then []
    else (if s[0].sessionCount > 0 then [s[0]] else []) + Active(s[1..])
  }

  /** Inserts `x` in front of the first element whose total is not larger. */
  function Insert(x: Stat, s: seq<Stat>): (r: seq<Stat>)
    ensures |r| == |s| + 1
    ensures r[0] == x || (s != [] && r[0] == s[0])
  {
    if s == [] || x.totalDuration >= s[0].totalDuration then [x] + s
    else [s[0]] + Insert(x, s[1..])
  }

  /** The stable sort by total, largest first. */
  function SortDesc(s: seq<Stat>): (r: seq<Stat>)
    ensures |r| == |s|
  {
    if s == [] then [] else Insert(s[0], SortDesc(s[1..]))
  }

  ghost predicate Descending(s: seq<Stat>) {
    forall i, j :: 0 <= i < j < |s| ==> s[i].totalDuration >= s[j].totalDuration
  }

  /** The elements with a given total, in order. */
  function WithTotal(s: seq<Stat>, v: int): (r: seq<Stat>)
    ensures forall x :: x in r ==> x in s && x.totalDuration == v
  {
    if s == [] then []
    else (if s[0].totalDuration == v then [s[0]] else []) + WithTotal(s[1..], v)
  }

  lemma {:induction false} InsertPerm(x: Stat, s: seq<Stat>)
    ensures multiset(Insert(x, s)) == multiset(s) + multiset{x}
  {
    if s != [] && x.totalDuration < s[0].totalDuration {
      InsertPerm(x, s[1..]);
      assert s == [s[0]] + s[1..];
    }
  }

  lemma ConsDescending(h: Stat, r: seq<Stat>)
    requires Descending(r) && (r == [] || r[0].totalDuration <= h.totalDuration)
    ensures Descending([h] + r)
  {
    var full := [h] + r;
    forall i, j | 0 <= i < j < |full| ensures full[i].totalDuration >= full[j].totalDuration {
      assert full[j] == r[j - 1];
      if i > 0 {
        assert full[i] == r[i - 1];
      }
    }
  }

  lemma {:induction false} InsertSorted(x: Stat, s: seq<Stat>)
    requires Descending(s)
    ensures Descending(Insert(x, s))
  {
    if s == [] || x.totalDuration >= s[0].totalDuration {
      ConsDescending(x, s);
    } else {
      assert Descending(s[1..]);
      InsertSorted(x, s[1..]);
      if |s| > 1 {
        assert s[1].totalDuration <= s[0].totalDuration;
      }
      ConsDescending(s[0], Insert(x, s[1..]));
    }
  }

  /** The sort orders by total, largest first, and is a permutation. */
  lemma {:induction false} SortDescSorted(s: seq<Stat>)
    ensures Descending(SortDesc(s)) && multiset(SortDesc(s)) == multiset(s)
  {
    if s != [] {
      SortDescSorted(s[1..]);
      InsertSorted(s[0], SortDesc(s[1..]));
      InsertPerm(s[0], SortDesc(s[1..]));
      assert s == [s[0]] + s[1..];
    }
  }

  lemma {:induction false} InsertWithTotal(x: Stat, s: seq<Stat>, v: int)
    ensures WithTotal(Insert(x, s), v) == (if x.totalDuration == v then [x] else []) + WithTotal(s, v)
  {
    if s == [] || x.totalDuration >= s[0].totalDuration {
      WithTotalCons(x, s, v);
    } else {
      var r := Insert(x, s[1..]);
      assert Insert(x, s) == [s[0]] + r;
      assert [s[0]] + s[1..] == s;
      InsertWithTotal(x, s[1..], v);
      WithTotalCons(s[0], r, v);
      WithTotalCons(s[0], s[1..], v);
      var h := if s[0].totalDuration == v then [s[0]] else [];
      var xs := if x.totalDuration == v then [x] else [];
      SwapEmpty(h, xs, WithTotal(s[1..], v));
    }
  }

  lemma SwapEmpty<T>(a: seq<T>, b: seq<T>, w: seq<T>)
    requires a == [] || b == []
    ensures a + (b + w) == b + (a + w)
  {
    if a == [] {
      assert a + (b + w) == b + w == b + (a + w);
    } else {
      assert b + (a + w) == a + w == a + (b + w);
    }
  }

  lemma WithTotalCons(h: Stat, t: seq<Stat>, v: int)
    ensures WithTotal([h] + t, v) == (if h.totalDuration == v then [h] else []) + WithTotal(t, v)
  {
    assert ([h] + t)[1..] == t;
  }

  /** The sort is stable: users with equal totals keep their relative order. */
  lemma {:induction false} SortDescStable(s: seq<Stat>, v: int)
    ensures WithTotal(SortDesc(s), v) == WithTotal(s, v)
  {
    if s != [] {
      SortDescStable(s[1..], v);
      InsertWithTotal(s[0], SortDesc(s[1..]), v);
    }
  }

  lemma {:induction false} WithTotalAppend(a: seq<Stat>, b: seq<Stat>, v: int)
    ensures WithTotal(a + b, v) == WithTotal(a, v) + WithTotal(b, v)
  {
    if a == [] {
      assert a + b == b;
    } else {
      assert (a + b)[1..] == a[1..] + b;
      WithTotalAppend(a[1..], b, v);
    }
  }

  /** One row of the board. */
  datatype Entry = Entry(stat: Stat, rank: nat, percentile: int)

  /** Numbers the rows kept after the cut: rank `i + 1` and percentile
      `round((i + 1) / n * 100)` for the `n` rows returned. */
  function Ranked(kept: seq<Stat>): (r: seq<Entry>)
    ensures |r| == |kept|
  {
    seq(|kept|, i requires 0 <= i < |kept| => Entry(kept[i], i + 1, RoundDiv(100 * (i + 1), |kept|)))
  }

  /** The active users, sorted and cut to `limit`. */
  function Kept(users: seq<User>, sessions: seq<Row<Session>>, start: int, limit: nat): seq<Stat> {
    Take(SortDesc(Active(AllStats(users, sessions, start))), limit)
  }

  /** The board once the window's start is known. */
  function Board(users: seq<User>, sessions: seq<Row<Session>>, start: int, limit: nat): seq<Entry> {
    Ranked(Kept(users, sessions, start, limit))
  }

  /** `getLeaderboard`; the limit defaults to 20. */
  function GetLeaderboard(users: seq<User>, sessions: seq<Row<Session>>, period: Period,
                          limit: Option<nat>, now: int, lt: LocalTime): seq<Entry>
  {
    Board(users, sessions, WindowStart(period, now, lt),
          match limit case Some(n) => n case None => 20)
  }

  /** Every entry is an active user's window statistics, totals never
      increase down the board, and there are `min(limit, active users)`
      entries, ranked 1, 2, 3, ... with no shared ranks. */
  lemma BoardOrder(users: seq<User>, sessions: seq<Row<Session>>, start: int, limit: nat)
    ensures var r := Board(users, sessions, start, limit);
      var active := Active(AllStats(users, sessions, start));
      && |r| == (if limit < |active| then limit else |active|)
      && (forall i :: 0 <= i < |r| ==> r[i].stat in active && r[i].stat.sessionCount > 0)
      && (forall i, j :: 0 <= i < j < |r| ==> r[i].stat.totalDuration >= r[j].stat.totalDuration)
      && (forall i :: 0 <= i < |r| ==> r[i].rank == i + 1)
  {
    var active := Active(AllStats(users, sessions, start));
    var kept := Kept(users, sessions, start, limit);
    TakeSorted(active, limit);
    RankedRows(kept);
  }

  /** The sorted active users cut to `limit`: a descending run of active
      users of the right length. */
  lemma TakeSorted(active: seq<Stat>, limit: nat)
    ensures var kept := Take(SortDesc(active), limit);
      && |kept| == (if limit < |active| then limit else |active|)
      && (forall i :: 0 <= i < |kept| ==> kept[i] in active)
      && Descending(kept)
  {
    var sorted := SortDesc(active);
    SortDescSorted(active);
    var kept := Take(sorted, limit);
    forall i | 0 <= i < |kept| ensures kept[i] in active {
      assert kept[i] == sorted[i];
      assert sorted[i] in multiset(active);
    }
    forall i, j | 0 <= i < j < |kept| ensures kept[i].totalDuration >= kept[j].totalDuration {
      assert kept[i] == sorted[i] && kept[j] == sorted[j];
    }
  }

  /** Row `i` of the board shows the `i`-th kept user at rank `i + 1`. */
  lemma RankedRows(kept: seq<Stat>)
    ensures forall i :: 0 <= i < |kept| ==> Ranked(kept)[i].stat == kept[i] && Ranked(kept)[i].rank == i + 1
  {
  }

  /** Entry `i` of `n` has percentile `round(100 (i+1) / n)`: percentiles never
      decrease, stay within [0, 100], and the last one is 100. */
  lemma RankedPercentiles(kept: seq<Stat>)
    ensures var r := Ranked(kept);
      && (forall i :: 0 <= i < |r| ==>
            200 * (i + 1) - |r| < 2 * |r| * r[i].percentile <= 200 * (i + 1) + |r|)
      && (forall i :: 0 <= i < |r| ==> 0 <= r[i].percentile <= 100)
      && (forall i, j :: 0 <= i < j < |r| ==> r[i].percentile <= r[j].percentile)
      && (|r| > 0 ==> r[|r| - 1].percentile == 100)
  {
    var r := Ranked(kept);
    var n := |r|;
    forall i | 0 <= i < n ensures 0 <= r[i].percentile <= 100 {
      RoundDivMono(0, 100 * (i + 1), n);
      RoundDivMono(100 * (i + 1), 100 * n, n);
      RoundDivUnique(100 * n, n, 100);
      RoundDivUnique(0, n, 0);
    }
    forall i, j | 0 <= i < j < n ensures r[i].percentile <= r[j].percentile {
      RoundDivMono(100 * (i + 1), 100 * (j + 1), n);
    }
    if n > 0 {
      RoundDivUnique(100 * n, n, 100);
    }
  }

  lemma BoardPercentiles(users: seq<User>, sessions: seq<Row<Session>>, start: int, limit: nat)
    ensures var r := Board(users, sessions, start, limit);
      && (forall i :: 0 <= i < |r| ==> 0 <= r[i].percentile <= 100)
      && (forall i, j :: 0 <= i < j < |r| ==> r[i].percentile <= r[j].percentile)
      && (|r| > 0 ==> r[|r| - 1].percentile == 100)
  {
    RankedPercentiles(Kept(users, sessions, start, limit));
  }

  lemma CutKeepsTop(sorted: seq<Stat>, limit: nat, x: Stat)
    requires Descending(sorted) && x in sorted && x !in Take(sorted, limit)
    ensures var kept := Take(sorted, limit);
      |kept| == limit && (0 < limit ==> x.totalDuration <= kept[limit - 1].totalDuration)
  {
    var k :| 0 <= k < |sorted| && sorted[k] == x;
    var kept := Take(sorted, limit);
    assert forall j :: 0 <= j < |kept| ==> kept[j] == sorted[j];
  }

  /** An active user left off the board is no further ahead than the last
      entry, and that only happens when the board holds `limit` entries
      (with a limit of 0 the board is empty). */
  lemma BoardKeepsTop(users: seq<User>, sessions: seq<Row<Session>>, start: int, limit: nat, x: Stat)
    requires x in Active(AllStats(users, sessions, start))
    requires forall e :: e in Board(users, sessions, start, limit) ==> e.stat != x
    ensures var r := Board(users, sessions, start, limit);
      |r| == limit && (0 < |r| ==> x.totalDuration <= r[|r| - 1].stat.totalDuration)
  {
    var active := Active(AllStats(users, sessions, start));
    var sorted := SortDesc(active);
    SortDescSorted(active);
    assert x in multiset(sorted);
    var kept := Take(sorted, limit);
    NotRanked(kept, x);
    CutKeepsTop(sorted, limit, x);
    RankedRows(kept);
  }

  /** A user without an entry is not among the kept stats. */
  lemma NotRanked(kept: seq<Stat>, x: Stat)
    requires forall e :: e in Ranked(kept) ==> e.stat != x
    ensures x !in kept
  {
    RankedRows(kept);
    forall k | 0 <= k < |kept| ensures kept[k] != x {
      assert Ranked(kept)[k] in Ranked(kept);
    }
  }

  /** Users with equal totals appear on the board in user enumeration order:
      for every total, the board's users with that total are a prefix of the
      active users with that total. */
  lemma BoardKeepsTieOrder(users: seq<User>, sessions: seq<Row<Session>>, start: int, limit: nat, v: int)
    ensures var r := Board(users, sessions, start, limit);
      var stats := seq(|r|, i requires 0 <= i < |r| => r[i].stat);
      WithTotal(stats, v) <= WithTotal(Active(AllStats(users, sessions, start)), v)
  {
    var kept := Kept(users, sessions, start, limit);
    var r := Ranked(kept);
    var stats := seq(|r|, i requires 0 <= i < |r| => r[i].stat);
    RankedRows(kept);
    assert stats == kept;
    CutKeepsTieOrder(Active(AllStats(users, sessions, start)), limit, v);
  }

  lemma CutKeepsTieOrder(active: seq<Stat>, limit: nat, v: int)
    ensures WithTotal(Take(SortDesc(active), limit), v) <= WithTotal(active, v)
  {
    var sorted := SortDesc(active);
    var kept := Take(sorted, limit);
    SortDescStable(active, v);
    assert sorted == kept + sorted[|kept|..];
    WithTotalAppend(kept, sorted[|kept|..], v);
  }

  /** With three entries the percentiles are 33, 67 and 100. */
  lemma ThreeEntryPercentiles(users: seq<User>, sessions: seq<Row<Session>>, start: int, limit: nat)
    requires |Board(users, sessions, start, limit)| == 3
    ensures var r := Board(users, sessions, start, limit);
      r[0].percentile == 33 && r[1].percentile == 67 && r[2].percentile == 100
  {
    RoundDivUnique(100, 3, 33);
    RoundDivUnique(200, 3, 67);
    RoundDivUnique(300, 3, 100);
  }

  /** Every user's window total, in user enumeration order. */
  function Totals(users: seq<User>, sessions: seq<Row<Session>>, start: int): (r: seq<int>)
    ensures |r| == |users|
  {
    seq(|users|, i requires 0 <= i < |users| => Total(WindowOf(sessions, users[i].id, start)))
  }

  /** The totals strictly greater than `x`, in order. */
  function Above(t: seq<int>, x: int): (r: seq<int>)
    ensures |r| <= |t|
    ensures forall y :: y in r <==> y in t && y > x
  {
    if t == [] then []
    else (if t[0] > x then [t[0]] else []) + Above(t[1..], x)
  }

  /** The head of the ascending sort: the smallest element. */
  function Least(t: seq<int>): (r: int)
    requires t != []
    ensures r in t && forall y :: y in t ==> r <= y
  {
    if |t| == 1 then t[0]
    else
      assert t == [t[0]] + t[1..];
      Min(t[0], Least(t[1..]))
  }

  datatype RankInfo = RankInfo(
    rank: nat,
    totalDuration: int,
    sessionCount: nat,
    intensitySum: int,
    gapToNextRank: int,
    totalCompetitors: nat)

  /** `getUserRank` once the window's start is known. */
  function RankAt(users: seq<User>, sessions: seq<Row<Session>>, uid: nat, start: int): RankInfo {
    var own := WindowOf(sessions, uid, start);
    var t := Totals(users, sessions, start);
    RankInfo(Position(t, Total(own)), Total(own), |own|, IntensitySum(own), Gap(t, Total(own)),
             |Above(t, 0)|)
  }

  /** One more than the number of totals strictly above `mine`. */
  function Position(t: seq<int>, mine: int): nat {
    |Above(t, mine)| + 1
  }

  /** The distance from `mine` up to the nearest larger total, or 0 when
      there is none. */
  function Gap(t: seq<int>, mine: int): int {
    var ahead := Above(t, mine);
    Max(0, if |ahead| > 0 then Least(ahead) - mine else 0)
  }

  function GetUserRank(users: seq<User>, sessions: seq<Row<Session>>, uid: nat,
                       period: Period, now: int, lt: LocalTime): RankInfo
  {
    RankAt(users, sessions, uid, WindowStart(period, now, lt))
  }

  /** Nobody is ahead exactly when every total is at most `mine`; otherwise
      the least total ahead is larger than `mine`, is some user's total and
      lies at or below every total ahead. */
  lemma AheadAndGap(t: seq<int>, mine: int)
    ensures var ahead := Above(t, mine);
      && (ahead == [] <==> forall y :: y in t ==> y <= mine)
      && (ahead != [] ==>
            && Least(ahead) > mine && Least(ahead) in t
            && forall y :: y in t && y > mine ==> y >= Least(ahead))
  {
    var ahead := Above(t, mine);
    if ahead != [] {
      assert ahead[0] in ahead;
    }
  }

  /** What a rank and a gap mean against the list of every user's total:
      rank 1 exactly when no total is larger than `mine`, and then the gap
      is 0; otherwise the gap is positive, `mine + gap` is some user's
      total and no total lies strictly between the two. */
  ghost predicate RankMeaning(t: seq<int>, mine: int, rank: int, gap: int) {
    && 1 <= rank <= |t| + 1
    && (rank == 1 <==> forall y :: y in t ==> y <= mine)
    && (rank == 1 ==> gap == 0)
    && (rank > 1 ==> && gap > 0 && mine + gap in t
                     && forall y :: y in t && y > mine ==> y >= mine + gap)
    && gap >= 0
  }

  /** `getUserRank`'s rank and gap carry their meaning, and the rank is at
      most one more than the number of users. */
  lemma RankAndGap(users: seq<User>, sessions: seq<Row<Session>>, uid: nat, start: int)
    ensures var r := RankAt(users, sessions, uid, start);
      && RankMeaning(Totals(users, sessions, start), r.totalDuration, r.rank, r.gapToNextRank)
      && r.rank <= |users| + 1
  {
    var t := Totals(users, sessions, start);
    var mine := Total(WindowOf(sessions, uid, start));
    var r := RankAt(users, sessions, uid, start);
    assert r.rank == Position(t, mine) && r.gapToNextRank == Gap(t, mine) && r.totalDuration == mine;
    RankFromAhead(t, mine);
  }

  lemma RankFromAhead(t: seq<int>, mine: int)
    ensures RankMeaning(t, mine, Position(t, mine), Gap(t, mine))
  {
    var ahead := Above(t, mine);
    var gap := Gap(t, mine);
    AheadAndGap(t, mine);
    if ahead != [] {
      assert gap == Least(ahead) - mine;
    }
  }

  function CountAbove(t: seq<int>, x: int): nat {
    if t == [] then 0 else (if t[0] > x then 1 else 0) + CountAbove(t[1..], x)
  }

  lemma {:induction false} AboveCount(t: seq<int>, x: int)
    ensures |Above(t, x)| == CountAbove(t, x)
  {
    if t != [] {
      AboveCount(t[1..], x);
    }
  }

  /** If everything ahead of `y` in `b` was already ahead of `x` at the same
      position in `a`, `b` has no more elements ahead. */
  lemma {:induction false} CountAboveMono(a: seq<int>, b: seq<int>, x: int, y: int)
    requires |a| == |b|
    requires forall i :: 0 <= i < |b| && b[i] > y ==> a[i] > x
    ensures CountAbove(b, y) <= CountAbove(a, x)
  {
    if b != [] {
      CountAboveMono(a[1..], b[1..], x, y);
    }
  }

  /** A user with a positive total ranks within the competitor count. */
  lemma {:induction false} CountAboveOwn(t: seq<int>, x: int, k: nat)
    requires k < |t| && t[k] == x && x > 0
    ensures CountAbove(t, x) + 1 <= CountAbove(t, 0)
  {
    if k == 0 {
      CountAboveMono(t[1..], t[1..], 0, x);
    } else {
      CountAboveOwn(t[1..], x, k - 1);
    }
  }

  lemma RankWithinCompetitors(users: seq<User>, sessions: seq<Row<Session>>, uid: nat, start: int)
    requires exists u :: u in users && u.id == uid
    requires Total(WindowOf(sessions, uid, start)) > 0
    ensures var r := RankAt(users, sessions, uid, start);
      r.rank <= r.totalCompetitors
  {
    var t := Totals(users, sessions, start);
    var mine := Total(WindowOf(sessions, uid, start));
    var u :| u in users && u.id == uid;
    var k :| 0 <= k < |users| && users[k] == u;
    assert t[k] == mine;
    CountAboveOwn(t, mine, k);
    AboveCount(t, mine);
    AboveCount(t, 0);
  }

  lemma {:induction false} WindowOfAppend(s: seq<Row<Session>>, row: Row<Session>, uid: nat, start: int)
    ensures WindowOf(s + [row], uid, start) ==
      WindowOf(s, uid, start) + (if row.userId == uid && InWindow(row.doc, start) then [row.doc] else [])
  {
    if s == [] {
      assert WindowOf([row], uid, start)
          == (if row.userId == uid && InWindow(row.doc, start) then [row.doc] else []) + WindowOf([], uid, start);
    } else {
      assert (s + [row])[1..] == s[1..] + [row];
      WindowOfAppend(s[1..], row, uid, start);
    }
  }

  lemma TotalSnoc(ss: seq<Session>, s: Session)
    ensures Total(ss + [s]) == Total(ss) + DurationOf(s)
  {
    assert (ss + [s])[..|ss|] == ss;
  }

  /** Closing one more session of non-negative duration inside the window
      for a registered user, with every other user's sessions fixed, never
      worsens that user's rank. */
  lemma MoreTimeNeverWorsensRank(users: seq<User>, sessions: seq<Row<Session>>, uid: nat, start: int,
                                 row: Row<Session>)
    requires row.userId == uid && InWindow(row.doc, start) && DurationOf(row.doc) >= 0
    ensures RankAt(users, sessions + [row], uid, start).rank <= RankAt(users, sessions, uid, start).rank
  {
    var a := Totals(users, sessions, start);
    var b := Totals(users, sessions + [row], start);
    var x := Total(WindowOf(sessions, uid, start));
    var y := Total(WindowOf(sessions + [row], uid, start));
    WindowOfAppend(sessions, row, uid, start);
    TotalSnoc(WindowOf(sessions, uid, start), row.doc);
    forall i | 0 <= i < |b| ensures b[i] > y ==> a[i] > x {
      WindowOfAppend(sessions, row, users[i].id, start);
      if users[i].id == uid {
        assert b[i] == y;
      } else {
        assert WindowOf(sessions, users[i].id, start) + [] == WindowOf(sessions, users[i].id, start);
        assert b[i] == a[i];
      }
    }
    CountAboveMono(a, b, x, y);
    AboveCount(a, x);
    AboveCount(b, y);
  }
}
