/** The recent-sessions card: how it labels a session's length, its start
    and its intensity. */
module RecentSessions {
  import opened Schema
  import opened JsMath
  import opened Format

  /** A JavaScript integer as a template literal renders it. */
  function IntToString(n: int): (r: string)
    ensures n >= 0 ==> r == NatToString(n)
    ensures n < 0 ==> r == "-" + NatToString(-n)
  {
    if n < 0 then "-" + NatToString(-n) else NatToString(n)
  }

  /** The card's own `formatDuration`, which shadows the library one: a
      missing or zero length reads "0m"; otherwise whole hours and minutes,
      the hour part only when it is positive, and the seconds dropped. */
  function FormatDuration(seconds: Option<int>): string
  {
    if seconds.None? || seconds.value == 0 then "0m"
    else
      var s := seconds.value;
      var hours := FloorDiv(s, 3600);
      var minutes := FloorDiv(TruncRem(s, 3600), 60);
      if hours > 0 then IntToString(hours) + "h " + IntToString(minutes) + "m"
      else IntToString(minutes) + "m"
  }

  /** For a length of at least an hour the card prints exactly the library's
      compact form. */
  lemma AgreesWithCompactFromAnHour(s: nat)
    requires s >= 3600
    ensures FormatDuration(Some(s)) == Format.FormatDuration(s, true)
  {
    var c := Decompose(s);
    HoursOfLength(s);
  }

  /** Below an hour the card keeps only the minutes the library's compact
      form shows first, and drops its seconds term. */
  lemma MinutesOnlyBelowAnHour(s: nat)
    requires 60 <= s < 3600
    ensures Format.FormatDuration(s, true) == FormatDuration(Some(s)) + " " + NatToString(s % 60) + "s"
  {
    HoursOfLength(s);
    var c := Decompose(s);
    assert NatToString(c.minutes) + "m " + NatToString(c.seconds) + "s"
      == (NatToString(c.minutes) + "m") + " " + NatToString(c.seconds) + "s";
  }

  /** For non-negative lengths the floor and remainder the card uses agree
      with the clock decomposition. */
  lemma HoursOfLength(s: nat)
    ensures FloorDiv(s, 3600) == Decompose(s).hours
    ensures FloorDiv(TruncRem(s, 3600), 60) == Decompose(s).minutes
    ensures Decompose(s).hours > 0 <==> s >= 3600
  {
  }

  /** Every non-negative length reads back as that length cut down to whole
      minutes: the card never rounds up and never loses a whole minute. */
  lemma FormatDurationReadsBack(s: nat)
    ensures ParseCompact(Split(FormatDuration(Some(s)), ' ')) == Some(s - s % 60)
  {
    HoursOfLength(s);
    if s >= 3600 {
      AgreesWithCompactFromAnHour(s);
      CompactWithHours(s);
    } else {
      MinutesTerm(s);
    }
  }

  lemma MinutesTerm(s: nat)
    requires s < 3600
    ensures ParseCompact(Split(FormatDuration(Some(s)), ' ')) == Some(s - s % 60)
  {
    HoursOfLength(s);
    var m := Decompose(s).minutes;
    assert FormatDuration(Some(s)) == NatToString(m) + ['m'] by {
      if s == 0 {
        assert NatToString(0) == "0";
      }
    }
    DigitsHaveNo(NatToString(m), ' ');
    SplitNone(NatToString(m) + ['m'], ' ');
    TermOf(m, 'm', 60);
    assert [NatToString(m) + ['m']][1..] == [];
  }

  /** A missing length and any length under a minute both read "0m". */
  lemma UnderAMinuteIsZero(seconds: Option<int>)
    requires seconds.None? || 0 <= seconds.value < 60
    ensures FormatDuration(seconds) == "0m"
  {
    if seconds.Some? && seconds.value != 0 {
      assert FloorDiv(seconds.value, 60) == 0;
      assert NatToString(0) == "0";
    }
  }

  /** A negative length (a session stopped on a clock behind its start)
      never shows hours; it shows minus the minutes it is short by, rounded
      away from zero, within its hour, so a whole number of negative hours
      reads "0m". */
  lemma NegativeLength(s: int)
    requires s < 0
    ensures 'h' !in FormatDuration(Some(s))
    ensures s % 3600 == 0 ==> FormatDuration(Some(s)) == "0m"
    ensures s % 3600 != 0 ==> FormatDuration(Some(s)) == "-" + NatToString(((-s) % 3600 + 59) / 60) + "m"
  {
    var t := TruncRem(s, 3600);
    NegativeParts(s);
    if s % 3600 == 0 {
      assert FloorDiv(t, 60) == 0;
      assert NatToString(0) == "0";
      assert FormatDuration(Some(s)) == "0m";
    } else {
      var k := ((-s) % 3600 + 59) / 60;
      assert FormatDuration(Some(s)) == "-" + NatToString(k) + "m";
      DigitsHaveNo(NatToString(k), 'h');
      assert "-" + NatToString(k) + "m" == "-" + (NatToString(k) + "m");
    }
  }

  /** The arithmetic behind a negative length: no whole hours, and minus
      the minutes short, rounded away from zero, within the hour. */
  lemma NegativeParts(s: int)
    requires s < 0
    ensures FloorDiv(s, 3600) < 1
    ensures s % 3600 == 0 ==> TruncRem(s, 3600) == 0
    ensures s % 3600 != 0 ==> FloorDiv(TruncRem(s, 3600), 60) == -(((-s) % 3600 + 59) / 60) < 0
  {
    var t := TruncRem(s, 3600);
    assert -3600 < t <= 0;
    if s % 3600 != 0 {
      assert t < 0;
    }
  }

  /** `getIntensityColor`. */
  function IntensityColor(intensity: int): string
  {
    if intensity >= 8 then "text-red-500"
    else if intensity >= 6 then "text-orange-500"
    else if intensity >= 4 then "text-yellow-500"
    else "text-green-500"
  }

  /** The four colours, mildest first. */
  const Palette: seq<string> := ["text-green-500", "text-yellow-500", "text-orange-500", "text-red-500"]

  /** How hot a colour is: its place in the palette. */
  function Heat(color: string): (k: nat)
    ensures k < |Palette|
    ensures color in Palette ==> Palette[k] == color
  {
    if color == Palette[3] then 3 else if color == Palette[2] then 2
    else if color == Palette[1] then 1 else 0
  }

  /** Every intensity gets one of the four colours, the bands starting at
      4, 6 and 8. */
  lemma IntensityBands(intensity: int)
    ensures IntensityColor(intensity) in Palette
    ensures Heat(IntensityColor(intensity)) == (if intensity >= 8 then 3 else if intensity >= 6 then 2
                                                 else if intensity >= 4 then 1 else 0)
  {
  }

  /** A higher intensity never gets a milder colour. */
  lemma IntensityColorMonotone(a: int, b: int)
    requires a <= b
    ensures Heat(IntensityColor(a)) <= Heat(IntensityColor(b))
  {
    IntensityBands(a);
    IntensityBands(b);
  }

  const HourMillis: nat := 3600000

  /** `formatDate`: whole hours elapsed since the start, floored. Under an
      hour (or a start in the future) is "Just now", under a day "Nh ago",
      under two days "Yesterday", and otherwise the locale's date text,
      which is given. */
  function FormatDate(now: int, timestamp: int, localeDate: string): string
  {
    var diffHours := FloorDiv(now - timestamp, HourMillis);
    if diffHours < 1 then "Just now"
    else if diffHours < 24 then IntToString(diffHours) + "h ago"
    else if diffHours < 48 then "Yesterday"
    else localeDate
  }

  /** Which label applies is decided by the elapsed milliseconds alone, at
      the one-hour, one-day and two-day marks. */
  lemma FormatDateThresholds(now: int, timestamp: int, localeDate: string)
    ensures var e := now - timestamp;
      && (e < HourMillis ==> FormatDate(now, timestamp, localeDate) == "Just now")
      && (e >= 24 * HourMillis && e < 48 * HourMillis ==> FormatDate(now, timestamp, localeDate) == "Yesterday")
      && (e >= 48 * HourMillis ==> FormatDate(now, timestamp, localeDate) == localeDate)
  {
    var e := now - timestamp;
    var d := FloorDiv(e, HourMillis);
    if e < HourMillis {
      assert d < 1;
    } else if e < 48 * HourMillis {
      if e >= 24 * HourMillis {
        assert 24 <= d < 48;
      }
    } else {
      assert d >= 48;
    }
  }

  /** Between one hour and one day, the label is "Nh ago" where N is the
      number of whole hours elapsed, from 1 to 23. */
  lemma HoursAgoReadsBack(now: int, timestamp: int, localeDate: string)
    requires HourMillis <= now - timestamp < 24 * HourMillis
    ensures var r := FormatDate(now, timestamp, localeDate);
      |r| > 5 && r[|r| - 5..] == "h ago"
      && var n := ParseNat(r[..|r| - 5]);
        1 <= n <= 23 && n * HourMillis <= now - timestamp < n * HourMillis + HourMillis
  {
    var d := FloorDiv(now - timestamp, HourMillis);
    assert 1 <= d < 24;
    var r := NatToString(d) + "h ago";
    assert r[..|r| - 5] == NatToString(d);
    ParseNatToString(d);
  }
}
