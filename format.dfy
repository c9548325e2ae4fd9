/** Decimal text and the duration formatters shared by the dashboard.
    Durations are whole, non-negative numbers of seconds. */
module Format {
  import opened Schema

  // ---------------------------------------------------------------------
  // Decimal text

  predicate IsDigit(c: char) {
    '0' <= c <= '9'
  }

  predicate AllDigits(s: string) {
    forall i :: 0 <= i < |s| ==> IsDigit(s[i])
  }

  function Digit(d: nat): (c: char)
    requires d < 10
    ensures IsDigit(c)
  {
    (48 + d) as char
  }

  function DigitValue(c: char): (d: nat)
    requires IsDigit(c)
    ensures d < 10 && Digit(d) == c
  {
    c as int - 48
  }

  /** `n.toString()` for a whole number: decimal digits, no leading zero. */
  function NatToString(n: nat): (r: string)
    ensures 1 <= |r| && AllDigits(r)
    ensures r[0] == '0' ==> n == 0
    ensures n < 10 <==> |r| == 1
    ensures 10 <= n < 100 <==> |r| == 2
  {
    if n < 10 then [Digit(n)] else NatToString(n / 10) + [Digit(n % 10)]
  }

  /** The number a string of decimal digits denotes; leading zeros are
      allowed. */
  function ParseNat(s: string): nat
    requires AllDigits(s)
  {
    if s == [] then 0 else ParseNat(s[..|s| - 1]) * 10 + DigitValue(s[|s| - 1])
  }

  /** Reading back the decimal text of a number gives the number. */
  lemma {:induction false} ParseNatToString(n: nat)
    ensures ParseNat(NatToString(n)) == n
  {
    if n >= 10 {
      var r := NatToString(n);
      assert r[..|r| - 1] == NatToString(n / 10);
      ParseNatToString(n / 10);
    }
  }

  /** Decimal text is one-to-one. */
  lemma NatToStringInjective(a: nat, b: nat)
    requires NatToString(a) == NatToString(b)
    ensures a == b
  {
    ParseNatToString(a);
    ParseNatToString(b);
  }

  function Repeat(c: char, n: nat): (r: string)
    ensures |r| == n && forall i :: 0 <= i < n ==> r[i] == c
  {
    if n == 0 then [] else [c] + Repeat(c, n - 1)
  }

  /** `s.padStart(width, fill)` with a one-character fill: fill characters
      in front up to `width`, and a string already that long unchanged. */
  function PadStart(s: string, width: nat, fill: char): (r: string)
    ensures |r| == if |s| >= width then |s| else width
    ensures r[|r| - |s|..] == s
    ensures forall i :: 0 <= i < |r| - |s| ==> r[i] == fill
  {
    if |s| >= width then s else Repeat(fill, width - |s|) + s
  }

  /** `n.toString().padStart(2, "0")`. */
  function Pad2(n: nat): (r: string)
    ensures AllDigits(r) && ParseNat(r) == n
    ensures n < 100 ==> |r| == 2
    ensures n >= 10 ==> r == NatToString(n)
  {
    Pad2Reads(n);
    PadStart(NatToString(n), 2, '0')
  }

  lemma Pad2Reads(n: nat)
    ensures var r := PadStart(NatToString(n), 2, '0');
      AllDigits(r) && ParseNat(r) == n
  {
    ParseNatToString(n);
    var r := PadStart(NatToString(n), 2, '0');
    if n < 10 {
      assert r == ['0', Digit(n)];
      assert r[..1] == ['0'];
    }
  }

  // ---------------------------------------------------------------------
  // Splitting

  /** `s.split(sep)`: the pieces between separators, empty ones included. */
  function Split(s: string, sep: char): (r: seq<string>)
    ensures |r| >= 1
  {
    if s == [] then [[]]
    else if s[0] == sep then [[]] + Split(s[1..], sep)
    else var rest := Split(s[1..], sep); [[s[0]] + rest[0]] + rest[1..]
  }

  lemma {:induction false} SplitNone(a: string, sep: char)
    requires sep !in a
    ensures Split(a, sep) == [a]
  {
    if a != [] {
      assert sep !in a[1..];
      SplitNone(a[1..], sep);
      assert [a[0]] + a[1..] == a;
    }
  }

  lemma {:induction false} SplitJoin(a: string, b: string, sep: char)
    requires sep !in a
    ensures Split(a + [sep] + b, sep) == [a] + Split(b, sep)
  {
    if a == [] {
      assert a + [sep] + b == [sep] + b;
      assert ([sep] + b)[1..] == b;
    } else {
      assert (a + [sep] + b)[1..] == a[1..] + [sep] + b;
      assert sep !in a[1..];
      SplitJoin(a[1..], b, sep);
      assert [a[0]] + a[1..] == a;
    }
  }

  lemma DigitsHaveNo(s: string, c: char)
    requires AllDigits(s) && !IsDigit(c)
    ensures c !in s
  {
  }

  // ---------------------------------------------------------------------
  // formatDuration

  datatype Clock = Clock(hours: nat, minutes: nat, seconds: nat)

  /** Hours, minutes within the hour and seconds within the minute. */
  function Decompose(total: nat): (c: Clock)
    ensures c.hours * 3600 + c.minutes * 60 + c.seconds == total
    ensures c.minutes < 60 && c.seconds < 60
  {
    Clock(total / 3600, total % 3600 / 60, total % 60)
  }

  /** `formatDuration(seconds, compact)`. */
  function FormatDuration(total: nat, compact: bool): string {
    var c := Decompose(total);
    if compact then
      if c.hours > 0 then NatToString(c.hours) + "h " + NatToString(c.minutes) + "m"
      else if c.minutes > 0 then NatToString(c.minutes) + "m " + NatToString(c.seconds) + "s"
      else NatToString(c.seconds) + "s"
    else
      if c.hours > 0 then NatToString(c.hours) + ":" + Pad2(c.minutes) + ":" + Pad2(c.seconds)
      else if c.minutes > 0 then NatToString(c.minutes) + ":" + Pad2(c.seconds)
      else NatToString(c.seconds) + "s"
  }

  predicate DigitField(s: string) {
    s != [] && AllDigits(s)
  }

  /** "Ss": digits, then the letter s. */
  predicate SecondsForm(s: string) {
    |s| >= 2 && s[|s| - 1] == 's' && AllDigits(s[..|s| - 1])
  }

  /** "M:SS" or "H:MM:SS", already split at the colons. */
  function ParseClock(f: seq<string>): Option<nat> {
    if |f| == 2 && DigitField(f[0]) && DigitField(f[1]) then Some(ParseNat(f[0]) * 60 + ParseNat(f[1]))
    else if |f| == 3 && DigitField(f[0]) && DigitField(f[1]) && DigitField(f[2]) then
      Some(ParseNat(f[0]) * 3600 + ParseNat(f[1]) * 60 + ParseNat(f[2]))
    else None
  }

  /** Reads a long-form duration: "Ss", "M:SS" or "H:MM:SS". */
  function ParseDuration(s: string): Option<nat> {
    if SecondsForm(s) then Some(ParseNat(s[..|s| - 1])) else ParseClock(Split(s, ':'))
  }

  /** The long form reads back as the duration it shows. */
  lemma FormatDurationRoundTrip(total: nat)
    ensures ParseDuration(FormatDuration(total, false)) == Some(total)
  {
    var c := Decompose(total);
    if c.hours > 0 {
      LongFormWithHours(total);
    } else if c.minutes > 0 {
      LongFormWithMinutes(total);
    } else {
      LongFormSeconds(total);
    }
  }

  lemma LongFormWithMinutes(total: nat)
    requires Decompose(total).hours == 0 && Decompose(total).minutes > 0
    ensures ParseDuration(FormatDuration(total, false)) == Some(total)
  {
    var c := Decompose(total);
    var m, s := NatToString(c.minutes), Pad2(c.seconds);
    assert FormatDuration(total, false) == m + ":" + s;
    ParseNatToString(c.minutes);
    ReadTwoFields(m, s);
    assert ParseNat(m) * 60 + ParseNat(s) == total;
  }

  lemma LongFormSeconds(total: nat)
    requires Decompose(total).hours == 0 && Decompose(total).minutes == 0
    ensures ParseDuration(FormatDuration(total, false)) == Some(total)
  {
    var c := Decompose(total);
    ParseNatToString(c.seconds);
    var out := NatToString(c.seconds) + "s";
    assert out[..|out| - 1] == NatToString(c.seconds);
  }

  lemma LongFormWithHours(total: nat)
    requires Decompose(total).hours > 0
    ensures ParseDuration(FormatDuration(total, false)) == Some(total)
  {
    var c := Decompose(total);
    ParseNatToString(c.hours);
    ReadThreeFields(NatToString(c.hours), Pad2(c.minutes), Pad2(c.seconds));
  }

  lemma SplitTwo(m: string, s: string, sep: char)
    requires sep !in m && sep !in s
    ensures Split(m + [sep] + s, sep) == [m, s]
  {
    SplitJoin(m, s, sep);
    SplitNone(s, sep);
  }

  lemma SplitThree(h: string, m: string, s: string, sep: char)
    requires sep !in h && sep !in m && sep !in s
    ensures Split(h + [sep] + m + [sep] + s, sep) == [h, m, s]
  {
    assert h + [sep] + m + [sep] + s == h + [sep] + (m + [sep] + s);
    SplitJoin(h, m + [sep] + s, sep);
    SplitTwo(m, s, sep);
  }

  /** A string ending in a digit is not in the seconds form. */
  lemma EndsInDigit(pre: string, s: string)
    requires DigitField(s)
    ensures !SecondsForm(pre + s)
  {
    var out := pre + s;
    assert out[|out| - 1] == s[|s| - 1];
  }

  lemma ReadTwoFields(m: string, s: string)
    requires DigitField(m) && DigitField(s)
    ensures ParseDuration(m + ":" + s) == Some(ParseNat(m) * 60 + ParseNat(s))
    ensures |Split(m + ":" + s, ':')| == 2
  {
    DigitsHaveNo(m, ':');
    DigitsHaveNo(s, ':');
    SplitTwo(m, s, ':');
    EndsInDigit(m + ":", s);
  }

  lemma ReadThreeFields(h: string, m: string, s: string)
    requires DigitField(h) && DigitField(m) && DigitField(s)
    ensures ParseDuration(h + ":" + m + ":" + s) == Some(ParseNat(h) * 3600 + ParseNat(m) * 60 + ParseNat(s))
    ensures |Split(h + ":" + m + ":" + s, ':')| == 3
  {
    DigitsHaveNo(h, ':');
    DigitsHaveNo(m, ':');
    DigitsHaveNo(s, ':');
    SplitThree(h, m, s, ':');
    EndsInDigit(h + ":" + m + ":", s);
    ReadClockThree(h, m, s);
  }

  lemma ReadClockThree(h: string, m: string, s: string)
    requires DigitField(h) && DigitField(m) && DigitField(s)
    ensures ParseClock([h, m, s]) == Some(ParseNat(h) * 3600 + ParseNat(m) * 60 + ParseNat(s))
  {
  }

  /** The long form has three fields with hours, two with minutes, and is
      plain seconds below a minute, so `0` shows as "0s". */
  lemma FormatDurationShape(total: nat)
    ensures var c := Decompose(total);
      |Split(FormatDuration(total, false), ':')| == (if c.hours > 0 then 3 else if c.minutes > 0 then 2 else 1)
    ensures FormatDuration(0, false) == "0s"
  {
    var c := Decompose(total);
    if c.hours > 0 {
      ReadThreeFields(NatToString(c.hours), Pad2(c.minutes), Pad2(c.seconds));
    } else if c.minutes > 0 {
      ReadTwoFields(NatToString(c.minutes), Pad2(c.seconds));
    } else {
      var s := NatToString(c.seconds) + "s";
      DigitsHaveNo(NatToString(c.seconds), ':');
      assert ':' !in s;
      SplitNone(s, ':');
    }
  }

  /** The unit a compact term ends with, in seconds. */
  function UnitSeconds(c: char): Option<nat> {
    if c == 'h' then Some(3600) else if c == 'm' then Some(60) else if c == 's' then Some(1) else None
  }

  /** One compact term, digits then a unit letter. */
  function ParseTerm(w: string): Option<nat> {
    if |w| >= 2 && DigitField(w[..|w| - 1]) && UnitSeconds(w[|w| - 1]).Some? then
      Some(ParseNat(w[..|w| - 1]) * UnitSeconds(w[|w| - 1]).value)
    else None
  }

  /** Reads a compact duration: space-separated terms, summed. */
  function ParseCompact(words: seq<string>): Option<nat> {
    if words == [] then Some(0)
    else match (ParseTerm(words[0]), ParseCompact(words[1..]))
      case (Some(a), Some(b)) => Some(a + b)
      case _ => None
  }

  lemma TermOf(n: nat, unit: char, secs: nat)
    requires UnitSeconds(unit) == Some(secs)
    ensures ParseTerm(NatToString(n) + [unit]) == Some(n * secs)
  {
    var w := NatToString(n) + [unit];
    assert w[..|w| - 1] == NatToString(n);
    ParseNatToString(n);
  }

  lemma ReadTwoWords(x: string, y: string)
    requires ' ' !in x && ' ' !in y
    ensures Split(x + " " + y, ' ') == [x, y]
  {
    SplitJoin(x, y, ' ');
    SplitNone(y, ' ');
  }

  lemma SumTwoTerms(x: string, y: string, a: nat, b: nat)
    requires ParseTerm(x) == Some(a) && ParseTerm(y) == Some(b)
    ensures ParseCompact([x, y]) == Some(a + b)
  {
    assert [x, y][1..] == [y];
    assert [y][1..] == [];
    assert ParseCompact([y]) == Some(b);
  }

  /** Two compact terms separated by a space read back as their sum. */
  lemma ReadTwoTerms(a: nat, u: char, us: nat, b: nat, v: char, vs: nat)
    requires UnitSeconds(u) == Some(us) && UnitSeconds(v) == Some(vs)
    ensures ParseCompact(Split((NatToString(a) + [u]) + " " + (NatToString(b) + [v]), ' ')) == Some(a * us + b * vs)
  {
    var x, y := NatToString(a) + [u], NatToString(b) + [v];
    DigitsHaveNo(NatToString(a), ' ');
    DigitsHaveNo(NatToString(b), ' ');
    ReadTwoWords(x, y);
    TermOf(a, u, us);
    TermOf(b, v, vs);
    SumTwoTerms(x, y, a * us, b * vs);
  }

  /** The compact form reads back as the duration with its seconds dropped
      when it has hours, and exactly otherwise. */
  lemma CompactRoundTrip(total: nat)
    ensures ParseCompact(Split(FormatDuration(total, true), ' '))
         == Some(if Decompose(total).hours > 0 then total - total % 60 else total)
  {
    var c := Decompose(total);
    if c.hours > 0 {
      CompactWithHours(total);
    } else if c.minutes > 0 {
      CompactWithMinutes(total);
    } else {
      ReadOneTerm(c.seconds);
    }
  }

  lemma CompactWithHours(total: nat)
    requires Decompose(total).hours > 0
    ensures ParseCompact(Split(FormatDuration(total, true), ' ')) == Some(total - total % 60)
  {
    var c := Decompose(total);
    ReadTwoTerms(c.hours, 'h', 3600, c.minutes, 'm', 60);
    assert NatToString(c.hours) + "h " + NatToString(c.minutes) + "m"
        == (NatToString(c.hours) + ['h']) + " " + (NatToString(c.minutes) + ['m']);
  }

  lemma CompactWithMinutes(total: nat)
    requires Decompose(total).hours == 0 && Decompose(total).minutes > 0
    ensures ParseCompact(Split(FormatDuration(total, true), ' ')) == Some(total)
  {
    var c := Decompose(total);
    var text := (NatToString(c.minutes) + ['m']) + " " + (NatToString(c.seconds) + ['s']);
    CompactMinutesText(total);
    assert FormatDuration(total, true) == text;
    ReadTwoTerms(c.minutes, 'm', 60, c.seconds, 's', 1);
    assert ParseCompact(Split(text, ' ')) == Some(c.minutes * 60 + c.seconds * 1);
    assert c.minutes * 60 + c.seconds * 1 == total;
  }

  lemma CompactMinutesText(total: nat)
    requires Decompose(total).hours == 0 && Decompose(total).minutes > 0
    ensures var c := Decompose(total);
      FormatDuration(total, true) == (NatToString(c.minutes) + ['m']) + " " + (NatToString(c.seconds) + ['s'])
  {
    var c := Decompose(total);
    assert NatToString(c.minutes) + "m " + NatToString(c.seconds) + "s"
        == (NatToString(c.minutes) + ['m']) + " " + (NatToString(c.seconds) + ['s']);
  }

  lemma ReadOneTerm(n: nat)
    ensures ParseCompact(Split(NatToString(n) + "s", ' ')) == Some(n)
  {
    var out := NatToString(n) + ['s'];
    DigitsHaveNo(NatToString(n), ' ');
    SplitNone(out, ' ');
    TermOf(n, 's', 1);
    OneWord(out, n);
  }

  /** A single word reads back as its own term. */
  lemma OneWord(w: string, v: nat)
    requires ParseTerm(w) == Some(v)
    ensures ParseCompact([w]) == Some(v)
  {
    assert [w][1..] == [];
  }

  // ---------------------------------------------------------------------
  // formatDurationToMinutes

  /** `formatDurationToMinutes`: seconds below a minute, whole minutes, and
      otherwise minutes to one decimal place. The last branch rounds a
      floating-point quotient; where the exact value lies half-way between
      two tenths (seconds = 3 mod 6) the outcome hangs on the quotient's
      binary rounding and is left open as `None`. */
  function FormatDurationToMinutes(total: nat): Option<string> {
    if total < 60 then Some(NatToString(total) + "s")
    else if total % 60 == 0 then Some(NatToString(total / 60) + " min")
    else if total % 6 == 3 then None
    else var tenths := (total + 3) / 6;
      Some(NatToString(tenths / 10) + "." + [Digit(tenths % 10)] + " min")
  }

  /** Below a minute the text reads back as the seconds; a whole number of
      minutes reads back as the seconds over 60; otherwise it shows the
      tenth of a minute nearest to the exact value. */
  lemma MinutesMeaning(total: nat)
    ensures total < 60 ==> exists d :: FormatDurationToMinutes(total) == Some(d + "s") && AllDigits(d) && ParseNat(d) == total
    ensures total >= 60 && total % 60 == 0 ==>
      exists d :: FormatDurationToMinutes(total) == Some(d + " min") && AllDigits(d) && ParseNat(d) * 60 == total
    ensures total >= 60 && total % 60 != 0 && total % 6 != 3 ==>
      exists q: nat, f: nat :: f < 10 && -3 < 6 * (10 * q + f) - total < 3
        && FormatDurationToMinutes(total) == Some(NatToString(q) + "." + [Digit(f)] + " min")
  {
    if total < 60 {
      ParseNatToString(total);
      assert FormatDurationToMinutes(total) == Some(NatToString(total) + "s");
    } else if total % 60 == 0 {
      ParseNatToString(total / 60);
      assert FormatDurationToMinutes(total) == Some(NatToString(total / 60) + " min");
    } else if total % 6 != 3 {
      var tenths := (total + 3) / 6;
      var q, f := tenths / 10, tenths % 10;
      NearestTenth(total);
      assert FormatDurationToMinutes(total) == Some(NatToString(q) + "." + [Digit(f)] + " min");
    }
  }

  /** Rounding half up to sixths of ten seconds lands within three seconds,
      and the tenths split into whole minutes and one digit. */
  lemma NearestTenth(total: nat)
    requires total % 6 != 3
    ensures var tenths := (total + 3) / 6;
      && 10 * (tenths / 10) + tenths % 10 == tenths && tenths % 10 < 10
      && -3 < 6 * tenths - total < 3
  {
  }

  /** A duration that is not a whole number of minutes can still show as
      "N.0 min": 61 seconds show as "1.0 min". */
  lemma NotWholeCanShowZeroTenths()
    ensures FormatDurationToMinutes(61) == Some("1.0 min")
  {
    assert FormatDurationToMinutes(61) == Some(NatToString(1) + "." + [Digit(0)] + " min");
    assert NatToString(1) == "1";
    assert Digit(0) == '0';
    assert NatToString(1) + "." + [Digit(0)] + " min" == "1.0 min";
  }
}
