/** The session tracker panel: its clock display and the state behind its
    start and stop buttons. */
module SessionTracker {
  import opened Schema
  import opened Store
  import opened Format
  import opened Functions

  /** `formatTime`: hours, minutes and seconds, each padded to two digits
      and joined by colons. */
  function FormatTime(total: nat): string {
    var c := Decompose(total);
    Pad2(c.hours) + ":" + Pad2(c.minutes) + ":" + Pad2(c.seconds)
  }

  /** The fresh display reads "00:00:00". */
  lemma FormatTimeZero()
    ensures FormatTime(0) == "00:00:00"
  {
    assert Pad2(0) == "00" by {
      assert NatToString(0) == "0";
    }
  }

  /** The display is always three fields that read back as the elapsed
      seconds. */
  lemma FormatTimeRoundTrip(total: nat)
    ensures Split(FormatTime(total), ':') == [Pad2(Decompose(total).hours), Pad2(Decompose(total).minutes),
                                              Pad2(Decompose(total).seconds)]
    ensures ParseClock(Split(FormatTime(total), ':')) == Some(total)
  {
    var c := Decompose(total);
    ClockFields(c.hours, c.minutes, c.seconds);
  }

  /** Three padded fields joined by colons split back into those fields and
      read back as the seconds they stand for. */
  lemma ClockFields(hours: nat, minutes: nat, seconds: nat)
    ensures var h, m, s := Pad2(hours), Pad2(minutes), Pad2(seconds);
      && Split(h + ":" + m + ":" + s, ':') == [h, m, s]
      && ParseClock([h, m, s]) == Some(hours * 3600 + minutes * 60 + seconds)
  {
    var h, m, s := Pad2(hours), Pad2(minutes), Pad2(seconds);
    assert Split(h + ":" + m + ":" + s, ':') == [h, m, s] by {
      assert h + ":" + m + ":" + s == h + [':'] + m + [':'] + s;
      DigitsHaveNo(h, ':');
      DigitsHaveNo(m, ':');
      DigitsHaveNo(s, ':');
      SplitThree(h, m, s, ':');
    }
    assert ParseClock([h, m, s]) == Some(hours * 3600 + minutes * 60 + seconds) by {
      ReadClockThree(h, m, s);
    }
  }

  /** Below 100 hours the display is exactly eight characters; from 100
      hours on, the hour field grows and is never cut: it is the full
      decimal hour count. */
  lemma FormatTimeWidth(total: nat)
    ensures total < 360000 ==> |FormatTime(total)| == 8
    ensures total >= 360000 ==>
      |FormatTime(total)| == |NatToString(Decompose(total).hours)| + 6
      && FormatTime(total)[..|NatToString(Decompose(total).hours)|] == NatToString(Decompose(total).hours)
  {
    var c := Decompose(total);
    HundredHours(total);
    TimeWidth(c.hours, c.minutes, c.seconds);
  }

  lemma TimeWidth(hours: nat, minutes: nat, seconds: nat)
    requires minutes < 60 && seconds < 60
    ensures var r := Pad2(hours) + ":" + Pad2(minutes) + ":" + Pad2(seconds);
      && (hours < 100 ==> |r| == 8)
      && (hours >= 100 ==> |r| == |NatToString(hours)| + 6 && r[..|NatToString(hours)|] == NatToString(hours))
  {
    if hours >= 100 {
      LongHours(hours, Pad2(minutes), Pad2(seconds));
    }
  }

  lemma HundredHours(total: nat)
    ensures Decompose(total).hours < 100 <==> total < 360000
  {
    var h := total / 3600;
    if h >= 100 {
      assert h * 3600 >= 100 * 3600;
    }
  }

  lemma LongHours(h: nat, m: string, s: string)
    requires h >= 100 && |m| == 2 && |s| == 2
    ensures var r := Pad2(h) + ":" + m + ":" + s;
      |r| == |NatToString(h)| + 6 && r[..|NatToString(h)|] == NatToString(h)
  {
    var r := Pad2(h) + ":" + m + ":" + s;
    assert r == Pad2(h) + (":" + m + ":" + s);
  }

  /** `notes || undefined`: an empty note is sent as no note. */
  function NotesArg(notes: string): Option<string> {
    if notes == "" then None else Some(notes)
  }

  /** The panel's state. A running session is shown while `isActive`, and
      `sessionId` is the session the stop button closes. */
  class Tracker {
    var isActive: bool
    var sessionId: Option<nat>
    var intensity: int
    var duration: nat
    var notes: string

    /** A session id is held exactly while the timer runs. */
    ghost predicate Valid()
      reads this
    {
      isActive <==> sessionId.Some?
    }

    constructor ()
      ensures Valid()
      ensures !isActive && sessionId == None && intensity == 7 && duration == 0 && notes == ""
    {
      isActive, sessionId, intensity, duration, notes := false, None, 7, 0, "";
    }

    /** One tick of the timer effect: the interval only runs while a
        session is active. */
    method Tick()
      requires Valid()
      modifies this
      ensures Valid()
      ensures duration == old(duration) + (if isActive then 1 else 0)
      ensures isActive == old(isActive) && sessionId == old(sessionId)
      ensures intensity == old(intensity) && notes == old(notes)
    {
      if isActive {
        duration := duration + 1;
      }
    }

    /** `handleStart`: opens a session tagged "manual" with mood "focused"
        at the chosen intensity, holds its id and restarts the clock. */
    method HandleStart(db: Db, uid: nat, now: int)
      requires Valid() && db.Valid()
      modifies this, db
      ensures Valid() && db.Valid()
      ensures db.Snapshot() == old(db.Snapshot()).(
        sessions := old(db.sessions) + [Row(old(db.nextId), uid, OpenSession(old(intensity), ["manual"], Some(Focused), now))],
        nextId := old(db.nextId) + 1)
      ensures isActive && sessionId == Some(old(db.nextId)) && duration == 0
      ensures intensity == old(intensity) && notes == old(notes)
    {
      var id := StartSession(db, uid, intensity, ["manual"], Some(Focused), now);
      sessionId := Some(id);
      isActive := true;
      duration := 0;
    }

    /** `handleStop`: without a held session id it does nothing at all;
        otherwise it ends that session with the typed notes and resets the
        panel. */
    method HandleStop(db: Db, now: int)
      requires Valid() && db.Valid()
      modifies this, db
      ensures Valid() && db.Valid()
      ensures old(sessionId).None? ==>
        db.Snapshot() == old(db.Snapshot())
        && isActive == old(isActive) && sessionId == old(sessionId) && duration == old(duration)
        && notes == old(notes) && intensity == old(intensity)
      ensures old(sessionId).Some? ==>
        db.Snapshot() == EndSessionSpec(old(db.Snapshot()), old(sessionId).value, NotesArg(old(notes)), now).tables
        && !isActive && sessionId == None && notes == "" && duration == 0 && intensity == old(intensity)
    {
      if sessionId.None? {
        return;
      }
      ghost var e := EndSessionSpec(db.Snapshot(), sessionId.value, NotesArg(notes), now);
      var _, _ := EndSession(db, sessionId.value, NotesArg(notes), now);
      assert db.Snapshot() == e.tables;
      isActive, sessionId, notes, duration := false, None, "", 0;
    }
  }
}
