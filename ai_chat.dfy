/** The coach chat: storing messages, reading them back through the
    `by_user` index newest first, clearing them, and the action that saves
    the user's message, asks the language model and saves its reply. The
    model itself is a function parameter. */
module AiChat {
  import opened Schema
  import opened Rows
  import opened Store

  // ---------------------------------------------------------------------
  // Reading

  /** `limit ?? 50`. */
  const DefaultLimit: nat := 50
  /** How many of the newest messages a per-session read looks through. */
  const SessionWindow: nat := 200

  /** The messages of one session, in the order given. */
  function InSession(s: seq<Row<ChatMessage>>, sid: nat): (r: seq<Row<ChatMessage>>)
    ensures |r| <= |s|
    ensures forall x :: x in r <==> x in s && x.doc.sessionId == Some(sid)
  {
    if s == [] then []
    else (if s[0].doc.sessionId == Some(sid) then [s[0]] else []) + InSession(s[1..], sid)
  }

  /** `getChatMessages`: the user's newest messages first, at most `limit`;
      with a session, only the messages of that session among the user's
      200 newest. */
  function GetChatMessages(chat: seq<Row<ChatMessage>>, uid: nat, sessionId: Option<nat>, limit: Option<nat>)
    : seq<Row<ChatMessage>>
  {
    var n := if limit.Some? then limit.value else DefaultLimit;
    var newest := Reverse(OwnedBy(chat, uid));
    if sessionId.Some? then Take(InSession(Take(newest, SessionWindow), sessionId.value), n)
    else Take(newest, n)
  }

  predicate Descending(s: seq<Row<ChatMessage>>) {
    forall i, j :: 0 <= i < j < |s| ==> s[i].id > s[j].id
  }

  lemma {:induction false} InSessionDescending(s: seq<Row<ChatMessage>>, sid: nat)
    requires Descending(s)
    ensures Descending(InSession(s, sid))
  {
    if s != [] {
      InSessionDescending(s[1..], sid);
      var tail := InSession(s[1..], sid);
      forall x | x in tail ensures x.id < s[0].id {
        var k :| 0 <= k < |s[1..]| && s[1..][k] == x;
        assert x == s[k + 1];
      }
    }
  }

  lemma TakeDescending(s: seq<Row<ChatMessage>>, n: nat)
    requires Descending(s)
    ensures Descending(Take(s, n))
  {
  }

  lemma TakeIn<T>(s: seq<T>, n: nat)
    ensures forall x :: x in Take(s, n) ==> x in s
  {
    forall x | x in Take(s, n) ensures x in s {
      var k :| 0 <= k < |Take(s, n)| && Take(s, n)[k] == x;
      assert s[k] == x;
    }
  }

  /** The user's newest messages, newest first, at most `n` of them. */
  lemma NewestOwned(chat: seq<Row<ChatMessage>>, uid: nat, n: nat)
    requires Ordered(chat)
    ensures var r := Take(Reverse(OwnedBy(chat, uid)), n);
      Descending(r) && forall x :: x in r ==> x in chat && x.userId == uid
  {
    OwnedByOrdered(chat, uid);
    NewestFirst(OwnedBy(chat, uid), n);
    TakeReverseIn(OwnedBy(chat, uid), n);
  }

  /** A read returns only the user's messages (of the session, when one is
      given), newest first, and never more than the limit. */
  lemma ChatMessagesNewestFirst(chat: seq<Row<ChatMessage>>, uid: nat, sessionId: Option<nat>, limit: Option<nat>)
    requires Ordered(chat)
    ensures var r := GetChatMessages(chat, uid, sessionId, limit);
      && Descending(r)
      && |r| <= (if limit.Some? then limit.value else DefaultLimit)
      && (forall x :: x in r ==> x in chat && x.userId == uid)
      && (sessionId.Some? ==> forall x :: x in r ==> x.doc.sessionId == sessionId)
  {
    var n := if limit.Some? then limit.value else DefaultLimit;
    if sessionId.Some? {
      var window := Take(Reverse(OwnedBy(chat, uid)), SessionWindow);
      NewestOwned(chat, uid, SessionWindow);
      var mine := InSession(window, sessionId.value);
      InSessionDescending(window, sessionId.value);
      TakeDescending(mine, n);
      TakeIn(mine, n);
    } else {
      NewestOwned(chat, uid, n);
    }
  }

  /** Without a session, a read returns exactly the `limit` newest messages
      of the user: as many as exist up to the limit, and every message left
      out is older than every message returned. */
  lemma ChatMessagesAreTheNewest(chat: seq<Row<ChatMessage>>, uid: nat, limit: Option<nat>)
    requires Ordered(chat)
    ensures var r := GetChatMessages(chat, uid, None, limit);
      var n := if limit.Some? then limit.value else DefaultLimit;
      && |r| == (if n < |OwnedBy(chat, uid)| then n else |OwnedBy(chat, uid)|)
      && (forall x, y :: x in chat && x.userId == uid && x !in r && y in r ==> x.id < y.id)
  {
    var n := if limit.Some? then limit.value else DefaultLimit;
    OwnedByOrdered(chat, uid);
    NewestFirst(OwnedBy(chat, uid), n);
  }

  /** A per-session read only looks at the user's 200 newest messages: a
      message of the session older than those is never returned, however
      few messages the session has. */
  lemma SessionReadWindow(chat: seq<Row<ChatMessage>>, uid: nat, sid: nat, limit: Option<nat>, x: Row<ChatMessage>)
    requires x in chat && x.userId == uid
    requires x !in Take(Reverse(OwnedBy(chat, uid)), SessionWindow)
    ensures x !in GetChatMessages(chat, uid, Some(sid), limit)
  {
  }

  /** When the user has at most 200 messages, a per-session read returns
      the newest `limit` messages of that session. */
  lemma SessionReadComplete(chat: seq<Row<ChatMessage>>, uid: nat, sid: nat, limit: Option<nat>)
    requires |OwnedBy(chat, uid)| <= SessionWindow
    ensures GetChatMessages(chat, uid, Some(sid), limit)
         == Take(InSession(Reverse(OwnedBy(chat, uid)), sid), if limit.Some? then limit.value else DefaultLimit)
  {
  }

  // ---------------------------------------------------------------------
  // Writing

  /** The tables after `saveChatMessage`: one message appended under a
      fresh id, stamped with the current time. */
  function SaveSpec(t: Tables, uid: nat, sessionId: Option<nat>, role: Role, content: string, now: int): Tables {
    t.(chatMessages := t.chatMessages + [Row(t.nextId, uid, ChatMessage(sessionId, role, content, now))],
       nextId := t.nextId + 1)
  }

  lemma ReverseSnoc<T>(s: seq<T>, x: T)
    ensures Reverse(s + [x]) == [x] + Reverse(s)
  {
  }

  /** A message just saved is the first one every read of its user returns
      (of its session too, when it has one). */
  lemma SaveThenRead(t: Tables, uid: nat, sessionId: Option<nat>, role: Role, content: string, now: int,
                     sid: Option<nat>, limit: Option<nat>)
    requires limit != Some(0)
    requires sid.None? || sid == sessionId
    ensures var r := GetChatMessages(SaveSpec(t, uid, sessionId, role, content, now).chatMessages, uid, sid, limit);
      r != [] && r[0] == Row(t.nextId, uid, ChatMessage(sessionId, role, content, now))
  {
    var row := Row(t.nextId, uid, ChatMessage(sessionId, role, content, now));
    var newest := NewestAfterAppend(t.chatMessages, row);
    var w := Take(newest, SessionWindow);
    assert w == [row] + w[1..];
    if sid.Some? {
      assert InSession(w, sid.value) == [row] + InSession(w[1..], sid.value);
    }
  }

  /** Appending one row of a user puts it at the head of the user's
      descending read. */
  lemma NewestAfterAppend(chat: seq<Row<ChatMessage>>, row: Row<ChatMessage>) returns (newest: seq<Row<ChatMessage>>)
    ensures newest == Reverse(OwnedBy(chat + [row], row.userId))
    ensures newest == [row] + Reverse(OwnedBy(chat, row.userId))
  {
    OwnedByAppend(chat, [row], row.userId);
    assert [row][1..] == [];
    ReverseSnoc(OwnedBy(chat, row.userId), row);
    newest := [row] + Reverse(OwnedBy(chat, row.userId));
  }

  /** Saving a message leaves every other user's reads unchanged. */
  lemma SaveKeepsOthers(t: Tables, uid: nat, sessionId: Option<nat>, role: Role, content: string, now: int,
                        sid: Option<nat>, limit: Option<nat>, other: nat)
    requires other != uid
    ensures GetChatMessages(SaveSpec(t, uid, sessionId, role, content, now).chatMessages, other, sid, limit)
         == GetChatMessages(t.chatMessages, other, sid, limit)
  {
    var row := Row(t.nextId, uid, ChatMessage(sessionId, role, content, now));
    OwnedByAppend(t.chatMessages, [row], other);
    assert [row][1..] == [];
    assert OwnedBy([row], other) == [];
    assert OwnedBy(t.chatMessages + [row], other) == OwnedBy(t.chatMessages, other);
  }

  lemma SaveWellFormed(t: Tables, uid: nat, sessionId: Option<nat>, role: Role, content: string, now: int)
    requires WellFormed(t)
    ensures WellFormed(SaveSpec(t, uid, sessionId, role, content, now))
  {
    AppendOrdered(t.chatMessages, Row(t.nextId, uid, ChatMessage(sessionId, role, content, now)), t.nextId);
  }

  /** `saveChatMessage`; returns the new message's id. */
  method SaveChatMessage(db: Db, uid: nat, sessionId: Option<nat>, role: Role, content: string, now: int)
    returns (id: nat)
    requires db.Valid()
    modifies db
    ensures db.Valid()
    ensures id == old(db.nextId)
    ensures db.Snapshot() == SaveSpec(old(db.Snapshot()), uid, sessionId, role, content, now)
  {
    SaveWellFormed(db.Snapshot(), uid, sessionId, role, content, now);
    id := db.nextId;
    db.chatMessages, db.nextId := db.chatMessages + [Row(id, uid, ChatMessage(sessionId, role, content, now))], id + 1;
  }

  /** After `clearChatHistory` the user has no messages left, every other
      user keeps theirs, and nothing else changes. */
  lemma ClearLeavesOthers(t: Tables, uid: nat, other: nat, sid: Option<nat>, limit: Option<nat>)
    ensures GetChatMessages(NotOwnedBy(t.chatMessages, uid), uid, sid, limit) == []
    ensures other != uid ==>
      GetChatMessages(NotOwnedBy(t.chatMessages, uid), other, sid, limit) == GetChatMessages(t.chatMessages, other, sid, limit)
  {
    OwnedByNotOwnedBy(t.chatMessages, uid, uid);
    OwnedByNotOwnedBy(t.chatMessages, uid, other);
  }

  /** `clearChatHistory`: deletes the user's messages one by one and
      reports how many there were. */
  method ClearChatHistory(db: Db, uid: nat) returns (deleted: nat)
    requires db.Valid()
    modifies db
    ensures db.Valid()
    ensures deleted == |OwnedBy(old(db.chatMessages), uid)|
    ensures db.Snapshot() == old(db.Snapshot()).(chatMessages := NotOwnedBy(old(db.chatMessages), uid))
  {
    NotOwnedWellFormed(db.chatMessages, uid, db.nextId);
    WithChat(db.Snapshot(), NotOwnedBy(db.chatMessages, uid));
    var messages := OwnedBy(db.chatMessages, uid);
    var rest := DeleteAllOwned(db.chatMessages, uid);
    db.chatMessages := rest;
    deleted := |messages|;
  }

  // ---------------------------------------------------------------------
  // The coach

  /** One turn of the conversation handed to the language model. */
  datatype Turn = Turn(role: Role, content: string)

  /** What the language model call comes back with: a text block, a
      response without one, or an error. */
  datatype Reply = Text(text: string) | NoText | Failed

  function Turns(rows: seq<Row<ChatMessage>>): (r: seq<Turn>)
    ensures |r| == |rows|
    ensures forall i :: 0 <= i < |rows| ==> r[i] == Turn(rows[i].doc.role, rows[i].doc.content)
  {
    if rows == [] then [] else [Turn(rows[0].doc.role, rows[0].doc.content)] + Turns(rows[1..])
  }

  /** The conversation history: the ten newest messages of the user in any
      session, turned back into oldest-first order. */
  function History(chat: seq<Row<ChatMessage>>, uid: nat): seq<Turn> {
    Turns(Reverse(GetChatMessages(chat, uid, None, Some(10))))
  }

  /** The reply saved for each outcome of the model call. */
  function ReplyContent(reply: Reply): (r: string)
    ensures reply.Text? ==> r == reply.text
    ensures reply.NoText? ==> r == NoTextFallback
    ensures reply.Failed? ==> r == ErrorFallback
  {
    match reply
    case Text(s) => s
    case NoText => NoTextFallback
    case Failed => ErrorFallback
  }

  /** The coach's reply saved for the conversation `chat` of a user. */
  function CoachReply(chat: seq<Row<ChatMessage>>, uid: nat, coach: seq<Turn> -> Reply): string {
    ReplyContent(coach(History(chat, uid)))
  }

  /** The tables after `sendChatMessage`: the user's message, then the
      coach's reply to the history that includes it. */
  function SendSpec(t: Tables, uid: nat, message: string, sessionId: Option<nat>, sentAt: int, repliedAt: int,
                    coach: seq<Turn> -> Reply): Tables
  {
    var t1 := SaveSpec(t, uid, sessionId, UserRole, message, sentAt);
    SaveSpec(t1, uid, sessionId, AssistantRole, CoachReply(t1.chatMessages, uid, coach), repliedAt)
  }

  /** `sendChatMessage`. The model call is `coach`, applied to the history;
      the analytics and session lines of the system prompt only feed it. */
  method SendChatMessage(db: Db, uid: nat, message: string, sessionId: Option<nat>, sentAt: int, repliedAt: int,
                         coach: seq<Turn> -> Reply)
    returns (history: seq<Turn>)
    requires db.Valid()
    modifies db
    ensures db.Valid()
    ensures history == History(SaveSpec(old(db.Snapshot()), uid, sessionId, UserRole, message, sentAt).chatMessages, uid)
    ensures db.Snapshot() == SendSpec(old(db.Snapshot()), uid, message, sessionId, sentAt, repliedAt, coach)
  {
    var _ := SaveChatMessage(db, uid, sessionId, UserRole, message, sentAt);
    var recent := GetChatMessages(db.chatMessages, uid, None, Some(10));
    history := Turns(Reverse(recent));
    var content := ReplyContent(coach(history));
    var _ := SaveChatMessage(db, uid, sessionId, AssistantRole, content, repliedAt);
  }

  /** The history the model sees ends with the message just sent, holds at
      most ten turns, and is in oldest-first order. */
  lemma HistoryEndsWithMessage(t: Tables, uid: nat, message: string, sessionId: Option<nat>, sentAt: int)
    requires WellFormed(t)
    ensures var chat := SaveSpec(t, uid, sessionId, UserRole, message, sentAt).chatMessages;
      var h := History(chat, uid);
      var recent := GetChatMessages(chat, uid, None, Some(10));
      && 1 <= |h| <= 10
      && h[|h| - 1] == Turn(UserRole, message)
      && h == Turns(Reverse(recent)) && Descending(recent)
  {
    var t1 := SaveSpec(t, uid, sessionId, UserRole, message, sentAt);
    SaveThenRead(t, uid, sessionId, UserRole, message, sentAt, None, Some(10));
    SaveWellFormed(t, uid, sessionId, UserRole, message, sentAt);
    ChatMessagesNewestFirst(t1.chatMessages, uid, None, Some(10));
  }

  /** Sending adds exactly two messages, both under the user and the given
      session: first the user's, then the coach's reply (or a fallback). */
  lemma SendAddsTwo(t: Tables, uid: nat, message: string, sessionId: Option<nat>, sentAt: int, repliedAt: int,
                    coach: seq<Turn> -> Reply)
    ensures var r := SendSpec(t, uid, message, sessionId, sentAt, repliedAt, coach);
      var reply := CoachReply(SaveSpec(t, uid, sessionId, UserRole, message, sentAt).chatMessages, uid, coach);
      && r.chatMessages == t.chatMessages + [Row(t.nextId, uid, ChatMessage(sessionId, UserRole, message, sentAt)),
                                             Row(t.nextId + 1, uid, ChatMessage(sessionId, AssistantRole, reply, repliedAt))]
      && r.nextId == t.nextId + 2
      && r.users == t.users && r.sessions == t.sessions && r.settings == t.settings
  {
    var t1 := SaveSpec(t, uid, sessionId, UserRole, message, sentAt);
    var a := Row(t.nextId, uid, ChatMessage(sessionId, UserRole, message, sentAt));
    var b := Row(t.nextId + 1, uid, ChatMessage(sessionId, AssistantRole, CoachReply(t1.chatMessages, uid, coach), repliedAt));
    assert t1.chatMessages + [b] == t.chatMessages + [a, b];
  }

  /** Two messages saved in a row are the user's two newest, the later
      one first. */
  lemma SaveTwiceThenRead(t: Tables, uid: nat, sessionId: Option<nat>, first: string, firstAt: int,
                          second: string, secondAt: int)
    ensures var t1 := SaveSpec(t, uid, sessionId, UserRole, first, firstAt);
      GetChatMessages(SaveSpec(t1, uid, sessionId, AssistantRole, second, secondAt).chatMessages, uid, None, Some(2))
        == [Row(t.nextId + 1, uid, ChatMessage(sessionId, AssistantRole, second, secondAt)),
            Row(t.nextId, uid, ChatMessage(sessionId, UserRole, first, firstAt))]
  {
    var t1 := SaveSpec(t, uid, sessionId, UserRole, first, firstAt);
    var a := Row(t.nextId, uid, ChatMessage(sessionId, UserRole, first, firstAt));
    var b := Row(t.nextId + 1, uid, ChatMessage(sessionId, AssistantRole, second, secondAt));
    var c2 := SaveSpec(t1, uid, sessionId, AssistantRole, second, secondAt).chatMessages;
    assert c2 == t1.chatMessages + [b];
    var n1 := NewestAfterAppend(t.chatMessages, a);
    var n2 := NewestAfterAppend(t1.chatMessages, b);
    assert Reverse(OwnedBy(c2, uid)) == [b] + ([a] + Reverse(OwnedBy(t.chatMessages, uid)));
    TakeTwo(b, a, Reverse(OwnedBy(t.chatMessages, uid)));
  }

  lemma TakeTwo(b: Row<ChatMessage>, a: Row<ChatMessage>, rest: seq<Row<ChatMessage>>)
    ensures Take([b] + ([a] + rest), 2) == [b, a]
  {
    assert ([b] + ([a] + rest))[..2] == [b, a];
  }

  /** Right after sending, the user's two newest messages are the reply and,
      before it, the message sent. */
  lemma SendThenRead(t: Tables, uid: nat, message: string, sessionId: Option<nat>, sentAt: int, repliedAt: int,
                     coach: seq<Turn> -> Reply)
    ensures var r := SendSpec(t, uid, message, sessionId, sentAt, repliedAt, coach);
      var reply := CoachReply(SaveSpec(t, uid, sessionId, UserRole, message, sentAt).chatMessages, uid, coach);
      GetChatMessages(r.chatMessages, uid, None, Some(2))
        == [Row(t.nextId + 1, uid, ChatMessage(sessionId, AssistantRole, reply, repliedAt)),
            Row(t.nextId, uid, ChatMessage(sessionId, UserRole, message, sentAt))]
  {
    var reply := CoachReply(SaveSpec(t, uid, sessionId, UserRole, message, sentAt).chatMessages, uid, coach);
    SaveTwiceThenRead(t, uid, sessionId, message, sentAt, reply, repliedAt);
  }

  // ---------------------------------------------------------------------
  // The fallback replies

  /** The emoji the fallbacks end with, U+1F4AA FLEXED BICEPS. */
  const Flex: string := "\U{1F4AA}"

  /** The fallback when the response has no text block. */
  const NoTextFallback: string := "I'm here to help! Keep up the great work! " + Flex
  /** The fallback when the model call fails. */
  const ErrorFallback: string :=
    "I'm experiencing some technical difficulties, but I'm still here to support you! Keep pushing forward! " + Flex

  /** The fallbacks as the source spells them: the emoji's UTF-8 bytes
      read back as Windows-1252 text, four characters. */
  const MisreadFlex: string := "\U{F0}\U{178}\U{2019}\U{AA}"
  const NoTextFallbackAsWritten: string := "I'm here to help! Keep up the great work! " + MisreadFlex
  const ErrorFallbackAsWritten: string :=
    "I'm experiencing some technical difficulties, but I'm still here to support you! Keep pushing forward! "
    + MisreadFlex

  /** The UTF-8 encoding of a code point. */
  function Utf8(cp: nat): (r: seq<nat>)
    requires cp < 0x11_0000
    ensures 1 <= |r| <= 4
    ensures forall i :: 0 <= i < |r| ==> r[i] < 256
    ensures cp < 0x80 <==> |r| == 1
    ensures 0x1_0000 <= cp <==> |r| == 4
    ensures forall i :: 1 <= i < |r| ==> 0x80 <= r[i] < 0xC0
  {
    if cp < 0x80 then [cp]
    else if cp < 0x800 then [0xC0 + cp / 0x40, 0x80 + cp % 0x40]
    else if cp < 0x1_0000 then [0xE0 + cp / 0x1000, 0x80 + cp / 0x40 % 0x40, 0x80 + cp % 0x40]
    else [0xF0 + cp / 0x4_0000, 0x80 + cp / 0x1000 % 0x40, 0x80 + cp / 0x40 % 0x40, 0x80 + cp % 0x40]
  }

  /** One byte read as Windows-1252, as browsers decode it: 0x80-0x9F hold
      typographic characters, the five unassigned bytes and every other
      byte stand for the code point of the same number. */
  function Cp1252(b: nat): (c: char)
    requires b < 256
  {
    if b == 0x80 then '\U{20AC}' else if b == 0x82 then '\U{201A}' else if b == 0x83 then '\U{192}'
    else if b == 0x84 then '\U{201E}' else if b == 0x85 then '\U{2026}' else if b == 0x86 then '\U{2020}'
    else if b == 0x87 then '\U{2021}' else if b == 0x88 then '\U{2C6}' else if b == 0x89 then '\U{2030}'
    else if b == 0x8A then '\U{160}' else if b == 0x8B then '\U{2039}' else if b == 0x8C then '\U{152}'
    else if b == 0x8E then '\U{17D}' else if b == 0x91 then '\U{2018}' else if b == 0x92 then '\U{2019}'
    else if b == 0x93 then '\U{201C}' else if b == 0x94 then '\U{201D}' else if b == 0x95 then '\U{2022}'
    else if b == 0x96 then '\U{2013}' else if b == 0x97 then '\U{2014}' else if b == 0x98 then '\U{2DC}'
    else if b == 0x99 then '\U{2122}' else if b == 0x9A then '\U{161}' else if b == 0x9B then '\U{203A}'
    else if b == 0x9C then '\U{153}' else if b == 0x9E then '\U{17E}' else if b == 0x9F then '\U{178}'
    else b as char
  }

  function DecodeCp1252(bytes: seq<nat>): (s: string)
    requires forall i :: 0 <= i < |bytes| ==> bytes[i] < 256
    ensures |s| == |bytes|
    ensures forall i :: 0 <= i < |bytes| ==> s[i] == Cp1252(bytes[i])
  {
    if bytes == [] then [] else [Cp1252(bytes[0])] + DecodeCp1252(bytes[1..])
  }

  /** As written, each fallback ends in the emoji's UTF-8 bytes misread as
      Windows-1252: four characters instead of the one intended. */
  lemma FallbacksAsWrittenAreMisread()
    ensures DecodeCp1252(Utf8(0x1F4AA)) == MisreadFlex
    ensures NoTextFallbackAsWritten != NoTextFallback && ErrorFallbackAsWritten != ErrorFallback
    ensures |MisreadFlex| == 4 && |Flex| == 1
  {
    assert Utf8(0x1F4AA) == [0xF0, 0x9F, 0x92, 0xAA];
    assert |NoTextFallbackAsWritten| != |NoTextFallback|;
    assert |ErrorFallbackAsWritten| != |ErrorFallback|;
  }

  /** The corrected fallbacks end in the one character whose UTF-8 bytes
      the source's misread text spells out, and agree with the source
      everywhere before it. */
  lemma FallbacksCorrected()
    ensures |Flex| == 1 && DecodeCp1252(Utf8(Flex[0] as nat)) == MisreadFlex
    ensures NoTextFallback[..|NoTextFallback| - 1] == NoTextFallbackAsWritten[..|NoTextFallbackAsWritten| - 4]
    ensures ErrorFallback[..|ErrorFallback| - 1] == ErrorFallbackAsWritten[..|ErrorFallbackAsWritten| - 4]
  {
    FallbacksAsWrittenAreMisread();
  }
}
