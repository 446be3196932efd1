/**
 * The event and intent handlers of the chat window (src/components/Chat/ChatWindow.jsx),
 * without the rendering: inbound frame dispatch, the reaction toggle, the typing
 * debounce, the transcription toggle, chat selection with history backfill, and the
 * outbound sends. The window's state is a class; each handler is a method that says
 * what it does to that state in terms of the pure decision functions below.
 */
module ChatWindow {
  import opened Wrappers
  import Crypto
  import CS = ChatStore

  type Id = CS.Id

  // WebSocket `readyState` values.
  const Connecting: int := 0
  const Open: int := 1
  const Closing: int := 2
  const Closed: int := 3

  /** Milliseconds of keyboard silence after which "stopped typing" is announced. */
  const TypingIdleMs: int := 2000

  /** The socket in `socketRef`, with the chat its `onmessage` handler was installed for. */
  datatype Socket = Socket(chat: CS.Chat, readyState: int)

  /**
   * An inbound frame after `JSON.parse`. `kind` is the frame's `type`; the remaining fields
   * are read only by the branch for that type ("" stands for a missing string field).
   */
  datatype Frame = Frame(kind: string, id: Id, text: string, sender: string, isTyping: bool,
                         encryptedAudio: string, encryptedAesKey: string,
                         messageId: Id, reaction: Option<string>)

  /** The frames the window sends. */
  datatype OutFrame =
    | ReactionOut(messageId: Id, reaction: Option<string>)
    | TypingOut(isTyping: bool)
    | MessageOut(message: string, recipient: Option<string>)  // voice_message: null
    | VoiceOut(encryptedAudio: string, encryptedAesKey: string, sender: string, recipient: Option<string>)
    | DeleteOut(messageId: Id, sender: string)

  /** The `type` field each outbound frame carries. */
  function Kind(o: OutFrame): string {
    match o
    case ReactionOut(_, _) => "reaction"
    case TypingOut(_) => "typing"
    case MessageOut(_, _) => "message"
    case VoiceOut(_, _, _, _) => "voice"
    case DeleteOut(_, _) => "delete"
  }

  /** The toasts the handlers raise. */
  datatype Notice = DeletedNotice | UnsentNotice | TranscribeFailedNotice

  /** The HTTP requests the handlers issue; their responses come back as later events. */
  datatype Request = HistoryRequest(chatId: int) | TranscribeRequest(messageId: Id, audioUrl: CS.VoiceUrl)

  /** One record of the history response. "" stands for a missing or null string field. */
  datatype HistoryRecord = HistoryRecord(id: Id, sender: string, text: string,
                                         encryptedAudio: string, encryptedAesKey: string,
                                         reaction: string, timestamp: Option<string>)

  /** Whether a handler finished or stopped at an exception. */
  datatype Outcome = Done | Threw

  // ---------------------------------------------------------------------------
  // Sending on the socket
  // ---------------------------------------------------------------------------

  /** `send` throws on a null socket (TypeError) and on one still connecting. */
  predicate SendThrows(socket: Option<Socket>) {
    socket.None? || socket.value.readyState == Connecting
  }

  /** The frames the server has received after `frames` are sent: an open socket delivers
      them, a closing or closed one drops them. */
  function Deliver(socket: Option<Socket>, sent: seq<OutFrame>, frames: seq<OutFrame>): seq<OutFrame> {
    if socket.Some? && socket.value.readyState == Open then sent + frames else sent
  }

  /** `currentChat.participants[1]`, undefined when there is no second participant. */
  function Recipient(chat: CS.Chat): (r: Option<string>)
    ensures r.Some? <==> |chat.participants| > 1
    ensures r.Some? ==> r.value == chat.participants[1]
  {
    if |chat.participants| > 1 then Some(chat.participants[1]) else None
  }

  /** The characters `String.prototype.trim` removes. */
  predicate IsJsWhitespace(c: char) {
    || c == '\t' || c == '\n' || c == '\U{000B}' || c == '\U{000C}' || c == '\r' || c == ' '
    || c == '\U{00A0}' || c == '\U{1680}' || ('\U{2000}' <= c <= '\U{200A}')
    || c == '\U{2028}' || c == '\U{2029}' || c == '\U{202F}' || c == '\U{205F}'
    || c == '\U{3000}' || c == '\U{FEFF}'
  }

  /** `s` without its leading whitespace. */
  function TrimStart(s: string): (r: string)
    ensures |r| <= |s| && r == s[|s| - |r|..]
    ensures forall i :: 0 <= i < |s| - |r| ==> IsJsWhitespace(s[i])
    ensures r == [] || !IsJsWhitespace(r[0])
    decreases |s|
  {
    if s != [] && IsJsWhitespace(s[0]) then TrimStart(s[1..]) else s
  }

  /** `s` without its trailing whitespace. */
  function TrimEnd(s: string): (r: string)
    ensures |r| <= |s| && r == s[..|r|]
    ensures forall i :: |r| <= i < |s| ==> IsJsWhitespace(s[i])
    ensures r == [] || !IsJsWhitespace(r[|r| - 1])
    decreases |s|
  {
    if s != [] && IsJsWhitespace(s[|s| - 1]) then TrimEnd(s[..|s| - 1]) else s
  }

  /** `s.trim()`: nothing left, or a run that neither starts nor ends with whitespace. */
  function Trim(s: string): (r: string)
    ensures |r| <= |s|
    ensures r == [] || (!IsJsWhitespace(r[0]) && !IsJsWhitespace(r[|r| - 1]))
    ensures r == [] <==> forall i :: 0 <= i < |s| ==> IsJsWhitespace(s[i])
  {
    var t := TrimStart(s);
    assert t != [] ==> t[0] == s[|s| - |t|];
    var r := TrimEnd(t);
    assert r != [] ==> r[0] == t[0];
    r
  }

  /** `s.trim()` is the empty (falsy) string: exactly when every character is whitespace. */
  function IsBlank(s: string): (b: bool)
    ensures b <==> forall i :: 0 <= i < |s| ==> IsJsWhitespace(s[i])
  {
    Trim(s) == []
  }

  // ---------------------------------------------------------------------------
  // Reactions
  // ---------------------------------------------------------------------------

  /** `messageReactions[messageId]`, with an absent key read as no reaction. */
  function Lookup(m: map<Id, Option<string>>, id: Id): Option<string> {
    if id in m then m[id] else None
  }

  /** The reaction `handleReaction` sends: `current === reaction ? null : reaction`. */
  function ToggledReaction(current: Option<string>, chosen: string): (r: Option<string>)
    ensures r == None <==> current == Some(chosen)
    ensures r != None ==> r == Some(chosen)
  {
    if current == Some(chosen) then None else Some(chosen)
  }

  /**
   * With the server echoing each reaction frame back: reacting twice with the same symbol
   * clears it, and reacting then with another symbol sets that one.
   */
  lemma ReactionToggleSequence(m: map<Id, Option<string>>, id: Id, like: string, love: string)
    requires Lookup(m, id) == None && like != love
    ensures var r1 := ToggledReaction(Lookup(m, id), like);
            var m1 := m[id := r1];
            var r2 := ToggledReaction(Lookup(m1, id), like);
            var m2 := m1[id := r2];
            var r3 := ToggledReaction(Lookup(m2, id), love);
            r1 == Some(like) && r2 == None && r3 == Some(love)
  {
  }

  // ---------------------------------------------------------------------------
  // Inbound frames
  // ---------------------------------------------------------------------------

  /** What the window shows that inbound frames change. */
  datatype View = View(messages: seq<CS.Message>, reactions: map<Id, Option<string>>,
                       otherUserTyping: string, notices: seq<Notice>)

  /** The indicator a typing frame sets. */
  function TypingIndicator(sender: string, isTyping: bool): (r: string)
    ensures r == "" <==> !isTyping
    ensures isTyping ==> sender <= r
  {
    if isTyping then sender + " is typing..." else ""
  }

  /** The toast a delete frame raises: "deleted" for our own id, "unsent" otherwise. */
  function DeleteNotice(chat: CS.Chat, sender: string): (r: Notice)
    ensures r == DeletedNotice <==> sender == chat.currentUserId
    ensures r != TranscribeFailedNotice
  {
    if sender == chat.currentUserId then DeletedNotice else UnsentNotice
  }

  /** The `onmessage` handler, dispatching on `type` with the chat it was installed for. */
  function Dispatch(f: Crypto.Forge, chat: CS.Chat, v: View, data: Frame): (r: View)
    ensures data.kind != "message" && data.kind != "voice_message" && data.kind != "delete" ==>
      r.messages == v.messages
    ensures data.kind != "reaction" ==> r.reactions == v.reactions
    ensures data.kind != "typing" ==> r.otherUserTyping == v.otherUserTyping
    ensures data.kind != "delete" ==> r.notices == v.notices
  {
    if data.kind == "message" then
      match Crypto.DecryptText(f, chat.privateKey, data.text)
      case Ok(plaintext) => v.(messages := v.messages + [CS.Message(data.id, data.sender, plaintext, None, None)])
      case Err(_) => v
    else if data.kind == "typing" then
      if data.sender != chat.currentUser then v.(otherUserTyping := TypingIndicator(data.sender, data.isTyping))
      else v
    else if data.kind == "voice_message" then
      match Crypto.DecryptedAudio(f, chat.privateKey, data.encryptedAudio, data.encryptedAesKey, None)
      case Ok(u8) => v.(messages := v.messages + [CS.Message(data.id, data.sender, "", Some(CS.ObjectUrl(u8)), None)])
      case Err(_) => v
    else if data.kind == "delete" then
      v.(messages := CS.Without(v.messages, data.id), notices := v.notices + [DeleteNotice(chat, data.sender)])
    else if data.kind == "reaction" then
      v.(reactions := v.reactions[data.messageId := data.reaction])
    else v
  }

  /**
   * A text frame appends exactly one `{id, text, sender}` entry when its text decrypts,
   * and changes nothing when it does not.
   */
  lemma MessageFrameAppends(f: Crypto.Forge, chat: CS.Chat, v: View, data: Frame)
    requires data.kind == "message"
    ensures var r := Dispatch(f, chat, v, data);
            var dec := Crypto.DecryptText(f, chat.privateKey, data.text);
            && (dec.Ok? ==> r.messages == v.messages + [CS.Message(data.id, data.sender, dec.value, None, None)])
            && (dec.Err? ==> r.messages == v.messages)
            && r.reactions == v.reactions && r.otherUserTyping == v.otherUserTyping && r.notices == v.notices
  {
  }

  /** A voice frame appends exactly one `{id, voice_url, sender, text: ""}` entry when its audio decrypts. */
  lemma VoiceFrameAppends(f: Crypto.Forge, chat: CS.Chat, v: View, data: Frame)
    requires data.kind == "voice_message"
    ensures var r := Dispatch(f, chat, v, data);
            var dec := Crypto.DecryptedAudio(f, chat.privateKey, data.encryptedAudio, data.encryptedAesKey, None);
            && (dec.Ok? ==> r.messages == v.messages + [CS.Message(data.id, data.sender, "", Some(CS.ObjectUrl(dec.value)), None)])
            && (dec.Ok? ==> r.reactions == v.reactions && r.otherUserTyping == v.otherUserTyping && r.notices == v.notices)
            && (dec.Err? ==> r == v)
  {
  }

  /**
   * A typing frame from `current_user` is ignored; any other sets the indicator to
   * "<sender> is typing..." or clears it.
   */
  lemma TypingFrameIndicator(f: Crypto.Forge, chat: CS.Chat, v: View, data: Frame)
    requires data.kind == "typing"
    ensures data.sender == chat.currentUser ==> Dispatch(f, chat, v, data) == v
    ensures data.sender != chat.currentUser ==>
      Dispatch(f, chat, v, data) == v.(otherUserTyping := if data.isTyping then data.sender + " is typing..." else "")
  {
  }

  /** A delete frame removes every message with that id and raises exactly one notice. */
  lemma DeleteFrameRemoves(f: Crypto.Forge, chat: CS.Chat, v: View, data: Frame)
    requires data.kind == "delete"
    ensures var r := Dispatch(f, chat, v, data);
            && r.messages == CS.Without(v.messages, data.id)
            && (forall m :: m in r.messages <==> m in v.messages && m.id != data.id)
            && r.notices == v.notices + [if data.sender == chat.currentUserId then DeletedNotice else UnsentNotice]
            && r.reactions == v.reactions && r.otherUserTyping == v.otherUserTyping
  {
  }

  /** A reaction frame sets that message's reaction, null included, and no other key. */
  lemma ReactionFrameSets(f: Crypto.Forge, chat: CS.Chat, v: View, data: Frame)
    requires data.kind == "reaction"
    ensures var r := Dispatch(f, chat, v, data);
            && Lookup(r.reactions, data.messageId) == data.reaction
            && data.messageId in r.reactions
            && (forall id :: id != data.messageId ==> (id in r.reactions <==> id in v.reactions))
            && (forall id :: id != data.messageId && id in v.reactions ==> r.reactions[id] == v.reactions[id])
            && r.messages == v.messages && r.otherUserTyping == v.otherUserTyping && r.notices == v.notices
  {
  }

  /** Frames of any other type change nothing. */
  lemma OtherFramesIgnored(f: Crypto.Forge, chat: CS.Chat, v: View, data: Frame)
    requires data.kind !in {"message", "typing", "voice_message", "delete", "reaction"}
    ensures Dispatch(f, chat, v, data) == v
  {
  }

  /**
   * The window sends voice as type "voice" but handles "voice_message" on receipt: a voice
   * frame carrying the type the window itself sends is ignored.
   */
  lemma SentVoiceKindIgnored(f: Crypto.Forge, chat: CS.Chat, v: View, data: Frame, out: OutFrame)
    requires out.VoiceOut? && data.kind == Kind(out)
    ensures Dispatch(f, chat, v, data) == v
  {
  }

  /**
   * The typing filter compares the sender with `current_user`, the delete notice with
   * `current_user_id`. When the two differ, a typing frame from `current_user_id` is shown
   * as someone else typing although its delete frame counts as our own, and a typing frame
   * from `current_user` is hidden as our own although its delete frame counts as unsent.
   */
  lemma IdentityFieldsDisagree(f: Crypto.Forge, chat: CS.Chat, v: View, typing: Frame, delete: Frame)
    requires chat.currentUser != chat.currentUserId
    requires typing.kind == "typing" && typing.isTyping && delete.kind == "delete"
    ensures typing.sender == chat.currentUserId && delete.sender == chat.currentUserId ==>
      Dispatch(f, chat, v, typing).otherUserTyping == chat.currentUserId + " is typing..."
      && Dispatch(f, chat, v, delete).notices == v.notices + [DeletedNotice]
    ensures typing.sender == chat.currentUser && delete.sender == chat.currentUser ==>
      Dispatch(f, chat, v, typing) == v
      && Dispatch(f, chat, v, delete).notices == v.notices + [UnsentNotice]
  {
  }

  /**
   * Both participants apply the same delete frame: their message lists stay equal, the
   * sender sees "deleted" and the peer sees "unsent".
   */
  lemma DeleteConverges(f: Crypto.Forge, mine: CS.Chat, theirs: CS.Chat, v1: View, v2: View, data: Frame)
    requires data.kind == "delete" && v1.messages == v2.messages
    requires data.sender == mine.currentUserId && data.sender != theirs.currentUserId
    ensures Dispatch(f, mine, v1, data).messages == Dispatch(f, theirs, v2, data).messages
    ensures Dispatch(f, mine, v1, data).notices == v1.notices + [DeletedNotice]
    ensures Dispatch(f, theirs, v2, data).notices == v2.notices + [UnsentNotice]
  {
  }

  /**
   * The voice path cannot round-trip: the envelope the window sends leaves the IV out,
   * and the receiving window decrypts without one, so when `decode64(undefined)` throws no
   * voice frame is ever shown, however sound the ciphers.
   */
  lemma VoiceNeverShown(f: Crypto.Forge, chat: CS.Chat, v: View, data: Frame)
    requires f.decode64Undefined == None
    requires data.kind == "voice_message"
    ensures Dispatch(f, chat, v, data) == v
  {
    Crypto.NoIvNoAudio(f, chat.privateKey, data.encryptedAudio, data.encryptedAesKey);
  }

  // ---------------------------------------------------------------------------
  // History backfill
  // ---------------------------------------------------------------------------

  /** The message one history record contributes: audio when both audio fields are set,
      else text when `text` is set; nothing when decryption throws. */
  function BackfillEntry(f: Crypto.Forge, chat: CS.Chat, rec: HistoryRecord): (r: seq<CS.Message>)
    ensures |r| <= 1
    ensures r != [] ==> r[0].id == rec.id && r[0].sender == rec.sender
  {
    if rec.encryptedAudio != "" && rec.encryptedAesKey != "" then
      match Crypto.DecryptedAudio(f, chat.privateKey, rec.encryptedAudio, rec.encryptedAesKey, None)
      case Ok(u8) => [CS.Message(rec.id, rec.sender, "", Some(CS.ObjectUrl(u8)), None)]
      case Err(_) => []
    else if rec.text != "" then
      match Crypto.DecryptText(f, chat.privateKey, rec.text)
      case Ok(plaintext) => [CS.Message(rec.id, rec.sender, plaintext, None, rec.timestamp)]
      case Err(_) => []
    else []
  }

  /** The messages the backfill loop appends, in response order. */
  function Backfill(f: Crypto.Forge, chat: CS.Chat, recs: seq<HistoryRecord>): (r: seq<CS.Message>)
    ensures forall m :: m in r ==> exists k :: 0 <= k < |recs| && m in BackfillEntry(f, chat, recs[k])
  {
    ConcatMap(rec => BackfillEntry(f, chat, rec), recs)
  }

  /** The messages of each record in turn, as a loop calling `addMessage` appends them. */
  function ConcatMap(entry: HistoryRecord -> seq<CS.Message>, recs: seq<HistoryRecord>): (r: seq<CS.Message>)
    ensures forall m :: m in r ==> exists k :: 0 <= k < |recs| && m in entry(recs[k])
    decreases |recs|
  {
    if recs == [] then []
    else ConcatMap(entry, recs[..|recs| - 1]) + entry(recs[|recs| - 1])
  }

  /** Appending record by record distributes over concatenation of the records. */
  lemma {:induction false} ConcatMapAppend(entry: HistoryRecord -> seq<CS.Message>,
                                           a: seq<HistoryRecord>, b: seq<HistoryRecord>)
    ensures ConcatMap(entry, a + b) == ConcatMap(entry, a) + ConcatMap(entry, b)
    decreases |b|
  {
    if b == [] {
      assert a + b == a;
    } else {
      var ab := a + b;
      var init := b[..|b| - 1];
      assert ab[..|ab| - 1] == a + init;
      assert ab[|ab| - 1] == b[|b| - 1];
      ConcatMapAppend(entry, a, init);
    }
  }

  /** The reaction map the backfill loop builds: the truthy `reaction` of each record by id. */
  function HistoryReactions(recs: seq<HistoryRecord>): (r: map<Id, Option<string>>)
    ensures forall id :: id in r ==> r[id].Some? && r[id].value != ""
    decreases |recs|
  {
    if recs == [] then map[]
    else
      var m := HistoryReactions(recs[..|recs| - 1]);
      var last := recs[|recs| - 1];
      if last.reaction != "" then m[last.id := Some(last.reaction)] else m
  }

  /** One more record appends that record's message, if any, to the backfill so far. */
  lemma BackfillStep(f: Crypto.Forge, chat: CS.Chat, recs: seq<HistoryRecord>, i: int)
    requires 0 <= i < |recs|
    ensures Backfill(f, chat, recs[..i + 1]) == Backfill(f, chat, recs[..i]) + BackfillEntry(f, chat, recs[i])
  {
    assert recs[..i + 1][..i] == recs[..i];
  }

  /** Backfill keeps response order: the messages of a response are those of its halves. */
  lemma BackfillAppend(f: Crypto.Forge, chat: CS.Chat, a: seq<HistoryRecord>, b: seq<HistoryRecord>)
    ensures Backfill(f, chat, a + b) == Backfill(f, chat, a) + Backfill(f, chat, b)
  {
    ConcatMapAppend(rec => BackfillEntry(f, chat, rec), a, b);
  }

  /** Each record contributes at most one message, and every message comes from a record. */
  lemma {:induction false} BackfillFromRecords(f: Crypto.Forge, chat: CS.Chat, recs: seq<HistoryRecord>)
    ensures |Backfill(f, chat, recs)| <= |recs|
    ensures forall m :: m in Backfill(f, chat, recs) ==>
      exists k :: 0 <= k < |recs| && recs[k].id == m.id && recs[k].sender == m.sender
    decreases |recs|
  {
    if recs != [] {
      var init := recs[..|recs| - 1];
      BackfillFromRecords(f, chat, init);
      forall m | m in Backfill(f, chat, recs)
        ensures exists k :: 0 <= k < |recs| && recs[k].id == m.id && recs[k].sender == m.sender
      {
        if m in Backfill(f, chat, init) {
          var k :| 0 <= k < |init| && init[k].id == m.id && init[k].sender == m.sender;
          assert recs[k] == init[k];
        } else {
          assert recs[|recs| - 1].id == m.id;
        }
      }
    }
  }

  /**
   * A record whose audio (when both audio fields are set) or text (otherwise) fails to decrypt,
   * or that has neither, contributes nothing; the records around it still come through.
   */
  lemma BackfillSkipsFailure(f: Crypto.Forge, chat: CS.Chat, a: seq<HistoryRecord>, bad: HistoryRecord,
                             b: seq<HistoryRecord>)
    requires if bad.encryptedAudio != "" && bad.encryptedAesKey != ""
             then Crypto.DecryptedAudio(f, chat.privateKey, bad.encryptedAudio, bad.encryptedAesKey, None).Err?
             else bad.text != "" ==> Crypto.DecryptText(f, chat.privateKey, bad.text).Err?
    ensures BackfillEntry(f, chat, bad) == []
    ensures Backfill(f, chat, a + [bad] + b) == Backfill(f, chat, a) + Backfill(f, chat, b)
  {
    var front := a + [bad];
    BackfillAppend(f, chat, front, b);
    BackfillAppend(f, chat, a, [bad]);
    assert [bad][..0] == [];
    var single := Backfill(f, chat, [bad]);
    assert single == Backfill(f, chat, []) + BackfillEntry(f, chat, bad);
    assert single == [];
    assert Backfill(f, chat, front) == Backfill(f, chat, a);
  }

  /** Record `k` has a truthy reaction for `id`, and no later record with `id` has one. */
  predicate LatestReaction(recs: seq<HistoryRecord>, id: Id, k: int) {
    && 0 <= k < |recs| && recs[k].id == id && recs[k].reaction != ""
    && forall j :: k < j < |recs| && recs[j].id == id ==> recs[j].reaction == ""
  }

  /** For each id in the backfilled map, the value is the reaction of the last record with that id and a truthy reaction. */
  lemma {:induction false} HistoryReactionsLatest(recs: seq<HistoryRecord>)
    ensures forall id :: id in HistoryReactions(recs) ==>
      exists k :: LatestReaction(recs, id, k) && HistoryReactions(recs)[id] == Some(recs[k].reaction)
    decreases |recs|
  {
    if recs != [] {
      var init := recs[..|recs| - 1];
      var last := recs[|recs| - 1];
      HistoryReactionsLatest(init);
      forall id | id in HistoryReactions(recs)
        ensures exists k :: LatestReaction(recs, id, k) && HistoryReactions(recs)[id] == Some(recs[k].reaction)
      {
        if last.reaction != "" && id == last.id {
          assert LatestReaction(recs, id, |recs| - 1);
        } else {
          assert id in HistoryReactions(init) && HistoryReactions(recs)[id] == HistoryReactions(init)[id];
          var k :| LatestReaction(init, id, k) && HistoryReactions(init)[id] == Some(init[k].reaction);
          assert recs[k] == init[k];
          forall j | k < j < |recs| && recs[j].id == id
            ensures recs[j].reaction == ""
          {
            if j < |init| { assert recs[j] == init[j]; }
          }
          assert LatestReaction(recs, id, k);
        }
      }
    }
  }

  /**
   * The backfilled reaction map holds exactly the records' truthy reactions, and for each id
   * the value is the reaction of the last record with that id and a truthy reaction.
   */
  lemma {:induction false} HistoryReactionsTruthy(recs: seq<HistoryRecord>)
    ensures forall id :: id in HistoryReactions(recs) <==>
      exists k :: 0 <= k < |recs| && recs[k].id == id && recs[k].reaction != ""
    ensures forall id :: id in HistoryReactions(recs) ==>
      HistoryReactions(recs)[id].Some? && HistoryReactions(recs)[id].value != ""
    ensures forall id :: id in HistoryReactions(recs) ==>
      exists k :: LatestReaction(recs, id, k) && HistoryReactions(recs)[id] == Some(recs[k].reaction)
    decreases |recs|
  {
    HistoryReactionsLatest(recs);
    if recs != [] {
      var init := recs[..|recs| - 1];
      HistoryReactionsTruthy(init);
      forall id
        ensures id in HistoryReactions(recs) <==>
          exists k :: 0 <= k < |recs| && recs[k].id == id && recs[k].reaction != ""
      {
        if exists k :: 0 <= k < |init| && init[k].id == id && init[k].reaction != "" {
          var k :| 0 <= k < |init| && init[k].id == id && init[k].reaction != "";
          assert recs[k] == init[k];
        }
        if exists k :: 0 <= k < |recs| && recs[k].id == id && recs[k].reaction != "" {
          var k :| 0 <= k < |recs| && recs[k].id == id && recs[k].reaction != "";
          if k < |init| { assert init[k] == recs[k]; }
        }
      }
    }
  }

  /**
   * History voice records are never shown when `decode64(undefined)` throws: the backfill
   * calls `decryptAudio` without the IV as well.
   */
  lemma HistoryVoiceNeverShown(f: Crypto.Forge, chat: CS.Chat, rec: HistoryRecord)
    requires f.decode64Undefined == None
    requires rec.encryptedAudio != "" && rec.encryptedAesKey != ""
    ensures BackfillEntry(f, chat, rec) == []
  {
    Crypto.NoIvNoAudio(f, chat.privateKey, rec.encryptedAudio, rec.encryptedAesKey);
  }

  // ---------------------------------------------------------------------------
  // Typing debounce
  // ---------------------------------------------------------------------------

  /** `isTyping` and the deadline of the pending `typingTimeoutRef` timer, if any. */
  datatype Debounce = Debounce(isTyping: bool, deadline: Option<int>)

  /** A debounce state and the `is_typing` values announced on the way to it. */
  datatype Step = Step(state: Debounce, emitted: seq<bool>)

  const Idle: Debounce := Debounce(false, None)

  /** `handleTyping` at time `now`. */
  function KeyDown(d: Debounce, now: int): (r: Step)
    ensures r.state.isTyping && r.state.deadline == Some(now + TypingIdleMs)
    ensures r.emitted == [] <==> d.isTyping
    ensures !d.isTyping ==> r.emitted == [true]
    ensures forall k :: 0 <= k < |r.emitted| ==> r.emitted[k]
  {
    Step(Debounce(true, Some(now + TypingIdleMs)), if d.isTyping then [] else [true])
  }

  /** The clock reaches `now`: a timer due by then fires. */
  function Advance(d: Debounce, now: int): (r: Step)
    ensures r.emitted != [] <==> d.deadline.Some? && d.deadline.value <= now
    ensures r.emitted == [] ==> r.state == d
    ensures r.emitted != [] ==> r.emitted == [false] && r.state == Idle
  {
    if d.deadline.Some? && d.deadline.value <= now then Step(Idle, [false]) else Step(d, [])
  }

  /** Keystrokes at the times `ts`, each preceded by the timer firing if it is due. */
  function Keystrokes(d: Debounce, ts: seq<int>): (r: Step)
    ensures ts == [] ==> r == Step(d, [])
    ensures ts != [] ==> r.state == Debounce(true, Some(ts[|ts| - 1] + TypingIdleMs))
    decreases |ts|
  {
    if ts == [] then Step(d, [])
    else
      var a := Advance(d, ts[0]);
      var k := KeyDown(a.state, ts[0]);
      var rest := Keystrokes(k.state, ts[1..]);
      Step(rest.state, a.emitted + k.emitted + rest.emitted)
  }

  /** Keystrokes in time order, each less than the idle window after the one before. */
  predicate Burst(ts: seq<int>) {
    forall i :: 0 <= i < |ts| - 1 ==> ts[i] <= ts[i + 1] < ts[i] + TypingIdleMs
  }

  /** The `{type: "typing", is_typing}` frames announcing each emitted value, in order. */
  function TypingFrames(emitted: seq<bool>): (r: seq<OutFrame>)
    ensures |r| == |emitted|
    ensures forall k :: 0 <= k < |emitted| ==> r[k] == TypingOut(emitted[k])
  {
    if emitted == [] then [] else [TypingOut(emitted[0])] + TypingFrames(emitted[1..])
  }

  /** The keystrokes after the first of a burst form a burst, and the second follows the first closely. */
  lemma BurstTail(ts: seq<int>)
    requires Burst(ts) && |ts| > 1
    ensures Burst(ts[1..]) && ts[0] <= ts[1] < ts[0] + TypingIdleMs
    ensures ts[1..][0] == ts[1] && ts[1..][|ts[1..]| - 1] == ts[|ts| - 1]
  {
    forall i | 0 <= i < |ts[1..]| - 1
      ensures ts[1..][i] <= ts[1..][i + 1] < ts[1..][i] + TypingIdleMs
    {
      assert ts[1..][i] == ts[i + 1] && ts[1..][i + 1] == ts[i + 2];
    }
  }

  /** While typing, a burst that starts before the deadline announces nothing and moves the deadline. */
  lemma {:induction false} BurstWhileTyping(deadline: int, ts: seq<int>)
    requires Burst(ts) && ts != [] && ts[0] < deadline
    ensures Keystrokes(Debounce(true, Some(deadline)), ts) ==
            Step(Debounce(true, Some(ts[|ts| - 1] + TypingIdleMs)), [])
    decreases |ts|
  {
    if |ts| > 1 {
      BurstTail(ts);
      BurstWhileTyping(ts[0] + TypingIdleMs, ts[1..]);
    }
  }

  /** A burst from idle leaves the debounce typing, due 2000 ms after the last keystroke,
      having announced "typing" once. */
  lemma BurstFromIdle(ts: seq<int>)
    requires ts != [] && Burst(ts)
    ensures Keystrokes(Idle, ts) == Step(Debounce(true, Some(ts[|ts| - 1] + TypingIdleMs)), [true])
  {
    var first := Debounce(true, Some(ts[0] + TypingIdleMs));
    var last := Debounce(true, Some(ts[|ts| - 1] + TypingIdleMs));
    var tail := ts[1..];
    TailSettles(ts);
    assert Keystrokes(first, tail) == Step(last, []);
    assert Advance(Idle, ts[0]) == Step(Idle, []);
    assert KeyDown(Idle, ts[0]) == Step(first, [true]);
    assert Keystrokes(Idle, ts) == Step(last, [] + [true] + []);
  }

  /** After the first keystroke of a burst, the rest of it announces nothing. */
  lemma TailSettles(ts: seq<int>)
    requires ts != [] && Burst(ts)
    ensures Keystrokes(Debounce(true, Some(ts[0] + TypingIdleMs)), ts[1..])
            == Step(Debounce(true, Some(ts[|ts| - 1] + TypingIdleMs)), [])
  {
    if |ts| > 1 {
      BurstTail(ts);
      BurstWhileTyping(ts[0] + TypingIdleMs, ts[1..]);
    } else {
      assert ts[1..] == [];
    }
  }

  /**
   * A burst of keystrokes from idle announces "typing" exactly once; nothing more happens
   * until the idle window after the last keystroke, when "stopped" is announced once and
   * the debounce is idle again.
   */
  lemma BurstAnnouncesOnce(ts: seq<int>)
    requires ts != [] && Burst(ts)
    ensures Keystrokes(Idle, ts).emitted == [true]
    ensures forall t :: t < ts[|ts| - 1] + TypingIdleMs ==> Advance(Keystrokes(Idle, ts).state, t).emitted == []
    ensures Advance(Keystrokes(Idle, ts).state, ts[|ts| - 1] + TypingIdleMs) == Step(Idle, [false])
  {
    BurstFromIdle(ts);
  }

  /** A pause of the idle window or longer ends the burst: typing, stopped, typing again. */
  lemma PauseEndsBurst(t: int, gap: int)
    requires gap >= TypingIdleMs
    ensures Keystrokes(Idle, [t, t + gap]).emitted == [true, false, true]
  {
    var typing := Debounce(true, Some(t + TypingIdleMs));
    var again := Debounce(true, Some(t + gap + TypingIdleMs));
    assert [t, t + gap][1..] == [t + gap];
    assert [t + gap][1..] == [];
    assert Advance(Idle, t) == Step(Idle, []);
    assert KeyDown(Idle, t) == Step(typing, [true]);
    assert Advance(typing, t + gap) == Step(Idle, [false]);
    assert KeyDown(Idle, t + gap) == Step(again, [true]);
    assert Keystrokes(again, []) == Step(again, []);
    assert Keystrokes(typing, [t + gap]) == Step(again, [false] + [true] + []);
  }

  // ---------------------------------------------------------------------------
  // Transcription toggle
  // ---------------------------------------------------------------------------

  /** `transcription[messageId]` is truthy. */
  predicate HasTranscript(t: map<Id, string>, id: Id) {
    id in t && t[id] != ""
  }

  // ---------------------------------------------------------------------------
  // The window
  // ---------------------------------------------------------------------------

  class ChatWindow {
    const store: CS.ChatStore
    const forge: Crypto.Forge

    var messageReactions: map<Id, Option<string>>
    var newMessage: string
    var isTyping: bool
    var otherUserTyping: string
    var typingTimeout: Option<int>      // deadline of the pending timer on the abstract clock
    var transcription: map<Id, string>
    var isTranscribing: map<Id, bool>
    var socket: Option<Socket>
    var sent: seq<OutFrame>             // frames the server has received, in order
    var requests: seq<Request>          // HTTP requests issued, in order
    var notices: seq<Notice>            // toasts raised, in order

    function CurrentView(): View
      reads this, store
    {
      View(store.messages, messageReactions, otherUserTyping, notices)
    }

    function Typing(): Debounce
      reads this
    {
      Debounce(isTyping, typingTimeout)
    }

    /** The window's state on first render. */
    constructor (store: CS.ChatStore, forge: Crypto.Forge)
      ensures this.store == store && this.forge == forge
      ensures messageReactions == map[] && newMessage == "" && Typing() == Idle && otherUserTyping == ""
      ensures transcription == map[] && isTranscribing == map[] && socket == None
      ensures sent == [] && requests == [] && notices == []
    {
      this.store := store;
      this.forge := forge;
      messageReactions := map[];
      newMessage := "";
      isTyping := false;
      otherUserTyping := "";
      typingTimeout := None;
      transcription := map[];
      isTranscribing := map[];
      socket := None;
      sent := [];
      requests := [];
      notices := [];
    }

    /** `socketRef.current.send(frame)`; reports whether it threw. */
    method Send(frame: OutFrame) returns (threw: bool)
      modifies this`sent
      ensures sent == Deliver(socket, old(sent), [frame])
      ensures threw == SendThrows(socket)
    {
      threw := SendThrows(socket);
      if socket.Some? && socket.value.readyState == Open {
        sent := sent + [frame];
      }
    }

    /** The browser reports the socket open. */
    method SocketOpened()
      requires socket.Some? && socket.value.readyState == Connecting
      modifies this`socket
      ensures socket == Some(old(socket).value.(readyState := Open))
    {
      socket := Some(socket.value.(readyState := Open));
    }

    /** The browser reports the socket closed. */
    method SocketClosed()
      requires socket.Some?
      modifies this`socket
      ensures socket == Some(old(socket).value.(readyState := Closed))
    {
      socket := Some(socket.value.(readyState := Closed));
    }

    /** The composer's `onChange`. */
    method SetNewMessage(text: string)
      modifies this`newMessage
      ensures newMessage == text
    {
      newMessage := text;
    }

    /**
     * `handleReaction`: on an open socket, sends the toggled reaction for the message;
     * the local map waits for the server's echo.
     */
    method HandleReaction(messageId: Id, reaction: string)
      modifies this`sent
      ensures socket.Some? && socket.value.readyState == Open ==>
        sent == old(sent) + [ReactionOut(messageId, ToggledReaction(Lookup(messageReactions, messageId), reaction))]
      ensures !(socket.Some? && socket.value.readyState == Open) ==> sent == old(sent)
    {
      if socket.Some? && socket.value.readyState == Open {
        var current := Lookup(messageReactions, messageId);
        var _ := Send(ReactionOut(messageId, ToggledReaction(current, reaction)));
      }
    }

    /**
     * The effect that runs when the selected chat changes. The previous run's cleanup
     * closes the socket; then, with a chat selected, the message list is cleared, the
     * history is requested and a new socket starts connecting for that chat.
     */
    method SelectionChanged()
      modifies this`socket, this`requests, store`messages
      ensures store.currentChat.Some? ==>
        && store.messages == []
        && requests == old(requests) + [HistoryRequest(store.currentChat.value.chatId)]
        && socket == Some(Socket(store.currentChat.value, Connecting))
      ensures store.currentChat.None? ==>
        && store.messages == old(store.messages)
        && requests == old(requests)
        && socket == (if old(socket).Some? && old(socket).value.readyState < Closing
                      then Some(old(socket).value.(readyState := Closing)) else old(socket))
    {
      if socket.Some? && socket.value.readyState < Closing {
        socket := Some(socket.value.(readyState := Closing));
      }
      if store.currentChat.Some? {
        var chat := store.currentChat.value;
        store.ClearMessages();
        requests := requests + [HistoryRequest(chat.chatId)];
        socket := Some(Socket(chat, Connecting));
      }
    }

    /**
     * The history response for `chat` arrives: records are appended in response order
     * (audio, else text, failures skipped), then the reaction map is replaced by the
     * records' truthy reactions.
     */
    method HistoryArrived(chat: CS.Chat, records: seq<HistoryRecord>)
      modifies this`messageReactions, store`messages
      ensures store.messages == old(store.messages) + Backfill(forge, chat, records)
      ensures messageReactions == HistoryReactions(records)
    {
      var reactions: map<Id, Option<string>> := map[];
      for i := 0 to |records|
        invariant reactions == HistoryReactions(records[..i])
        invariant store.messages == old(store.messages) + Backfill(forge, chat, records[..i])
      {
        var message := records[i];
        BackfillStep(forge, chat, records, i);
        assert records[..i + 1][..i] == records[..i];
        if message.reaction != "" {
          reactions := reactions[message.id := Some(message.reaction)];
        }
        if message.encryptedAudio != "" && message.encryptedAesKey != "" {
          var u8 := Crypto.DecryptAudio(forge, chat.privateKey, message.encryptedAudio, message.encryptedAesKey, None);
          if u8.Ok? {
            store.AddMessage(CS.Message(message.id, message.sender, "", Some(CS.ObjectUrl(u8.value[..])), None));
          }
        } else if message.text != "" {
          var plaintext := Crypto.DecryptText(forge, chat.privateKey, message.text);
          if plaintext.Ok? {
            store.AddMessage(CS.Message(message.id, message.sender, plaintext.value, None, message.timestamp));
          }
        }
      }
      assert records[..|records|] == records;
      messageReactions := reactions;
    }

    /** The socket's `onmessage` handler. */
    method OnFrame(data: Frame)
      requires socket.Some?
      modifies this`otherUserTyping, this`messageReactions, this`notices, store`messages
      ensures CurrentView() == Dispatch(forge, socket.value.chat, old(CurrentView()), data)
    {
      var chat := socket.value.chat;
      if data.kind == "message" {
        var plaintext := Crypto.DecryptText(forge, chat.privateKey, data.text);
        if plaintext.Ok? {
          store.AddMessage(CS.Message(data.id, data.sender, plaintext.value, None, None));
        }
      } else if data.kind == "typing" {
        if data.sender != chat.currentUser {
          otherUserTyping := TypingIndicator(data.sender, data.isTyping);
        }
      } else if data.kind == "voice_message" {
        var u8 := Crypto.DecryptAudio(forge, chat.privateKey, data.encryptedAudio, data.encryptedAesKey, None);
        if u8.Ok? {
          store.AddMessage(CS.Message(data.id, data.sender, "", Some(CS.ObjectUrl(u8.value[..])), None));
        }
      } else if data.kind == "delete" {
        store.DeleteMessage(data.id);
        notices := notices + [DeleteNotice(chat, data.sender)];
      } else if data.kind == "reaction" {
        messageReactions := messageReactions[data.messageId := data.reaction];
      }
    }

    /**
     * `handleTyping` at time `now`: announces "typing" unless already typing and restarts
     * the timer. If that send throws (socket still connecting) the flag is already set
     * and the timer is left as it was.
     */
    method HandleTyping(now: int) returns (outcome: Outcome)
      modifies this`isTyping, this`typingTimeout, this`sent
      ensures old(isTyping) || !SendThrows(socket) ==>
        && outcome == Done
        && Typing() == KeyDown(old(Typing()), now).state
        && sent == Deliver(socket, old(sent), TypingFrames(KeyDown(old(Typing()), now).emitted))
      ensures !old(isTyping) && SendThrows(socket) ==>
        outcome == Threw && isTyping && typingTimeout == old(typingTimeout) && sent == old(sent)
    {
      if !isTyping {
        isTyping := true;
        var threw := Send(TypingOut(true));
        if threw {
          return Threw;
        }
      }
      typingTimeout := Some(now + TypingIdleMs);
      outcome := Done;
    }

    /** The abstract clock reaches `now`; the typing timer fires if it is due. */
    method AdvanceClock(now: int) returns (outcome: Outcome)
      modifies this`isTyping, this`typingTimeout, this`sent
      ensures Typing() == Advance(old(Typing()), now).state
      ensures sent == Deliver(socket, old(sent), TypingFrames(Advance(old(Typing()), now).emitted))
      ensures outcome == Threw <==> Advance(old(Typing()), now).emitted != [] && SendThrows(socket)
    {
      outcome := Done;
      if typingTimeout.Some? && typingTimeout.value <= now {
        isTyping := false;
        typingTimeout := None;
        var threw := Send(TypingOut(false));
        if threw {
          outcome := Threw;
        }
      }
    }

    /**
     * `sendMessage`: with a socket and a composer that is not blank, encrypts the composer
     * text for the selected chat, sends it and clears the composer. A missing chat, a key
     * that does not parse or a socket still connecting throws before the composer clears.
     */
    method SendMessage() returns (outcome: Outcome)
      modifies this`sent, this`newMessage
      ensures socket.None? || IsBlank(old(newMessage)) ==>
        outcome == Done && sent == old(sent) && newMessage == old(newMessage)
      ensures socket.Some? && !IsBlank(old(newMessage)) ==>
        if store.currentChat.None? || SendThrows(socket)
           || Crypto.EncryptText(forge, store.currentChat.value.publicKey, old(newMessage)).Err?
        then outcome == Threw && sent == old(sent) && newMessage == old(newMessage)
        else
          var chat := store.currentChat.value;
          var ciphertext := Crypto.EncryptText(forge, chat.publicKey, old(newMessage)).value;
          && outcome == Done && newMessage == ""
          && sent == Deliver(socket, old(sent), [MessageOut(ciphertext, Recipient(chat))])
    {
      outcome := Done;
      if socket.Some? && !IsBlank(newMessage) {
        if store.currentChat.None? {
          return Threw;
        }
        var chat := store.currentChat.value;
        var ciphertext := Crypto.EncryptText(forge, chat.publicKey, newMessage);
        if ciphertext.Err? {
          return Threw;
        }
        var threw := Send(MessageOut(ciphertext.value, Recipient(chat)));
        if threw {
          return Threw;
        }
        newMessage := "";
      }
    }

    /** `handleDeleteMessage`: asks the server to delete a message in our name. */
    method HandleDeleteMessage(messageId: Id) returns (outcome: Outcome)
      modifies this`sent
      ensures socket.None? ==> outcome == Done && sent == old(sent)
      ensures socket.Some? && store.currentChat.None? ==> outcome == Threw && sent == old(sent)
      ensures socket.Some? && store.currentChat.Some? ==>
        && sent == Deliver(socket, old(sent), [DeleteOut(messageId, store.currentChat.value.currentUserId)])
        && (outcome == Threw <==> SendThrows(socket))
    {
      outcome := Done;
      if socket.Some? {
        if store.currentChat.None? {
          return Threw;
        }
        var threw := Send(DeleteOut(messageId, store.currentChat.value.currentUserId));
        if threw {
          outcome := Threw;
        }
      }
    }

    /**
     * `sendVoiceMessage` with its file read completed: encrypts the recording with a fresh
     * session key and IV and sends a "voice" frame carrying the audio and the wrapped key
     * but not the IV.
     */
    method SendVoiceMessage(recording: Option<array<Crypto.byte>>, aesKey: string, iv: string)
      returns (outcome: Outcome)
      requires |aesKey| == Crypto.SessionKeySize && |iv| == Crypto.BlockSize
      modifies this`sent
      ensures recording.None? ==> outcome == Done && sent == old(sent)
      ensures recording.Some? && store.currentChat.Some? ==>
        var chat := store.currentChat.value;
        var env := Crypto.EncryptedAudio(forge, chat.publicKey, recording.value[..], aesKey, iv);
        && (env.Err? ==> outcome == Threw && sent == old(sent))
        && (env.Ok? ==> sent == Deliver(socket, old(sent),
              [VoiceOut(env.value.encryptedAudio, env.value.encryptedAesKey, chat.currentUserId, Recipient(chat))]))
        && (env.Ok? ==> (outcome == Threw <==> SendThrows(socket)))
      ensures recording.Some? && store.currentChat.None? ==> outcome == Threw && sent == old(sent)
    {
      outcome := Done;
      if recording.None? {
        return;
      }
      if store.currentChat.None? {
        return Threw;
      }
      var chat := store.currentChat.value;
      var enc := Crypto.EncryptAudio(forge, chat.publicKey, recording.value, aesKey, iv);
      if enc.Err? {
        return Threw;
      }
      var threw := Send(VoiceOut(enc.value.encryptedAudio, enc.value.encryptedAesKey, chat.currentUserId, Recipient(chat)));
      if threw {
        outcome := Threw;
      }
    }

    /**
     * `handleTranscribe`: a message with a transcript loses it (that key only) and no
     * request starts; otherwise the message is marked in progress and the audio is sent
     * for transcription.
     */
    method HandleTranscribe(messageId: Id, audioUrl: CS.VoiceUrl)
      modifies this`transcription, this`isTranscribing, this`requests
      ensures HasTranscript(old(transcription), messageId) ==>
        && transcription == old(transcription) - {messageId}
        && isTranscribing == old(isTranscribing) && requests == old(requests)
      ensures !HasTranscript(old(transcription), messageId) ==>
        && transcription == old(transcription)
        && isTranscribing == old(isTranscribing)[messageId := true]
        && requests == old(requests) + [TranscribeRequest(messageId, audioUrl)]
    {
      if HasTranscript(transcription, messageId) {
        transcription := transcription - {messageId};
        return;
      }
      isTranscribing := isTranscribing[messageId := true];
      requests := requests + [TranscribeRequest(messageId, audioUrl)];
    }

    /** The transcription response arrives: stored under the message id. */
    method TranscriptArrived(messageId: Id, text: string)
      modifies this`transcription, this`isTranscribing
      ensures transcription == old(transcription)[messageId := text]
      ensures isTranscribing == old(isTranscribing)[messageId := false]
    {
      transcription := transcription[messageId := text];
      isTranscribing := isTranscribing[messageId := false];
    }

    /** Fetching the audio for transcription fails: a toast, and the message is no longer in progress. */
    method TranscribeFetchFailed(messageId: Id)
      modifies this`notices, this`isTranscribing
      ensures notices == old(notices) + [TranscribeFailedNotice]
      ensures isTranscribing == old(isTranscribing)[messageId := false]
    {
      notices := notices + [TranscribeFailedNotice];
      isTranscribing := isTranscribing[messageId := false];
    }
  }
}
