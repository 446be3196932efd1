/**
 * The conversation store (src/store/chatStore.js): the selected chat, the chat list and
 * the ordered message list of the selected chat. Each setter replaces one field.
 */
module ChatStore {
  import opened Wrappers
  import Crypto

  type Id = int

  /** A `blob:` URL minted for decrypted audio; it stands for the bytes it serves. */
  datatype VoiceUrl = ObjectUrl(audio: seq<Crypto.byte>)

  /**
   * A message as the chat window stores it: `{id, text, sender}` from a live text frame,
   * `{id, voice_url, sender, text: ""}` for audio, and the history record with its text
   * replaced for backfilled text (which keeps the record's `timestamp`).
   */
  datatype Message = Message(id: Id, sender: string, text: string, voiceUrl: Option<VoiceUrl>,
                             timestamp: Option<string>)

  /** A conversation record as the server hands it over, with the key pair for the chat. */
  datatype Chat = Chat(chatId: int, publicKey: string, privateKey: string, currentUser: string,
                       currentUserId: string, participants: seq<string>)

  /** `messages.filter((message) => message.id !== messageId)`. */
  function Without(ms: seq<Message>, id: Id): (r: seq<Message>)
    ensures |r| <= |ms|
    ensures forall m :: m in r <==> m in ms && m.id != id
  {
    if ms == [] then []
    else (if ms[0].id == id then [] else [ms[0]]) + Without(ms[1..], id)
  }

  /** The number of messages carrying a given id. */
  function CountId(ms: seq<Message>, id: Id): nat {
    if ms == [] then 0 else (if ms[0].id == id then 1 else 0) + CountId(ms[1..], id)
  }

  /**
   * Removal works message by message and keeps the survivors in their original order:
   * it distributes over concatenation.
   */
  lemma {:induction false} WithoutAppend(a: seq<Message>, b: seq<Message>, id: Id)
    ensures Without(a + b, id) == Without(a, id) + Without(b, id)
  {
    if a == [] {
      assert a + b == b;
    } else {
      assert (a + b)[1..] == a[1..] + b;
      WithoutAppend(a[1..], b, id);
    }
  }

  /** Removing an id that no message carries changes nothing. */
  lemma {:induction false} WithoutAbsent(ms: seq<Message>, id: Id)
    requires forall k :: 0 <= k < |ms| ==> ms[k].id != id
    ensures Without(ms, id) == ms
  {
    if ms != [] {
      WithoutAbsent(ms[1..], id);
    }
  }

  /** Removing the same id twice is removing it once. */
  lemma WithoutIdempotent(ms: seq<Message>, id: Id)
    ensures Without(Without(ms, id), id) == Without(ms, id)
  {
    var r := Without(ms, id);
    forall k | 0 <= k < |r|
      ensures r[k].id != id
    {
      assert r[k] in r;
    }
    WithoutAbsent(r, id);
  }

  lemma {:induction false} CountAppend(a: seq<Message>, b: seq<Message>, id: Id)
    ensures CountId(a + b, id) == CountId(a, id) + CountId(b, id)
  {
    if a == [] {
      assert a + b == b;
    } else {
      assert (a + b)[1..] == a[1..] + b;
      CountAppend(a[1..], b, id);
    }
  }

  lemma {:induction false} CountPositive(ms: seq<Message>, id: Id, k: nat)
    requires k < |ms| && ms[k].id == id
    ensures CountId(ms, id) >= 1
  {
    if k > 0 {
      CountPositive(ms[1..], id, k - 1);
    }
  }

  /**
   * Appending has no id check: appending a message whose id is already present leaves
   * two messages with that id.
   */
  lemma AppendDuplicate(ms: seq<Message>, m: Message)
    requires exists k :: 0 <= k < |ms| && ms[k].id == m.id
    ensures CountId(ms + [m], m.id) == CountId(ms, m.id) + 1 >= 2
  {
    var k :| 0 <= k < |ms| && ms[k].id == m.id;
    CountPositive(ms, m.id, k);
    CountAppend(ms, [m], m.id);
    assert CountId([m], m.id) == 1;
  }

  class ChatStore {
    var currentChat: Option<Chat>
    var chats: seq<Chat>
    var messages: seq<Message>

    /** The store's initial state. */
    constructor ()
      ensures currentChat == None && chats == [] && messages == []
    {
      currentChat := None;
      chats := [];
      messages := [];
    }

    /** `setCurrentChat`: only the selected chat changes. */
    method SetCurrentChat(chat: Option<Chat>)
      modifies this`currentChat
      ensures currentChat == chat
    {
      currentChat := chat;
    }

    /** `setChats`: only the chat list changes. */
    method SetChats(cs: seq<Chat>)
      modifies this`chats
      ensures chats == cs
    {
      chats := cs;
    }

    /** `deleteMessage`: every message with that id goes, the others stay in order. */
    method DeleteMessage(messageId: Id)
      modifies this`messages
      ensures messages == Without(old(messages), messageId)
    {
      messages := Without(messages, messageId);
    }

    /** `addVoiceMessage`: the same append as `addMessage`. */
    method AddVoiceMessage(message: Message)
      modifies this`messages
      ensures messages == old(messages) + [message]
    {
      messages := messages + [message];
    }

    /** `addMessage`: appends at the end, without looking at ids. */
    method AddMessage(message: Message)
      modifies this`messages
      ensures messages == old(messages) + [message]
      ensures |messages| == |old(messages)| + 1 && messages[..|old(messages)|] == old(messages)
    {
      messages := messages + [message];
    }

    /** `clearMessages`: the empty list, whatever was there. */
    method ClearMessages()
      modifies this`messages
      ensures messages == []
    {
      messages := [];
    }
  }
}
