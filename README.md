# We-chat frontend: envelopes, stores and chat-window handlers in Dafny

This project models the client-side core of the We-chat messaging frontend:

- **Text and audio envelopes** (`crypto.dfy`, module `Crypto`).
  - Text is cut into 190-character chunks. Each chunk is RSA-OAEP encrypted (SHA-1, MGF1, section 7.1 of RFC 8017), then base64 encoded. The pieces are joined with `||`. Decryption splits on `||`, drops empty pieces, decrypts each one and concatenates the results.
  - Audio is zero padded to whole 16-byte blocks and AES-CBC encrypted under a random session key. The session key is RSA-OAEP encrypted. Decryption strips trailing NUL bytes.
  - The node-forge primitives are function-valued fields of a `Forge` value. Their internals are not modelled, and the field types fix two things about them:
    - PEM parsing, OAEP decryption, AES decryption and `decode64(undefined)` may fail, through a flag or an `Option` result;
    - OAEP encryption, AES encryption, `encode64` and `decode64` of a string are total and deterministic (see "Left out").

    What the envelope code relies on them for beyond that is the hypothesis `Sound`. For a matching key pair it states:
    - both PEM texts parse;
    - OAEP decryption undoes encryption for binary strings of at most one chunk;
    - OAEP and AES-CBC ciphertexts are binary strings;
    - base64 decoding undoes encoding for binary strings (forge's `encode64` reads each character as one byte, so it is one-to-one only on those);
    - base64 output never contains `|`;
    - the base64 of an OAEP ciphertext is never empty;
    - AES-CBC decryption undoes encryption of a binary string under the same key and IV.

    `Crypto.SoundSatisfiable` exhibits a stand-in library and key pair that meet every clause, so the lemmas that assume `Sound` are not vacuous.
  - The byte/binary-string conversions, the chunking loop and the zero-strip loop are methods proved against specification functions.
- **The conversation store** (`chat_store.dfy`, class `ChatStore.ChatStore`). It holds the selected chat, the chat list and the ordered message list. It supports append, remove-by-id and clear.
- **The authentication store** (`auth_store.dfy`, class `AuthStore.AuthStore`). Three fields are overwritten by `setAuth` and reset by `logout`.
- **The chat window's handlers** (`chat_window.dfy`, class `ChatWindow.ChatWindow`). These are:
  - the inbound-frame dispatch;
  - the reaction toggle;
  - the typing debounce, on an abstract clock;
  - the transcription toggle;
  - chat selection with history backfill;
  - the outbound sends.

  The handlers for inbound data, the clock and reactions are methods whose postcondition ties the new state to a pure function:
  - `OnFrame` to `Dispatch`;
  - `HandleTyping` and `AdvanceClock` to `KeyDown` and `Advance`;
  - `HistoryArrived` to `Backfill` and `HistoryReactions`;
  - `HandleReaction` to `ToggledReaction`.

  The lemmas state the window's behaviour over those functions. The other handlers (`SendMessage`, `HandleDeleteMessage`, `SendVoiceMessage`, `HandleTranscribe`, `TranscriptArrived` and `TranscribeFetchFailed`) state their new state, and the frames or requests they issue, directly in their postconditions.

Exceptions are modelled as follows:
- An exception that the source catches and logs becomes a skipped step. An example is a history record that fails to decrypt.
- An exception that escapes a handler becomes the `Threw` outcome. The state changes made before the throw are kept.

WebSocket `send` is modelled as:
- throws on a null socket or one still connecting;
- delivers on an open socket;
- silently drops the frame on a closing or closed one.

The frames the server has received are the `sent` log.

## Model

| member | source | states |
|---|---|---|
| Crypto.Latin1 | src/utils/crypto.js:16 | the binary string of a byte sequence has one character per byte, each below 256 |
| Crypto.LowBytes | src/utils/crypto.js:24 | `charCodeAt(i) & 0xff` keeps the length of the string |
| Crypto.U8ToBinary | src/utils/crypto.js:11-19 | the string built 0x8000 bytes at a time is the binary string of the whole array |
| Crypto.BinaryToU8 | src/utils/crypto.js:21-27 | a fresh array of the same length holding the low byte of each character |
| Crypto.BytesRoundTrip | src/utils/crypto.js:11-27 | `binaryToU8(u8ToBinary(u)) == u` for every byte sequence |
| Crypto.BinaryRoundTrip | src/utils/crypto.js:11-27 | the reverse round trip holds for every binary string |
| Crypto.Chunks | src/utils/crypto.js:3-9 | no more chunks than characters, and no chunks exactly when the input is empty |
| Crypto.ChunksSpec | src/utils/crypto.js:3-9 | the chunks concatenate back to the input; each is non-empty and at most `size` long; all but the last are exactly `size` |
| Crypto.ChunksEmpty | src/utils/crypto.js:3-9 | no chunks exactly when the input is empty |
| Crypto.ChunksBinary | src/utils/crypto.js:3-9 | chunks of a binary string are binary strings |
| Crypto.ChunkString | src/utils/crypto.js:3-9 | the push loop produces exactly the chunks above |
| Crypto.ChunksUnfold | src/utils/crypto.js:5-6 | the first chunk of a non-empty string is its first `size` characters, or all of it |
| Crypto.ChunksStep | src/utils/crypto.js:5-7 | one loop turn pushes the next chunk of the input |
| Crypto.Concat | src/utils/crypto.js:54 | `join('')` starts with the first piece and is empty exactly when every piece is |
| Crypto.ConcatAppend | src/utils/crypto.js:54 | `join('')` distributes over concatenation |
| Crypto.SoundSatisfiable | src/utils/crypto.js:29-117 | the library hypothesis the envelope lemmas assume is met by some library and key pair |
| Crypto.SoundAllowsWideCollision | src/utils/crypto.js:37 | the hypothesis still admits a base64 encoder that, like forge's `encode64`, gives U+0400 and U+0800 the same text, so it asks nothing of characters above U+00FF |
| Crypto.EncryptChunkInverse | src/utils/crypto.js:32-37 | under the library hypothesis one chunk's piece decodes and OAEP-decrypts back to the chunk, and is non-empty and free of pipes |
| Crypto.EncryptChunks | src/utils/crypto.js:32-38 | one encrypted piece per chunk, the k-th being the base64 OAEP encryption of the k-th chunk |
| Crypto.Split | src/utils/crypto.js:45 | splitting on the double-pipe separator always yields at least one piece |
| Crypto.JoinPipes | src/utils/crypto.js:39 | the double-pipe join starts with the first piece, then the separator when more pieces follow |
| Crypto.JoinSplit | src/utils/crypto.js:39-45 | joining the pieces of any split with the separator rebuilds the text, so the split loses and adds nothing |
| Crypto.NonEmpty | src/utils/crypto.js:45 | `filter(Boolean)` keeps exactly the non-empty pieces of its input |
| Crypto.NonEmptyAppend | src/utils/crypto.js:45 | filtering distributes over concatenation, so the kept pieces stay in their original order |
| Crypto.DecryptPieces | src/utils/crypto.js:45-54 | no pieces decrypt to `''`, and the only way the piece loop throws is an OAEP failure |
| Crypto.EncryptText | src/utils/crypto.js:29-40 | succeeds exactly when the public key parses; empty plaintext gives `''` |
| Crypto.DecryptText | src/utils/crypto.js:42-55 | a falsy ciphertext gives `''` without parsing the key; otherwise a bad key throws |
| Crypto.DecryptPiecesFailure | src/utils/crypto.js:45-54 | decryption throws exactly when some non-empty piece fails OAEP decryption |
| Crypto.DecryptPiecesValue | src/utils/crypto.js:45-54 | a successful decryption is the in-order concatenation of the pieces' plaintexts |
| Crypto.SplitNoPipe | src/utils/crypto.js:45 | a string without a pipe character splits into itself |
| Crypto.SplitAfter | src/utils/crypto.js:39-45 | `p`, the separator, then `rest`, with `p` free of pipes, splits into `p` followed by the pieces of `rest` |
| Crypto.SplitJoin | src/utils/crypto.js:39-45 | split-and-filter undoes the double-pipe join for non-empty pieces free of pipes |
| Crypto.EncryptedPiecesWellFormed | src/utils/crypto.js:32-39 | under the library hypothesis every encrypted piece is non-empty and free of pipes |
| Crypto.DecryptEncryptedChunks | src/utils/crypto.js:32-54 | decrypting the encrypted binary chunks gives their concatenation |
| Crypto.EncryptTextPieces | src/utils/crypto.js:29-40 | the ciphertext splits and filters back into exactly one piece per chunk, in chunk order |
| Crypto.JoinPipesNonEmpty | src/utils/crypto.js:39 | a join whose first piece is non-empty is truthy |
| Crypto.TextRoundTrip | src/utils/crypto.js:29-55 | `decryptText(priv, encryptText(pub, P)) == P` for every binary P, including empty input and exact multiples of 190 |
| Crypto.PadLen | src/utils/crypto.js:66-67 | the pad is 1 to 16 bytes, makes the length a multiple of 16, and is 16 exactly when the length already is one |
| Crypto.Zeros | src/utils/crypto.js:68-70 | the zero-initialised tail of the padded array |
| Crypto.Pad | src/utils/crypto.js:65-70 | the padded audio is a whole number of blocks, starts with the input and ends in 1 to 16 zeros |
| Crypto.StripZeros | src/utils/crypto.js:110-115 | the result is a prefix that is empty or ends in a non-NUL character, and everything after it is NUL |
| Crypto.StripZerosUnique | src/utils/crypto.js:110-115 | those properties determine the strip: it is the longest such prefix |
| Crypto.RecoveredPrefix | src/utils/crypto.js:65-116 | padding then stripping keeps the longest prefix of the audio that is empty or ends in a non-zero byte |
| Crypto.RecoveredExact | src/utils/crypto.js:65-116 | audio that is empty or ends in a non-zero byte survives padding and stripping |
| Crypto.TrailingZeroLost | src/utils/crypto.js:110-116 | trailing zero bytes are lost: `[7, 0]` comes back as `[7]` |
| Crypto.EncryptedAudio | src/utils/crypto.js:57-90 | the envelope exists exactly when the public key parses |
| Crypto.EncryptAudio | src/utils/crypto.js:57-90 | writes the padded array and returns the envelope above, with the random 32-byte key and 16-byte IV as arguments |
| Crypto.DecryptedAudio | src/utils/crypto.js:92-117 | a private key that does not parse throws before anything else |
| Crypto.StripPadding | src/utils/crypto.js:111-115 | moving `end` back over trailing NULs yields exactly the strip above |
| Crypto.DecryptAudio | src/utils/crypto.js:92-117 | throws with the same error, or returns a fresh array holding the decrypted audio with its trailing zeros stripped |
| Crypto.AesFailureThrows | src/utils/crypto.js:98-107 | an undecryptable session key or a failed AES `finish` throws; any success implies the key parsed |
| Crypto.AudioRoundTrip | src/utils/crypto.js:57-117 | for the 32-byte binary key and 16-byte binary IV that `getBytesSync` draws, with the IV supplied, decryption returns the padded-then-stripped audio, which is the audio itself when it is empty or ends in a non-zero byte |
| Crypto.NoIvNoAudio | src/utils/crypto.js:96 | leaving the IV out never yields audio when `decode64(undefined)` throws |
| ChatStore.Without | src/store/chatStore.js:19 | exactly the messages whose id differs remain, and the list does not grow |
| ChatStore.WithoutAppend | src/store/chatStore.js:19 | removal distributes over concatenation, so survivors keep their relative order |
| ChatStore.WithoutAbsent | src/store/chatStore.js:19 | removing an id no message carries changes nothing |
| ChatStore.WithoutIdempotent | src/store/chatStore.js:19 | removing an id twice is removing it once |
| ChatStore.CountAppend | src/store/chatStore.js:22 | the number of messages with an id adds up over concatenation |
| ChatStore.CountPositive | src/store/chatStore.js:22 | a list holding a message with an id counts it at least once |
| ChatStore.AppendDuplicate | src/store/chatStore.js:22 | appending an already-present id leaves two or more messages with that id |
| ChatStore.ChatStore.constructor | src/store/chatStore.js:5-7 | no chat selected, no chats, no messages |
| ChatStore.ChatStore.SetCurrentChat | src/store/chatStore.js:17 | only the selected chat changes |
| ChatStore.ChatStore.SetChats | src/store/chatStore.js:18 | only the chat list changes |
| ChatStore.ChatStore.DeleteMessage | src/store/chatStore.js:19 | only the message list changes, to its filter by id |
| ChatStore.ChatStore.AddVoiceMessage | src/store/chatStore.js:21 | the same append as `addMessage` |
| ChatStore.ChatStore.AddMessage | src/store/chatStore.js:22 | appends at the end, keeping the earlier messages and growing the length by one |
| ChatStore.ChatStore.ClearMessages | src/store/chatStore.js:23 | the empty list, whatever was there |
| AuthStore.SetAuthOverwrites | src/store/authStore.js:10-11 | `isAuthenticated` is `!!data.access` even from an authenticated state; token and user are stored verbatim; the previous state plays no part |
| AuthStore.LogoutResets | src/store/authStore.js:10-12 | logout resets from any state, is idempotent, and a login after it equals a login from the initial state |
| AuthStore.AuthStore.constructor | src/store/authStore.js:7-9 | not authenticated, no token, no user |
| AuthStore.AuthStore.SetAuth | src/store/authStore.js:10-11 | all three fields are overwritten from the response; authenticated exactly when the token is truthy |
| AuthStore.AuthStore.Logout | src/store/authStore.js:12 | all three fields return to their initial values |
| ChatWindow.TrimStart | src/components/Chat/ChatWindow.jsx:257 | the leading-whitespace strip of `trim()`: a suffix, everything removed is whitespace, and what is left is empty or starts with a non-whitespace character |
| ChatWindow.TrimEnd | src/components/Chat/ChatWindow.jsx:257 | the trailing-whitespace strip of `trim()`: a prefix, everything removed is whitespace, and what is left is empty or ends with a non-whitespace character |
| ChatWindow.Trim | src/components/Chat/ChatWindow.jsx:257 | `newMessage.trim()` is no longer than its input, is empty or neither starts nor ends with whitespace, and is empty exactly when every character is whitespace |
| ChatWindow.IsBlank | src/components/Chat/ChatWindow.jsx:257 | `newMessage.trim()` is falsy exactly when every character is whitespace |
| ChatWindow.Recipient | src/components/Chat/ChatWindow.jsx:232 | `currentChat.participants[1]`, undefined exactly when the chat has no second participant |
| ChatWindow.ToggledReaction | src/components/Chat/ChatWindow.jsx:59-63 | null exactly when the recorded reaction equals the chosen one, otherwise the chosen one |
| ChatWindow.ReactionToggleSequence | src/components/Chat/ChatWindow.jsx:56-66 | with the server echoing, reacting twice with the same symbol clears it, and another symbol then sets that one |
| ChatWindow.TypingIndicator | src/components/Chat/ChatWindow.jsx:117 | the indicator is `""` exactly when `is_typing` is false, and otherwise starts with the sender's name |
| ChatWindow.DeleteNotice | src/components/Chat/ChatWindow.jsx:133-138 | "deleted" exactly when the sender is `current_user_id`, "unsent" otherwise, never the transcription notice |
| ChatWindow.Dispatch | src/components/Chat/ChatWindow.jsx:105-146 | each part of the view changes only under its own frame types: messages under message, voice_message and delete; reactions under reaction; the indicator under typing; notices under delete |
| ChatWindow.MessageFrameAppends | src/components/Chat/ChatWindow.jsx:108-114 | a text frame appends exactly one `{id, text, sender}` entry when it decrypts and changes nothing otherwise |
| ChatWindow.VoiceFrameAppends | src/components/Chat/ChatWindow.jsx:120-130 | a voice frame appends exactly one `{id, voice_url, sender, text: ""}` entry when it decrypts, leaving reactions, indicator and notices alone, and changes nothing otherwise |
| ChatWindow.TypingFrameIndicator | src/components/Chat/ChatWindow.jsx:115-119 | a typing frame from `current_user` is ignored; any other sets the indicator to "<sender> is typing..." or `""` |
| ChatWindow.DeleteFrameRemoves | src/components/Chat/ChatWindow.jsx:131-139 | a delete frame removes every message with that id and raises exactly one notice: "deleted" for `current_user_id`, "unsent" otherwise |
| ChatWindow.ReactionFrameSets | src/components/Chat/ChatWindow.jsx:140-145 | a reaction frame sets that key to the frame's value, null included, and leaves every other key alone |
| ChatWindow.OtherFramesIgnored | src/components/Chat/ChatWindow.jsx:105-146 | frames of any other type change nothing |
| ChatWindow.SentVoiceKindIgnored | src/components/Chat/ChatWindow.jsx:227-233 | a frame carrying the type the window sends voice under (`voice`) is ignored on receipt |
| ChatWindow.IdentityFieldsDisagree | src/components/Chat/ChatWindow.jsx:115-139 | when `current_user` and `current_user_id` differ, the typing filter and the delete notice classify the same sender in opposite ways |
| ChatWindow.DeleteConverges | src/components/Chat/ChatWindow.jsx:131-139 | both participants applying one delete frame keep equal message lists; the sender sees "deleted", the peer "unsent" |
| ChatWindow.VoiceNeverShown | src/components/Chat/ChatWindow.jsx:120-130 | without the IV, no voice frame is ever shown when `decode64(undefined)` throws |
| ChatWindow.BackfillEntry | src/components/Chat/ChatWindow.jsx:80-97 | a record contributes at most one message, carrying its id and sender |
| ChatWindow.Backfill | src/components/Chat/ChatWindow.jsx:76-98 | every backfilled message is the entry of some record of the response |
| ChatWindow.ConcatMap | src/components/Chat/ChatWindow.jsx:76-98 | every message of the record-by-record append comes from some record's entry |
| ChatWindow.BackfillStep | src/components/Chat/ChatWindow.jsx:76-98 | one more loop turn appends that record's entry, if any, to the backfill so far |
| ChatWindow.ConcatMapAppend | src/components/Chat/ChatWindow.jsx:76-98 | appending record by record distributes over concatenation of the records |
| ChatWindow.BackfillAppend | src/components/Chat/ChatWindow.jsx:76-98 | backfill keeps response order: the messages of a response are those of its halves, in order |
| ChatWindow.BackfillFromRecords | src/components/Chat/ChatWindow.jsx:76-98 | at most one message per record, and every message comes from a record with its id and sender |
| ChatWindow.BackfillSkipsFailure | src/components/Chat/ChatWindow.jsx:80-97 | a record whose audio (both audio fields set) or text (otherwise) throws on decryption, or that has neither, adds no message, and the records around it still come through |
| ChatWindow.HistoryReactions | src/components/Chat/ChatWindow.jsx:75-79 | every value the backfill loop stores is a non-empty reaction, never null |
| ChatWindow.HistoryReactionsLatest | src/components/Chat/ChatWindow.jsx:75-79 | each id maps to the reaction of the last record with that id and a truthy reaction |
| ChatWindow.HistoryReactionsTruthy | src/components/Chat/ChatWindow.jsx:75-99 | the reaction map holds exactly the ids of records with a truthy reaction; each maps to the non-empty reaction of the last such record with that id |
| ChatWindow.HistoryVoiceNeverShown | src/components/Chat/ChatWindow.jsx:80-89 | history voice records are never shown when `decode64(undefined)` throws |
| ChatWindow.KeyDown | src/components/Chat/ChatWindow.jsx:241-253 | a keystroke sets the flag and moves the deadline to 2000 ms later; it announces exactly `[true]` when not typing and nothing when typing |
| ChatWindow.Advance | src/components/Chat/ChatWindow.jsx:249-252 | a timer due by then announces one `false` and returns to idle; otherwise nothing changes |
| ChatWindow.Keystrokes | src/components/Chat/ChatWindow.jsx:241-253 | after any non-empty sequence of keystrokes the flag is set and the timer is due 2000 ms after the last one; no keystrokes change nothing |
| ChatWindow.TypingFrames | src/components/Chat/ChatWindow.jsx:244-251 | one typing frame per announced value, carrying that value, in order |
| ChatWindow.BurstWhileTyping | src/components/Chat/ChatWindow.jsx:241-253 | while typing, a burst starting before the deadline announces nothing and moves the deadline to 2000 ms after its last keystroke |
| ChatWindow.BurstTail | src/components/Chat/ChatWindow.jsx:241-253 | the keystrokes after the first of a burst are a burst and follow it within 2000 ms |
| ChatWindow.TailSettles | src/components/Chat/ChatWindow.jsx:241-253 | after the first keystroke of a burst, the rest announce nothing |
| ChatWindow.BurstFromIdle | src/components/Chat/ChatWindow.jsx:241-253 | a burst from idle announces `true` once and leaves the timer due 2000 ms after its last keystroke |
| ChatWindow.BurstAnnouncesOnce | src/components/Chat/ChatWindow.jsx:241-253 | a burst with gaps under 2 s announces `true` once; nothing fires until 2000 ms after the last keystroke, when `false` is announced once and the flag resets |
| ChatWindow.PauseEndsBurst | src/components/Chat/ChatWindow.jsx:241-253 | a pause of 2 s or more yields `true`, `false`, `true` |
| ChatWindow.ChatWindow.constructor | src/components/Chat/ChatWindow.jsx:39-50 | the handlers' initial state: empty maps, empty composer, not typing, no socket |
| ChatWindow.ChatWindow.Send | src/components/Chat/ChatWindow.jsx:60 | `send` delivers on an open socket, drops on a closing or closed one, and throws on a null or connecting one |
| ChatWindow.ChatWindow.SocketOpened | src/components/Chat/ChatWindow.jsx:103 | stands for the browser moving the socket created here from CONNECTING to OPEN; only the ready state changes |
| ChatWindow.ChatWindow.SocketClosed | src/components/Chat/ChatWindow.jsx:148-150 | stands for the browser finishing the close requested here (or the server closing the connection): the ready state becomes CLOSED and nothing else changes |
| ChatWindow.ChatWindow.SetNewMessage | src/components/Chat/ChatWindow.jsx:637 | the composer holds exactly the typed text, and no other field may change |
| ChatWindow.ChatWindow.HandleReaction | src/components/Chat/ChatWindow.jsx:56-66 | on an open socket exactly one reaction frame is sent, with the toggled reaction; otherwise nothing is sent |
| ChatWindow.ChatWindow.SelectionChanged | src/components/Chat/ChatWindow.jsx:68-152 | the previous socket is closed; a selected chat empties the message list, requests its history and opens a new socket for it; with no chat selected the socket is the old one, moved to closing if it was still connecting or open, and null stays null |
| ChatWindow.ChatWindow.HistoryArrived | src/components/Chat/ChatWindow.jsx:74-100 | the loop appends the backfill of the records in order and then replaces the reaction map by their truthy reactions |
| ChatWindow.ChatWindow.OnFrame | src/components/Chat/ChatWindow.jsx:105-146 | the handler's effect on messages, reactions, indicator and notices is `Dispatch` with the chat the socket was opened for |
| ChatWindow.ChatWindow.HandleTyping | src/components/Chat/ChatWindow.jsx:241-253 | announces `true` only when not typing and restarts the 2000 ms timer; a throwing send leaves the flag set and the timer untouched |
| ChatWindow.ChatWindow.AdvanceClock | src/components/Chat/ChatWindow.jsx:249-252 | a due timer clears the flag and announces `false` once |
| ChatWindow.ChatWindow.SendMessage | src/components/Chat/ChatWindow.jsx:255-261 | nothing happens without a socket or with a blank composer; otherwise the encrypted text goes to `participants[1]` and the composer clears, unless encryption or `send` throws first |
| ChatWindow.ChatWindow.HandleDeleteMessage | src/components/Chat/ChatWindow.jsx:273-280 | with a socket, a delete frame in the name of `current_user_id` is sent |
| ChatWindow.ChatWindow.SendVoiceMessage | src/components/Chat/ChatWindow.jsx:219-236 | with a recording, the encrypted audio and wrapped key (32-byte key, 16-byte IV) are sent without the IV; once encryption succeeds, the handler throws exactly when `send` does (null or connecting socket) |
| ChatWindow.ChatWindow.HandleTranscribe | src/components/Chat/ChatWindow.jsx:376-388 | an existing transcript is removed (that key only) and no request starts; otherwise the id is marked in progress and one request is issued |
| ChatWindow.ChatWindow.TranscriptArrived | src/components/Chat/ChatWindow.jsx:397-409 | the transcript is stored under the id and the id is no longer in progress |
| ChatWindow.ChatWindow.TranscribeFetchFailed | src/components/Chat/ChatWindow.jsx:411-415 | one failure notice, and the id is no longer in progress |

## Observed behaviour

These are properties of the code as written. The model keeps them rather than correcting them.

- The audio IV never travels. `encryptAudio` returns a fresh IV (src/utils/crypto.js:63, src/utils/crypto.js:88). `decryptAudio` decodes one (src/utils/crypto.js:96). The window drops it when sending (src/components/Chat/ChatWindow.jsx:226-233) and calls `decryptAudio` without it (src/components/Chat/ChatWindow.jsx:83, src/components/Chat/ChatWindow.jsx:123).
  - `Crypto.AudioRoundTrip` shows the envelope round-trips when the IV is supplied.
  - `ChatWindow.VoiceNeverShown` and `ChatWindow.HistoryVoiceNeverShown` show that the window never shows voice when `decode64(undefined)` throws. That is the `decode64Undefined == None` case of the library model.
- Inbound voice frames are `voice_message`, while the window sends `voice` (`ChatWindow.SentVoiceKindIgnored`).
- The typing filter compares against `current_user`; the delete notice compares against `current_user_id` (`ChatWindow.IdentityFieldsDisagree`).
- `addMessage` has no duplicate-id guard (`ChatStore.AppendDuplicate`).
- The comment at src/utils/crypto.js:65 says a full block is always added. The code at src/utils/crypto.js:67 adds 1 to 16 bytes, and a full block only when the length is already a multiple of 16. The model follows the code (`Crypto.PadLen`).
- Trailing zero bytes of audio are lost: the strip at src/utils/crypto.js:111-115 cannot tell them from padding (`Crypto.TrailingZeroLost`).
- Selecting another chat clears only the message list (src/components/Chat/ChatWindow.jsx:71). The reaction map, the transcripts, the in-progress set and the typing indicator of the previous chat stay until something overwrites them (`ChatWindow.ChatWindow.SelectionChanged`).
- A history response is not tied to the chat still selected when it arrives (src/components/Chat/ChatWindow.jsx:74-100). A late response for a previous chat is appended to the new chat's list, and its reactions replace the new chat's map (`ChatWindow.ChatWindow.HistoryArrived`, called with the chat the request was made for).
- Messages are encrypted with the chat's `public_key` and decrypted with the same chat record's `private_key`. The model follows this key plumbing as is.
- No presence frame is handled anywhere, so none is modelled.

## Left out

- node-forge internals: PEM parsing, RSA-OAEP, AES-CBC, base64 and `forge.random` are uninterpreted fields of `Forge`. Beyond the field types, their behaviour enters through the `Sound` hypothesis, restricted to binary strings as forge is. That node-forge itself meets `Sound` for a real RSA key pair is assumed, not proved; `Crypto.SoundSatisfiable` shows only that the hypothesis is consistent. The random session key and IV are parameters.
- OAEP encryption, AES encryption and base64 are total and deterministic here. This encodes three assumptions:
  - The RSA modulus is at least 2048 bits. With SHA-1, forge's `publicKey.encrypt` throws when the message exceeds k - 42 bytes, which a 190-character chunk does for a modulus below 1856 bits.
  - `createCipher` never throws. It would throw on a key that is not 16, 24 or 32 bytes; the key comes from `getBytesSync(32)`, and `Crypto.EncryptAudio` requires 32 bytes.
  - The fresh random seed of each OAEP encryption is abstracted away, so encrypting the same chunk twice gives the same piece here.
- Crypto.TextRoundTrip: stated for binary (Latin-1) plaintext only, because forge's OAEP works on binary strings. Characters above U+00FF are not modelled at the UTF-16 or UTF-8 level.
- Strings are sequences of Dafny characters, not UTF-16 code units. Chunk lengths therefore agree with the source only below U+10000.
- `JSON.parse`/`JSON.stringify`: frames are datatypes. A malformed frame throws in the source, and that path is not modelled.
- Blob, `URL.createObjectURL` and `FileReader` are represented by the bytes the URL serves (`ObjectUrl`). The asynchronous file read in `sendVoiceMessage` is folded into the method.
- HTTP calls are not modelled. Their results become inputs:
  - the history fetch is `HistoryArrived`, called with the chat the request was made for;
  - transcription is `TranscriptArrived` / `TranscribeFetchFailed`.
- The rejection of the transcription POST inside `onloadend` is unhandled in the source; it is not modelled. With it, the id would stay in progress.
- `fetchChats`, search/start chat, auto-reply and text-to-speech are network clients and are not part of this model.
- React closure staleness is not modelled. Handlers here read the latest state, whereas the source reads the render-time value of `isTyping`, `messageReactions` and `transcription`. The `onmessage` handler's chat is kept explicitly, as the chat the socket was opened for.
- Real time: the `setTimeout`/`clearTimeout` pair is a deadline on an abstract clock advanced by `AdvanceClock`.
- The `persist` middleware of the auth store (localStorage) and all rendering are not modelled. This covers menus, modals, the recorder, scrolling, toasts (kept only as `Notice` values) and the other components.
- `src/utils/axiosInstance.js`, `src/store/loaderStore.js` and `src/utils/encryptionUtils.js` are not part of this model: they are HTTP wiring, a one-field setter and an unused WebCrypto wrapper.
- Message records keep only id, sender, text, voice URL and timestamp. The other fields a history record spreads into the stored message are dropped.
- ChatWindow.ChatWindow.SelectionChanged: the `accessToken` in the socket URL and the server address are not modelled.
