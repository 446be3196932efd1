/**
 * The text and audio envelopes of the messaging client (src/utils/crypto.js).
 *
 * Text is cut into 190-character chunks, each chunk is RSA-OAEP encrypted (SHA-1, MGF1,
 * section 7.1 of RFC 8017) and base64 encoded, and the pieces are joined with "||".
 * Audio is zero padded to whole 16-byte blocks, AES-CBC encrypted under a fresh session
 * key, and the session key is RSA-OAEP encrypted.
 *
 * The node-forge primitives are not modelled: they are the function fields of a `Forge`
 * value, and what the envelope code relies on them for is the hypothesis `Sound`.
 */
module Crypto {
  import opened Wrappers

  newtype byte = x: int | 0 <= x < 256

  /** Characters per RSA-OAEP chunk of text. */
  const ChunkSize: nat := 190
  /** The AES block size, in bytes. */
  const BlockSize: nat := 16
  /** Bytes converted per `String.fromCharCode` call in `u8ToBinary`. */
  const BinaryChunk: nat := 0x8000
  /** Length of the random AES session key, in bytes. */
  const SessionKeySize: nat := 32

  const Pipe: char := '|'
  const Nul: char := '\0'

  /** What node-forge throws, by the step that throws it. */
  datatype CryptoError =
    | BadPem       // publicKeyFromPem / privateKeyFromPem rejects the key text
    | OaepFailure  // privateKey.decrypt rejects a ciphertext
    | AesFailure   // decipher.finish() reports failure
    | MissingIv    // decode64 throws on `undefined` handed in place of the IV

  /**
   * The node-forge calls the envelopes use. Keys are PEM texts; ciphertexts, plaintext
   * chunks and session keys are "binary strings" (one character per byte), as in forge.
   */
  datatype Forge = Forge(
    publicPemOk: string -> bool,
    privatePemOk: string -> bool,
    oaepEncrypt: (string, string) -> string,           // (public PEM, message)
    oaepDecrypt: (string, string) -> Option<string>,   // (private PEM, ciphertext)
    encode64: string -> string,
    decode64: string -> string,
    aesEncrypt: (string, string, string) -> string,          // (key, iv, data), CBC
    aesDecrypt: (string, string, string) -> Option<string>,  // None when finish() fails
    decode64Undefined: Option<string>)  // decode64(undefined); None when it throws

  /** A binary string: every character is a byte. */
  predicate IsBinary(s: string) {
    forall i :: 0 <= i < |s| ==> s[i] as int < 256
  }

  /**
   * What the envelope code assumes of the library for a matching key pair: both PEM texts
   * parse, OAEP decryption undoes encryption of any binary message of at most one chunk,
   * OAEP and AES-CBC ciphertexts are binary strings, base64 decoding undoes encoding of
   * binary strings (node-forge's `encode64` reads each character as one byte, so it is
   * one-to-one only on those), base64 output never contains '|', an OAEP ciphertext (a
   * whole modulus) never encodes to the empty string, and AES-CBC decryption undoes
   * encryption of a binary string under the same key and IV.
   */
  ghost predicate Sound(f: Forge, pub: string, priv: string) {
    && f.publicPemOk(pub)
    && f.privatePemOk(priv)
    && (forall m :: IsBinary(m) && |m| <= ChunkSize ==> f.oaepDecrypt(priv, f.oaepEncrypt(pub, m)) == Some(m))
    && (forall m :: IsBinary(f.oaepEncrypt(pub, m)))
    && (forall k, iv, d :: IsBinary(f.aesEncrypt(k, iv, d)))
    && (forall b :: IsBinary(b) ==> f.decode64(f.encode64(b)) == b)
    && (forall b :: Pipe !in f.encode64(b))
    && (forall m :: f.encode64(f.oaepEncrypt(pub, m)) != [])
    && (forall k, iv, d :: IsBinary(d) ==> f.aesDecrypt(k, iv, f.aesEncrypt(k, iv, d)) == Some(d))
  }

  /** A stand-in library for `SoundSatisfiable`: each character becomes its low byte. */
  function LowChars(s: string): (r: string)
    ensures |r| == |s| && IsBinary(r)
    ensures IsBinary(s) ==> r == s
  {
    seq(|s|, i requires 0 <= i < |s| => ((s[i] as int) % 256) as char)
  }

  /** A stand-in base64: bytes move to U+0100..U+01FF, far from '|'; anything else becomes 'A'. */
  function ShiftUp(s: string): (r: string)
    ensures |r| == |s| && Pipe !in r
  {
    seq(|s|, i requires 0 <= i < |s| => if s[i] as int < 256 then (s[i] as int + 256) as char else 'A')
  }

  /** The inverse of `ShiftUp` on binary strings. */
  function ShiftDown(s: string): (r: string)
    ensures |r| == |s|
  {
    seq(|s|, i requires 0 <= i < |s| => if 256 <= s[i] as int < 512 then (s[i] as int - 256) as char else 'A')
  }

  lemma ShiftRoundTrip(b: string)
    requires IsBinary(b)
    ensures ShiftDown(ShiftUp(b)) == b
  {
  }

  /** The stand-in library: OAEP prefixes a marker byte, AES and PEM parsing do nothing. */
  function StandIn(): Forge {
    Forge(
      _ => true, _ => true,
      (pub, m) => ['A'] + LowChars(m),
      (priv, c) => if c == [] then None else Some(c[1..]),
      ShiftUp, ShiftDown,
      (k, iv, d) => LowChars(d),
      (k, iv, c) => Some(c),
      Some([]))
  }

  lemma StandInOaep(m: string)
    ensures IsBinary(StandIn().oaepEncrypt("", m)) && StandIn().oaepEncrypt("", m) != []
    ensures IsBinary(m) ==> StandIn().oaepDecrypt("", StandIn().oaepEncrypt("", m)) == Some(m)
  {
    var c := ['A'] + LowChars(m);
    assert StandIn().oaepEncrypt("", m) == c;
    assert c[1..] == LowChars(m);
  }

  lemma StandInBase64(b: string)
    ensures Pipe !in StandIn().encode64(b)
    ensures IsBinary(b) ==> StandIn().decode64(StandIn().encode64(b)) == b
    ensures |StandIn().encode64(b)| == |b|
  {
    if IsBinary(b) {
      ShiftRoundTrip(b);
    }
  }

  lemma StandInAes(k: string, iv: string, d: string)
    ensures IsBinary(StandIn().aesEncrypt(k, iv, d))
    ensures IsBinary(d) ==> StandIn().aesDecrypt(k, iv, StandIn().aesEncrypt(k, iv, d)) == Some(d)
  {
  }

  /** The stand-in library meets every clause of `Sound`. */
  lemma StandInSound()
    ensures Sound(StandIn(), "", "")
  {
    var f := StandIn();
    forall m ensures IsBinary(f.oaepEncrypt("", m)) && f.encode64(f.oaepEncrypt("", m)) != []
      && (IsBinary(m) && |m| <= ChunkSize ==> f.oaepDecrypt("", f.oaepEncrypt("", m)) == Some(m))
    {
      StandInOaep(m);
      StandInBase64(f.oaepEncrypt("", m));
    }
    forall b ensures Pipe !in f.encode64(b) && (IsBinary(b) ==> f.decode64(f.encode64(b)) == b) {
      StandInBase64(b);
    }
    forall k, iv, d ensures IsBinary(f.aesEncrypt(k, iv, d))
      && (IsBinary(d) ==> f.aesDecrypt(k, iv, f.aesEncrypt(k, iv, d)) == Some(d))
    {
      StandInAes(k, iv, d);
    }
  }

  /** `Sound` is not vacuous: some library and key pair meet every clause of it. */
  lemma SoundSatisfiable()
    ensures exists f: Forge, pub: string, priv: string :: Sound(f, pub, priv)
  {
    StandInSound();
  }

  /**
   * `Sound` allows what node-forge's `encode64` does with characters above U+00FF: two
   * different such strings may encode alike.
   */
  lemma SoundAllowsWideCollision()
    ensures exists f: Forge, pub: string, priv: string ::
      Sound(f, pub, priv) && f.encode64(['\U{0400}']) == f.encode64(['\U{0800}'])
  {
    StandInSound();
    StandInCollision();
  }

  /** The stand-in encoder, like node-forge's, maps U+0400 and U+0800 to the same text. */
  lemma StandInCollision()
    ensures StandIn().encode64(['\U{0400}']) == StandIn().encode64(['\U{0800}'])
  {
    var a, b := ShiftUp(['\U{0400}']), ShiftUp(['\U{0800}']);
    assert a[0] == 'A' == b[0];
  }

  // ---------------------------------------------------------------------------
  // Bytes and binary strings (u8ToBinary, binaryToU8)
  // ---------------------------------------------------------------------------

  function Min(a: int, b: int): int { if a <= b then a else b }

  /** The binary string whose character codes are the given bytes. */
  function Latin1(u: seq<byte>): (s: string)
    ensures |s| == |u| && IsBinary(s)
  {
    seq(|u|, i requires 0 <= i < |u| => (u[i] as int) as char)
  }

  /** The bytes `charCodeAt(i) & 0xff` of a string. */
  function LowBytes(s: string): (u: seq<byte>)
    ensures |u| == |s|
  {
    seq(|s|, i requires 0 <= i < |s| => ((s[i] as int) % 256) as byte)
  }

  lemma Latin1Append(a: seq<byte>, b: seq<byte>)
    ensures Latin1(a + b) == Latin1(a) + Latin1(b)
  {
    assert forall i :: 0 <= i < |a + b| ==> Latin1(a + b)[i] == (Latin1(a) + Latin1(b))[i];
  }

  /** Converting bytes to a binary string and back gives the same bytes. */
  lemma BytesRoundTrip(u: seq<byte>)
    ensures LowBytes(Latin1(u)) == u
  {
    forall i | 0 <= i < |u|
      ensures LowBytes(Latin1(u))[i] == u[i]
    {
      assert Latin1(u)[i] as int == u[i] as int;
    }
  }

  /** A binary string converted to bytes and back is the same string. */
  lemma BinaryRoundTrip(s: string)
    requires IsBinary(s)
    ensures Latin1(LowBytes(s)) == s
  {
    forall i | 0 <= i < |s|
      ensures Latin1(LowBytes(s))[i] == s[i]
    {
      assert LowBytes(s)[i] as int == s[i] as int;
    }
  }

  /** `u8ToBinary`: builds the binary string 0x8000 bytes at a time. */
  method U8ToBinary(u8: array<byte>) returns (result: string)
    ensures result == Latin1(u8[..])
  {
    result := "";
    var i := 0;
    while i < u8.Length
      invariant 0 <= i
      invariant result == Latin1(u8[..Min(i, u8.Length)])
    {
      var end := Min(i + BinaryChunk, u8.Length);
      var chunk := u8[i..end];
      Latin1Append(u8[..i], chunk);
      assert u8[..i] + chunk == u8[..end];
      result := result + Latin1(chunk);
      i := i + BinaryChunk;
    }
    assert u8[..Min(i, u8.Length)] == u8[..];
  }

  /** `binaryToU8`: fills a fresh byte array with the low byte of each character. */
  method BinaryToU8(bin: string) returns (u8: array<byte>)
    ensures fresh(u8) && u8[..] == LowBytes(bin)
  {
    u8 := new byte[|bin|];
    for i := 0 to |bin|
      invariant u8[..i] == LowBytes(bin)[..i]
    {
      u8[i] := ((bin[i] as int) % 256) as byte;
      assert u8[..i + 1] == u8[..i] + [u8[i]];
    }
    assert u8[..] == u8[..|bin|];
  }

  // ---------------------------------------------------------------------------
  // Text envelope (chunkString, encryptText, decryptText)
  // ---------------------------------------------------------------------------

  /** The concatenation of a sequence of strings, in order (`join('')`). */
  function Concat(ss: seq<string>): (r: string)
    ensures ss != [] ==> ss[0] <= r
    ensures r == [] <==> forall k :: 0 <= k < |ss| ==> ss[k] == []
  {
    if ss == [] then [] else ss[0] + Concat(ss[1..])
  }

  lemma ConcatAppend(a: seq<string>, b: seq<string>)
    ensures Concat(a + b) == Concat(a) + Concat(b)
  {
    if a == [] {
      assert a + b == b;
    } else {
      assert (a + b)[1..] == a[1..] + b;
      ConcatAppend(a[1..], b);
      AppendAssoc(a[0], Concat(a[1..]), Concat(b));
    }
  }

  /** The chunks of `s`: the substrings starting at 0, size, 2*size, ... of at most `size` characters. */
  function Chunks(s: string, size: nat): (r: seq<string>)
    requires size > 0
    ensures |r| <= |s|
    ensures r == [] <==> s == []
    decreases |s|
  {
    if |s| == 0 then []
    else if |s| <= size then [s]
    else [s[..size]] + Chunks(s[size..], size)
  }

  /** The chunks put `s` back together, none is empty, and all but the last are full. */
  lemma {:induction false} ChunksSpec(s: string, size: nat)
    requires size > 0
    ensures Concat(Chunks(s, size)) == s
    ensures forall k :: 0 <= k < |Chunks(s, size)| ==> 0 < |Chunks(s, size)[k]| <= size
    ensures forall k :: 0 <= k < |Chunks(s, size)| - 1 ==> |Chunks(s, size)[k]| == size
    decreases |s|
  {
    if |s| > size {
      var rest := Chunks(s[size..], size);
      ChunksSpec(s[size..], size);
      var r := [s[..size]] + rest;
      assert Chunks(s, size) == r;
      assert r[1..] == rest;
      assert Concat(r) == s[..size] + Concat(rest);
      assert s[..size] + s[size..] == s;
      forall k | 0 <= k < |r|
        ensures 0 < |r[k]| <= size && (k < |r| - 1 ==> |r[k]| == size)
      {
        if k > 0 {
          assert r[k] == rest[k - 1];
        }
      }
    } else if |s| > 0 {
      assert Chunks(s, size) == [s];
      assert [s][1..] == [];
      assert Concat([s]) == s + Concat([]);
    }
  }

  /** The empty string has no chunks, and every other string has at least one. */
  lemma ChunksEmpty(s: string, size: nat)
    requires size > 0
    ensures Chunks(s, size) == [] <==> s == []
  {
  }

  /** Every chunk of a binary string is a binary string. */
  lemma {:induction false} ChunksBinary(s: string, size: nat)
    requires size > 0 && IsBinary(s)
    ensures forall k :: 0 <= k < |Chunks(s, size)| ==> IsBinary(Chunks(s, size)[k])
    decreases |s|
  {
    if |s| > size {
      assert IsBinary(s[size..]);
      ChunksBinary(s[size..], size);
    }
  }

  /** The first chunk of a non-empty string is its first `size` characters (or all of it). */
  lemma ChunksUnfold(t: string, size: nat)
    requires size > 0 && t != []
    ensures Chunks(t, size) == [t[..Min(size, |t|)]] + Chunks(t[Min(size, |t|)..], size)
  {
    if |t| <= size {
      assert t[..|t|] == t;
      assert t[|t|..] == [];
    }
  }

  /** One turn of the `chunkString` loop: the chunk at `i` is the next one of the input. */
  lemma ChunksStep(s: string, i: nat, size: nat, done: seq<string>)
    requires size > 0 && i < |s|
    requires done + Chunks(s[i..], size) == Chunks(s, size)
    ensures (done + [s[i..Min(i + size, |s|)]]) + Chunks(s[Min(i + size, |s|)..], size) == Chunks(s, size)
  {
    var t := s[i..];
    var next := Min(i + size, |s|);
    var chunk := s[i..next];
    var rest := Chunks(s[next..], size);
    ChunksUnfold(t, size);
    assert t[..Min(size, |t|)] == chunk;
    assert t[Min(size, |t|)..] == s[next..];
    assert Chunks(t, size) == [chunk] + rest;
    assert (done + [chunk]) + rest == done + ([chunk] + rest);
  }

  /** `chunkString`: pushes `substring(i, i + size)` for i = 0, size, 2*size, ... */
  method ChunkString(input: string, size: nat) returns (chunks: seq<string>)
    requires size > 0
    ensures chunks == Chunks(input, size)
  {
    chunks := [];
    var i := 0;
    while i < |input|
      invariant 0 <= i
      invariant chunks + Chunks(input[Min(i, |input|)..], size) == Chunks(input, size)
    {
      var next := Min(i + size, |input|);
      ChunksStep(input, i, size, chunks);
      chunks := chunks + [input[i..next]];
      i := i + size;
      assert Min(i, |input|) == next;
    }
    assert input[Min(i, |input|)..] == [];
  }

  /** One chunk: OAEP-encrypted, then base64 encoded. */
  function EncryptChunk(f: Forge, pub: string, chunk: string): string {
    f.encode64(f.oaepEncrypt(pub, chunk))
  }

  /** Under `Sound`, a chunk that fits decrypts back from its piece, and the piece is a non-empty run without '|'. */
  lemma EncryptChunkInverse(f: Forge, pub: string, priv: string, chunk: string)
    requires Sound(f, pub, priv) && IsBinary(chunk) && |chunk| <= ChunkSize
    ensures f.oaepDecrypt(priv, f.decode64(EncryptChunk(f, pub, chunk))) == Some(chunk)
    ensures EncryptChunk(f, pub, chunk) != [] && Pipe !in EncryptChunk(f, pub, chunk)
  {
  }

  /** `chunks.map(...)` in `encryptText`: one encrypted piece per chunk, in chunk order. */
  function EncryptChunks(f: Forge, pub: string, cs: seq<string>): (r: seq<string>)
    ensures |r| == |cs|
    ensures forall k :: 0 <= k < |cs| ==> r[k] == EncryptChunk(f, pub, cs[k])
  {
    if cs == [] then [] else [EncryptChunk(f, pub, cs[0])] + EncryptChunks(f, pub, cs[1..])
  }

  /** `join('||')`. */
  function JoinPipes(ps: seq<string>): (r: string)
    ensures ps != [] ==> ps[0] <= r
    ensures |ps| > 1 ==> ps[0] + "||" <= r
  {
    if |ps| == 0 then []
    else if |ps| == 1 then ps[0]
    else ps[0] + "||" + JoinPipes(ps[1..])
  }

  /** `split('||')`: cut at each "||", scanning left to right without overlap. */
  function Split(s: string): (r: seq<string>)
    ensures |r| >= 1
    decreases |s|
  {
    if |s| < 2 then [s]
    else if s[0] == Pipe && s[1] == Pipe then [[]] + Split(s[2..])
    else
      var rest := Split(s[1..]);
      [[s[0]] + rest[0]] + rest[1..]
  }

  /** `filter(Boolean)` on strings: drops the empty ones, keeping the order of the rest. */
  function NonEmpty(ps: seq<string>): (r: seq<string>)
    ensures forall k :: 0 <= k < |r| ==> r[k] != [] && r[k] in ps
    ensures forall p :: p in r <==> p in ps && p != []
  {
    if ps == [] then [] else (if ps[0] == [] then [] else [ps[0]]) + NonEmpty(ps[1..])
  }

  /** Filtering distributes over concatenation, so the kept pieces stay in their original order. */
  lemma {:induction false} NonEmptyAppend(a: seq<string>, b: seq<string>)
    ensures NonEmpty(a + b) == NonEmpty(a) + NonEmpty(b)
  {
    if a == [] {
      assert a + b == b;
    } else {
      assert (a + b)[1..] == a[1..] + b;
      NonEmptyAppend(a[1..], b);
    }
  }

  /** `encryptText`. Throws (Err) only when the public key does not parse. */
  function EncryptText(f: Forge, pub: string, plaintext: string): (r: Result<string, CryptoError>)
    ensures r.Ok? <==> f.publicPemOk(pub)
    ensures r.Ok? && plaintext == [] ==> r.value == []
  {
    if !f.publicPemOk(pub) then Err(BadPem)
    else Ok(JoinPipes(EncryptChunks(f, pub, Chunks(plaintext, ChunkSize))))
  }

  /** Decrypting the pieces in order; the first piece that fails makes the whole call fail. */
  function DecryptPieces(f: Forge, priv: string, ps: seq<string>): (r: Result<string, CryptoError>)
    ensures ps == [] ==> r == Ok([])
    ensures r.Err? ==> r.error == OaepFailure
  {
    if ps == [] then Ok([])
    else match f.oaepDecrypt(priv, f.decode64(ps[0]))
      case None => Err(OaepFailure)
      case Some(m) =>
        match DecryptPieces(f, priv, ps[1..])
        case Err(e) => Err(e)
        case Ok(rest) => Ok(m + rest)
  }

  /** `decryptText`. A falsy ciphertext gives "" before the key is even parsed. */
  function DecryptText(f: Forge, priv: string, ciphertext: string): (r: Result<string, CryptoError>)
    ensures ciphertext == [] ==> r == Ok([])
    ensures ciphertext != [] && !f.privatePemOk(priv) ==> r == Err(BadPem)
  {
    if ciphertext == [] then Ok([])
    else if !f.privatePemOk(priv) then Err(BadPem)
    else DecryptPieces(f, priv, NonEmpty(Split(ciphertext)))
  }

  /** A message fails to decrypt exactly when one of its pieces does. */
  lemma {:induction false} DecryptPiecesFailure(f: Forge, priv: string, ps: seq<string>)
    ensures DecryptPieces(f, priv, ps).Err? <==>
            exists k :: 0 <= k < |ps| && f.oaepDecrypt(priv, f.decode64(ps[k])).None?
  {
    if ps != [] {
      DecryptPiecesFailure(f, priv, ps[1..]);
      if f.oaepDecrypt(priv, f.decode64(ps[0])).Some? && DecryptPieces(f, priv, ps[1..]).Ok? {
        forall k | 0 <= k < |ps|
          ensures f.oaepDecrypt(priv, f.decode64(ps[k])).Some?
        {
          if k > 0 { assert ps[k] == ps[1..][k - 1]; }
        }
      } else if f.oaepDecrypt(priv, f.decode64(ps[0])).Some? {
        var k :| 0 <= k < |ps[1..]| && f.oaepDecrypt(priv, f.decode64(ps[1..][k])).None?;
        assert ps[k + 1] == ps[1..][k];
      }
    }
  }

  /** A successful decryption is the concatenation, in order, of the pieces' plaintexts. */
  lemma {:induction false} DecryptPiecesValue(f: Forge, priv: string, ps: seq<string>)
    requires DecryptPieces(f, priv, ps).Ok?
    ensures forall k :: 0 <= k < |ps| ==> f.oaepDecrypt(priv, f.decode64(ps[k])).Some?
    ensures DecryptPieces(f, priv, ps).value ==
            Concat(seq(|ps|, k requires 0 <= k < |ps| => f.oaepDecrypt(priv, f.decode64(ps[k])).value))
  {
    DecryptPiecesFailure(f, priv, ps);
    if ps != [] {
      DecryptPiecesValue(f, priv, ps[1..]);
      var all := seq(|ps|, k requires 0 <= k < |ps| => f.oaepDecrypt(priv, f.decode64(ps[k])).value);
      var tail := seq(|ps[1..]|, k requires 0 <= k < |ps[1..]| => f.oaepDecrypt(priv, f.decode64(ps[1..][k])).value);
      assert all[1..] == tail;
    }
  }

  /** Joining the pieces of a split with "||" rebuilds the text: no character is lost or added. */
  lemma {:induction false} JoinSplit(s: string)
    ensures JoinPipes(Split(s)) == s
    decreases |s|
  {
    if |s| < 2 {
    } else if s[0] == Pipe && s[1] == Pipe {
      var rest := Split(s[2..]);
      JoinSplit(s[2..]);
      assert ([[]] + rest)[1..] == rest;
      assert s == "||" + s[2..];
    } else {
      JoinSplit(s[1..]);
      JoinPipesCons(s[0], Split(s[1..]));
      assert s == [s[0]] + s[1..];
    }
  }

  /** Joining two or more pieces: the first, a separator, then the join of the rest. */
  lemma JoinPipesUnfold(ps: seq<string>)
    requires |ps| > 1
    ensures JoinPipes(ps) == ps[0] + "||" + JoinPipes(ps[1..])
  {
  }

  /** A character put in front of the first piece comes first in the joined text. */
  lemma JoinPipesCons(c: char, ps: seq<string>)
    requires ps != []
    ensures JoinPipes([[c] + ps[0]] + ps[1..]) == [c] + JoinPipes(ps)
  {
    var r := [[c] + ps[0]] + ps[1..];
    if |ps| > 1 {
      var h, t := ps[0], JoinPipes(ps[1..]);
      assert r[1..] == ps[1..];
      JoinPipesUnfold(r);
      JoinPipesUnfold(ps);
      calc {
        JoinPipes(r);
        ([c] + h) + "||" + t;
        { AppendAssoc([c] + h, "||", t); }
        ([c] + h) + ("||" + t);
        { AppendAssoc([c], h, "||" + t); }
        [c] + (h + ("||" + t));
        { AppendAssoc(h, "||", t); }
        [c] + JoinPipes(ps);
      }
    }
  }

  /** Concatenation is associative. */
  lemma AppendAssoc<T>(a: seq<T>, b: seq<T>, c: seq<T>)
    ensures a + b + c == a + (b + c)
  {
  }

  /** Splitting text without '|' gives the text itself. */
  lemma {:induction false} SplitNoPipe(p: string)
    requires Pipe !in p
    ensures Split(p) == [p]
    decreases |p|
  {
    if |p| >= 2 {
      SplitNoPipe(p[1..]);
      assert [p[0]] + p[1..] == p;
    }
  }

  /** Splitting "p||rest", where p has no '|', yields p and then the pieces of rest. */
  lemma {:induction false} SplitAfter(p: string, rest: string)
    requires Pipe !in p
    ensures Split(p + "||" + rest) == [p] + Split(rest)
    decreases |p|
  {
    var s := p + "||" + rest;
    if p == [] {
      assert s[2..] == rest;
    } else {
      assert s[1..] == p[1..] + "||" + rest;
      SplitAfter(p[1..], rest);
      assert [p[0]] + p[1..] == p;
    }
  }

  /** "||" separators split back into the pieces they joined, once the empties are dropped. */
  lemma {:induction false} SplitJoin(ps: seq<string>)
    requires forall k :: 0 <= k < |ps| ==> ps[k] != [] && Pipe !in ps[k]
    ensures NonEmpty(Split(JoinPipes(ps))) == ps
  {
    if |ps| == 1 {
      SplitNoPipe(ps[0]);
      assert NonEmpty([ps[0]]) == [ps[0]] + NonEmpty([]);
    } else if |ps| > 1 {
      SplitAfter(ps[0], JoinPipes(ps[1..]));
      var tail := Split(JoinPipes(ps[1..]));
      assert ([ps[0]] + tail)[1..] == tail;
      SplitJoin(ps[1..]);
      assert ps == [ps[0]] + ps[1..];
    }
  }

  /** Under `Sound`, the encrypted pieces are non-empty and free of '|'. */
  lemma EncryptedPiecesWellFormed(f: Forge, pub: string, priv: string, cs: seq<string>)
    requires Sound(f, pub, priv)
    ensures forall k :: 0 <= k < |cs| ==>
      EncryptChunks(f, pub, cs)[k] != [] && Pipe !in EncryptChunks(f, pub, cs)[k]
  {
    forall k | 0 <= k < |cs|
      ensures EncryptChunks(f, pub, cs)[k] != [] && Pipe !in EncryptChunks(f, pub, cs)[k]
    {
      assert EncryptChunks(f, pub, cs)[k] == f.encode64(f.oaepEncrypt(pub, cs[k]));
    }
  }

  /** Under `Sound`, decrypting the encrypted chunks gives back their concatenation. */
  lemma {:induction false} DecryptEncryptedChunks(f: Forge, pub: string, priv: string, cs: seq<string>)
    requires Sound(f, pub, priv)
    requires forall k :: 0 <= k < |cs| ==> IsBinary(cs[k]) && |cs[k]| <= ChunkSize
    ensures DecryptPieces(f, priv, EncryptChunks(f, pub, cs)) == Ok(Concat(cs))
  {
    if cs != [] {
      var es := EncryptChunks(f, pub, cs);
      assert es[1..] == EncryptChunks(f, pub, cs[1..]);
      assert f.decode64(es[0]) == f.oaepEncrypt(pub, cs[0]);
      DecryptEncryptedChunks(f, pub, priv, cs[1..]);
    }
  }

  /**
   * `encryptText` emits one "||"-separated piece per 190-character chunk, each the base64 of
   * that chunk's OAEP encryption, in chunk order.
   */
  lemma EncryptTextPieces(f: Forge, pub: string, priv: string, plaintext: string)
    requires Sound(f, pub, priv)
    ensures EncryptText(f, pub, plaintext).Ok?
    ensures NonEmpty(Split(EncryptText(f, pub, plaintext).value))
            == EncryptChunks(f, pub, Chunks(plaintext, ChunkSize))
  {
    var es := EncryptChunks(f, pub, Chunks(plaintext, ChunkSize));
    EncryptedPiecesWellFormed(f, pub, priv, Chunks(plaintext, ChunkSize));
    SplitJoin(es);
  }

  /** A join whose first piece is non-empty is non-empty. */
  lemma JoinPipesNonEmpty(ps: seq<string>)
    requires |ps| > 0 && ps[0] != []
    ensures JoinPipes(ps) != []
  {
    assert |ps[0]| <= |JoinPipes(ps)|;
  }

  /** Text round trip: any binary plaintext, empty or a whole number of chunks included. */
  lemma TextRoundTrip(f: Forge, pub: string, priv: string, plaintext: string)
    requires Sound(f, pub, priv)
    requires IsBinary(plaintext)
    ensures EncryptText(f, pub, plaintext).Ok?
    ensures DecryptText(f, priv, EncryptText(f, pub, plaintext).value) == Ok(plaintext)
  {
    var cs := Chunks(plaintext, ChunkSize);
    var es := EncryptChunks(f, pub, cs);
    var ct := JoinPipes(es);
    assert EncryptText(f, pub, plaintext) == Ok(ct);
    if plaintext != [] {
      ChunksEmpty(plaintext, ChunkSize);
      ChunksSpec(plaintext, ChunkSize);
      EncryptedPiecesWellFormed(f, pub, priv, cs);
      JoinPipesNonEmpty(es);
      SplitJoin(es);
      ChunksBinary(plaintext, ChunkSize);
      DecryptEncryptedChunks(f, pub, priv, cs);
      assert DecryptText(f, priv, ct) == DecryptPieces(f, priv, es);
    }
  }

  // ---------------------------------------------------------------------------
  // Audio envelope (encryptAudio, decryptAudio)
  // ---------------------------------------------------------------------------

  /** `block - (length % block) || block`: the number of zero bytes appended. */
  function PadLen(n: nat): (r: int)
    ensures 1 <= r <= BlockSize
    ensures (n + r) % BlockSize == 0
    ensures r == BlockSize <==> n % BlockSize == 0
  {
    var k := BlockSize - n % BlockSize;
    if k != 0 then k else BlockSize
  }

  function Zeros(n: nat): (z: seq<byte>)
    ensures |z| == n && forall k :: 0 <= k < n ==> z[k] == 0
  {
    seq(n, _ => 0)
  }

  /** The padded audio: the input, then one to sixteen zero bytes, a whole number of blocks. */
  function Pad(a: seq<byte>): (r: seq<byte>)
    ensures |r| % BlockSize == 0 && |a| < |r| <= |a| + BlockSize
    ensures r[..|a|] == a
    ensures forall k :: |a| <= k < |r| ==> r[k] == 0
  {
    a + Zeros(PadLen(|a|))
  }

  /** The padding strip: the longest prefix that is empty or ends in a non-NUL character. */
  function StripZeros(s: string): (r: string)
    ensures |r| <= |s| && r == s[..|r|]
    ensures r == [] || r[|r| - 1] != Nul
    ensures forall k :: |r| <= k < |s| ==> s[k] == Nul
    decreases |s|
  {
    if |s| > 0 && s[|s| - 1] == Nul then StripZeros(s[..|s| - 1]) else s
  }

  /** The strip is determined by its three properties. */
  lemma StripZerosUnique(s: string, p: string)
    requires |p| <= |s| && p == s[..|p|]
    requires p == [] || p[|p| - 1] != Nul
    requires forall k :: |p| <= k < |s| ==> s[k] == Nul
    ensures StripZeros(s) == p
  {
  }

  /** The audio bytes that survive padding and stripping. */
  function Recovered(a: seq<byte>): seq<byte> {
    LowBytes(StripZeros(Latin1(Pad(a))))
  }

  /**
   * Padding then stripping keeps the longest prefix of the audio that is empty or ends
   * in a non-zero byte: the audio itself when it is empty or ends in a non-zero byte,
   * and the audio less its trailing zero bytes otherwise.
   */
  lemma RecoveredPrefix(a: seq<byte>)
    ensures var r := Recovered(a);
      && |r| <= |a| && r == a[..|r|]
      && (r == [] || r[|r| - 1] != 0)
      && (forall k :: |r| <= k < |a| ==> a[k] == 0)
  {
    var s := Latin1(Pad(a));
    var t := StripZeros(s);
    assert Latin1(Pad(a))[..|a|] == Latin1(a);
    assert t == Latin1(a)[..|t|];
    assert Latin1(a)[..|t|] == Latin1(a[..|t|]);
    BytesRoundTrip(a[..|t|]);
    forall k | |t| <= k < |a|
      ensures a[k] == 0
    {
      assert s[k] == Nul;
      assert s[k] as int == a[k] as int;
    }
  }

  /** Audio that is empty or ends in a non-zero byte survives padding and stripping. */
  lemma RecoveredExact(a: seq<byte>)
    requires a == [] || a[|a| - 1] != 0
    ensures Recovered(a) == a
  {
    RecoveredPrefix(a);
  }

  /** Trailing zero bytes are lost: [7, 0] comes back as [7]. */
  lemma TrailingZeroLost()
    ensures Recovered([7, 0]) == [7]
  {
    var a: seq<byte> := [7, 0];
    RecoveredPrefix(a);
    var r := Recovered(a);
    assert a[0] == 7 && a[1] == 0 && a[..1] == [7] && a[..2] == a;
    assert |r| != 0 ==> r[|r| - 1] != 0;
  }

  /** What `encryptAudio` returns; every field is base64. */
  datatype AudioEnvelope = AudioEnvelope(encryptedAudio: string, encryptedAesKey: string, iv: string)

  /** The envelope `encryptAudio` builds from the audio, the session key and the IV. */
  function EncryptedAudio(f: Forge, pub: string, audio: seq<byte>, aesKey: string, iv: string)
    : (r: Result<AudioEnvelope, CryptoError>)
    ensures r.Ok? <==> f.publicPemOk(pub)
  {
    if !f.publicPemOk(pub) then Err(BadPem)
    else Ok(AudioEnvelope(
      f.encode64(f.aesEncrypt(aesKey, iv, Latin1(Pad(audio)))),
      f.encode64(f.oaepEncrypt(pub, aesKey)),
      f.encode64(iv)))
  }

  /**
   * What `decryptAudio` returns: the key parses, the three base64 arguments decode (an
   * absent IV is `decode64(undefined)`), the session key OAEP-decrypts, AES-CBC finishes,
   * and the trailing NULs are stripped.
   */
  function DecryptedAudio(f: Forge, priv: string, encryptedAudio: string, encryptedAesKey: string,
                          iv: Option<string>): (r: Result<seq<byte>, CryptoError>)
    ensures !f.privatePemOk(priv) ==> r == Err(BadPem)
  {
    if !f.privatePemOk(priv) then Err(BadPem)
    else
      var ivBin := if iv.Some? then Some(f.decode64(iv.value)) else f.decode64Undefined;
      if ivBin.None? then Err(MissingIv)
      else match f.oaepDecrypt(priv, f.decode64(encryptedAesKey))
      case None => Err(OaepFailure)
      case Some(aesKey) =>
        match f.aesDecrypt(aesKey, ivBin.value, f.decode64(encryptedAudio))
        case None => Err(AesFailure)
        case Some(bin) => Ok(LowBytes(StripZeros(bin)))
  }

  /**
   * `encryptAudio`, with the random session key and IV given as arguments: the key is the
   * 32 random bytes AES-256 takes, the IV the 16 of one AES block.
   */
  method EncryptAudio(f: Forge, publicKeyPem: string, audioBytes: array<byte>, aesKeyBytes: string, ivBytes: string)
    returns (r: Result<AudioEnvelope, CryptoError>)
    requires |aesKeyBytes| == SessionKeySize && |ivBytes| == BlockSize
    ensures r == EncryptedAudio(f, publicKeyPem, audioBytes[..], aesKeyBytes, ivBytes)
  {
    if !f.publicPemOk(publicKeyPem) {
      return Err(BadPem);
    }
    var padLen := PadLen(audioBytes.Length);
    var padded := new byte[audioBytes.Length + padLen](_ => 0);
    forall k | 0 <= k < audioBytes.Length {
      padded[k] := audioBytes[k];
    }
    assert padded[..] == Pad(audioBytes[..]);
    var paddedBin := U8ToBinary(padded);
    var encryptedAudioBin := f.aesEncrypt(aesKeyBytes, ivBytes, paddedBin);
    var encryptedAesKeyBin := f.oaepEncrypt(publicKeyPem, aesKeyBytes);
    r := Ok(AudioEnvelope(f.encode64(encryptedAudioBin), f.encode64(encryptedAesKeyBin), f.encode64(ivBytes)));
  }

  /** `decryptAudio`; `ivB64 == None` is a call that leaves the IV argument out. */
  method DecryptAudio(f: Forge, privateKeyPem: string, encryptedAudioB64: string, encryptedAesKeyB64: string,
                      ivB64: Option<string>)
    returns (r: Result<array<byte>, CryptoError>)
    ensures r.Ok? <==> DecryptedAudio(f, privateKeyPem, encryptedAudioB64, encryptedAesKeyB64, ivB64).Ok?
    ensures r.Err? ==> r.error == DecryptedAudio(f, privateKeyPem, encryptedAudioB64, encryptedAesKeyB64, ivB64).error
    ensures r.Ok? ==> fresh(r.value)
    ensures r.Ok? ==> r.value[..] == DecryptedAudio(f, privateKeyPem, encryptedAudioB64, encryptedAesKeyB64, ivB64).value
  {
    if !f.privatePemOk(privateKeyPem) {
      return Err(BadPem);
    }
    var encryptedAudioBin := f.decode64(encryptedAudioB64);
    var encryptedAesKeyBin := f.decode64(encryptedAesKeyB64);
    var ivBin := if ivB64.Some? then Some(f.decode64(ivB64.value)) else f.decode64Undefined;
    if ivBin.None? {
      return Err(MissingIv);
    }
    var aesKeyBytes := f.oaepDecrypt(privateKeyPem, encryptedAesKeyBin);
    if aesKeyBytes.None? {
      return Err(OaepFailure);
    }
    var decrypted := f.aesDecrypt(aesKeyBytes.value, ivBin.value, encryptedAudioBin);
    if decrypted.None? {
      return Err(AesFailure);
    }
    var trimmed := StripPadding(decrypted.value);
    var u8 := BinaryToU8(trimmed);
    r := Ok(u8);
  }

  /** The strip loop of `decryptAudio`: moves `end` back over the trailing NULs. */
  method StripPadding(decryptedBin: string) returns (trimmed: string)
    ensures trimmed == StripZeros(decryptedBin)
  {
    var end := |decryptedBin|;
    while end > 0 && decryptedBin[end - 1] == Nul
      invariant 0 <= end <= |decryptedBin|
      invariant StripZeros(decryptedBin[..end]) == StripZeros(decryptedBin)
    {
      assert decryptedBin[..end][..end - 1] == decryptedBin[..end - 1];
      end := end - 1;
    }
    trimmed := decryptedBin[..end];
  }

  /**
   * Audio round trip when the IV travels with the envelope: the recovered bytes are the
   * padded-then-stripped audio, which is the audio itself when it is empty or ends in a
   * non-zero byte.
   */
  lemma AudioRoundTrip(f: Forge, pub: string, priv: string, audio: seq<byte>, aesKey: string, iv: string)
    requires Sound(f, pub, priv)
    requires IsBinary(aesKey) && |aesKey| == SessionKeySize
    requires IsBinary(iv) && |iv| == BlockSize
    ensures EncryptedAudio(f, pub, audio, aesKey, iv).Ok?
    ensures var env := EncryptedAudio(f, pub, audio, aesKey, iv).value;
      DecryptedAudio(f, priv, env.encryptedAudio, env.encryptedAesKey, Some(env.iv)) == Ok(Recovered(audio))
    ensures audio == [] || audio[|audio| - 1] != 0 ==>
      (var env := EncryptedAudio(f, pub, audio, aesKey, iv).value;
       DecryptedAudio(f, priv, env.encryptedAudio, env.encryptedAesKey, Some(env.iv)) == Ok(audio))
  {
    if audio == [] || audio[|audio| - 1] != 0 {
      RecoveredExact(audio);
    }
  }

  /**
   * When the AES `finish` step reports failure `decryptAudio` throws and returns no audio;
   * before that, a key that does not parse or a session key that does not decrypt throws.
   */
  lemma AesFailureThrows(f: Forge, priv: string, encryptedAudio: string, encryptedAesKey: string, iv: string)
    ensures var r := DecryptedAudio(f, priv, encryptedAudio, encryptedAesKey, Some(iv));
            && (f.privatePemOk(priv) && f.oaepDecrypt(priv, f.decode64(encryptedAesKey)).None? ==> r == Err(OaepFailure))
            && ((f.privatePemOk(priv) && f.oaepDecrypt(priv, f.decode64(encryptedAesKey)).Some?
                 && f.aesDecrypt(f.oaepDecrypt(priv, f.decode64(encryptedAesKey)).value, f.decode64(iv),
                                 f.decode64(encryptedAudio)).None?) ==> r == Err(AesFailure))
            && (r.Ok? ==> f.privatePemOk(priv))
  {
  }

  /**
   * Leaving the IV out, as the chat window does, never yields audio when `decode64`
   * throws on `undefined` (node-forge's decoder dereferences its argument).
   */
  lemma NoIvNoAudio(f: Forge, priv: string, encryptedAudio: string, encryptedAesKey: string)
    requires f.decode64Undefined == None
    ensures DecryptedAudio(f, priv, encryptedAudio, encryptedAesKey, None).Err?
  {
  }
}
