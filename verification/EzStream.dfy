/** The `ezcrypt` stream: header, header tag, chunks with tags, final tag; and the loops that write and read it. */
module EzStream {
  import opened Bytes
  import opened Streams
  import opened EzFormat

  /** Argon2id and XChaCha20-Poly1305, as functions. */
  datatype Primitives = Primitives(
    kdf: (seq<byte>, Kdf, seq<byte>) -> seq<byte>,
    seal: (seq<byte>, seq<byte>, seq<byte>, seq<byte>) -> (seq<byte>, seq<byte>),
    unseal: (seq<byte>, seq<byte>, seq<byte>, seq<byte>, seq<byte>) -> Option<seq<byte>>)

  /** Deterministic authenticated encryption: opening inverts sealing, and opens nothing but sealed texts. */
  ghost predicate Lawful(p: Primitives)
  {
    && (forall k, n, a, m :: |p.seal(k, n, a, m).0| == |m| && |p.seal(k, n, a, m).1| == TAG_LEN)
    && (forall k, n, a, m, c, t :: p.unseal(k, n, a, c, t) == Some(m) <==> p.seal(k, n, a, m) == (c, t))
  }

  /** These assumptions can be met. */
  lemma LawfulPrimitives() returns (p: Primitives)
    ensures Lawful(p)
  {
    p := Primitives((_, _, _) => [], (_, _, _, m) => (m, Zeros(TAG_LEN)),
                    (_, _, _, c, t) => if t == Zeros(TAG_LEN) then Some(c) else None);
  }

  function SealPart(p: Primitives, h: Header, key: seq<byte>, part: Part, m: seq<byte>): (seq<byte>, seq<byte>)
    requires h.Valid()
  {
    p.seal(key, Nonce(h.noncePrefix, Counter(part)), Aad(HeaderBytes(h), part), m)
  }

  function OpenPart(p: Primitives, h: Header, key: seq<byte>, part: Part, c: seq<byte>, t: seq<byte>): Option<seq<byte>>
    requires h.Valid()
  {
    p.unseal(key, Nonce(h.noncePrefix, Counter(part)), Aad(HeaderBytes(h), part), c, t)
  }

  lemma PartLaws(p: Primitives, h: Header, key: seq<byte>, part: Part, m: seq<byte>, c: seq<byte>, t: seq<byte>)
    requires Lawful(p) && h.Valid()
    ensures OpenPart(p, h, key, part, c, t) == Some(m) <==> SealPart(p, h, key, part, m) == (c, t)
    ensures |SealPart(p, h, key, part, m).0| == |m| && |SealPart(p, h, key, part, m).1| == TAG_LEN
  {
  }

  function Frame(p: Primitives, h: Header, key: seq<byte>, part: Part, m: seq<byte>): seq<byte>
    requires h.Valid()
  {
    SealPart(p, h, key, part, m).0 + SealPart(p, h, key, part, m).1
  }

  /** The chunks from number `index` on, and the final tag. */
  function Chunks(p: Primitives, h: Header, key: seq<byte>, rest: seq<byte>, index: nat): seq<byte>
    requires h.Valid()
    decreases |rest|
  {
    if rest == [] then Frame(p, h, key, FinalPart(index), [])
    else
      var n := Min(|rest|, CHUNK_SIZE);
      Frame(p, h, key, ChunkPart(index, n), rest[..n]) + Chunks(p, h, key, rest[n..], index + 1)
  }

  function EncryptedFile(p: Primitives, h: Header, key: seq<byte>, m: seq<byte>): seq<byte>
    requires h.Valid()
  {
    HeaderBytes(h) + (Frame(p, h, key, HeaderPart, []) + Chunks(p, h, key, m, 0))
  }

  datatype Outcome = Outcome(result: Result<(), Error>, written: seq<byte>)

  /** The reading loop from chunk `index` on, with `remaining` plaintext bytes still announced. */
  function OpenChunks(p: Primitives, h: Header, key: seq<byte>, input: seq<byte>, index: nat, remaining: nat): Outcome
    requires h.Valid()
    decreases remaining
  {
    var n := Min(remaining, CHUNK_SIZE);
    if |input| < n + TAG_LEN then Outcome(Err(LengthMismatch), [])
    else if remaining > 0 then
      match OpenPart(p, h, key, ChunkPart(index, n), input[..n], input[n..n + TAG_LEN])
      case None => Outcome(Err(AuthenticationFailed), [])
      case Some(m) =>
        var rest := OpenChunks(p, h, key, input[n + TAG_LEN..], index + 1, remaining - n);
        Outcome(rest.result, m + rest.written)
    else if OpenPart(p, h, key, FinalPart(index), [], input[..TAG_LEN]).None? then Outcome(Err(AuthenticationFailed), [])
    else Outcome(if |input| > TAG_LEN then Err(LengthMismatch) else Ok(()), [])
  }

  /** `decrypt_stream` on an input whose length was given as `encryptedLen`. */
  function DecryptFile(p: Primitives, password: seq<byte>, s: seq<byte>, encryptedLen: nat): Outcome
  {
    if |s| < HEADER_LEN then Outcome(Err(TruncatedHeader), [])
    else match DecodeHeader(s[..HEADER_LEN])
      case Err(e) => Outcome(Err(e), [])
      case Ok(h) =>
        if EncodedLen(h.plaintextLen) != Ok(encryptedLen) then Outcome(Err(LengthMismatch), [])
        else if |s| < HEADER_LEN + TAG_LEN then Outcome(Err(LengthMismatch), [])
        else
          var key := p.kdf(password, h.kdf, h.salt);
          if OpenPart(p, h, key, HeaderPart, [], s[HEADER_LEN..HEADER_LEN + TAG_LEN]).None?
          then Outcome(Err(AuthenticationFailed), [])
          else OpenChunks(p, h, key, s[HEADER_LEN + TAG_LEN..], 0, h.plaintextLen)
  }

  lemma FrameParts(s: seq<byte>, c: seq<byte>, t: seq<byte>, tail: seq<byte>)
    requires |s| >= |c| + |t|
    ensures s == (c + t) + tail <==> s[..|c|] == c && s[|c|..|c| + |t|] == t && s[|c| + |t|..] == tail
  {
    if s == (c + t) + tail {
      assert s[..|c|] == c && s[|c|..|c| + |t|] == t && s[|c| + |t|..] == tail;
    }
    assert s == s[..|c|] + s[|c|..|c| + |t|] + s[|c| + |t|..];
  }

  /** A frame at the front of an input opens to what was sealed, and only such an input opens. */
  lemma FrameOpens(p: Primitives, h: Header, key: seq<byte>, part: Part, m: seq<byte>, s: seq<byte>)
    requires Lawful(p) && h.Valid() && |s| >= |m| + TAG_LEN
    ensures OpenPart(p, h, key, part, s[..|m|], s[|m|..|m| + TAG_LEN]) == Some(m)
      <==> s == Frame(p, h, key, part, m) + s[|m| + TAG_LEN..]
    ensures |Frame(p, h, key, part, m)| == |m| + TAG_LEN
  {
    hide Lawful, SealPart, OpenPart;
    PartLaws(p, h, key, part, m, s[..|m|], s[|m|..|m| + TAG_LEN]);
    var (c, t) := SealPart(p, h, key, part, m);
    FrameParts(s, c, t, s[|m| + TAG_LEN..]);
  }

  lemma OpenedLength(p: Primitives, h: Header, key: seq<byte>, part: Part, c: seq<byte>, t: seq<byte>)
    requires Lawful(p) && h.Valid()
    ensures OpenPart(p, h, key, part, c, t).Some? ==> |OpenPart(p, h, key, part, c, t).value| == |c|
  {
    var r := OpenPart(p, h, key, part, c, t);
    if r.Some? { PartLaws(p, h, key, part, r.value, c, t); }
  }

  /** Reading back the chunks of a plaintext yields it. */
  lemma {:induction false} ChunksOpen(p: Primitives, h: Header, key: seq<byte>, rest: seq<byte>, index: nat)
    requires Lawful(p) && h.Valid()
    ensures OpenChunks(p, h, key, Chunks(p, h, key, rest, index), index, |rest|) == Outcome(Ok(()), rest)
    ensures |Chunks(p, h, key, rest, index)| == |rest| + (ChunkCount(|rest|) + 1) * TAG_LEN
    decreases |rest|
  {
    hide Lawful, OpenPart, Frame;
    DivCeilStep(|rest|, CHUNK_SIZE);
    var s := Chunks(p, h, key, rest, index);
    if rest == [] {
      PartLaws(p, h, key, FinalPart(index), [], [], SealPart(p, h, key, FinalPart(index), []).1);
      assert |s| == TAG_LEN by { FrameLength(p, h, key, FinalPart(index), []); }
      FrameOpens(p, h, key, FinalPart(index), [], s);
      assert s == s + s[TAG_LEN..] && s[..0] == [] && s[0..TAG_LEN] == s[..TAG_LEN];
    } else {
      var n := Min(|rest|, CHUNK_SIZE);
      var f, more := Frame(p, h, key, ChunkPart(index, n), rest[..n]), Chunks(p, h, key, rest[n..], index + 1);
      FrameLength(p, h, key, ChunkPart(index, n), rest[..n]);
      assert s == f + more && s[n + TAG_LEN..] == more;
      FrameOpens(p, h, key, ChunkPart(index, n), rest[..n], s);
      ChunksOpen(p, h, key, rest[n..], index + 1);
      assert rest[..n] + rest[n..] == rest;
    }
  }

  lemma FrameLength(p: Primitives, h: Header, key: seq<byte>, part: Part, m: seq<byte>)
    requires Lawful(p) && h.Valid()
    ensures |Frame(p, h, key, part, m)| == |m| + TAG_LEN
  {
    PartLaws(p, h, key, part, m, [], []);
  }

  /** What is read to the end without error is the chunks of what it yields. */
  lemma {:induction false} OpenedIsChunks(p: Primitives, h: Header, key: seq<byte>, input: seq<byte>, index: nat, remaining: nat)
    requires Lawful(p) && h.Valid() && OpenChunks(p, h, key, input, index, remaining).result.Ok?
    ensures var m := OpenChunks(p, h, key, input, index, remaining).written;
            |m| == remaining && Chunks(p, h, key, m, index) == input
    decreases remaining
  {
    hide Lawful, OpenPart, Frame;
    var n := Min(remaining, CHUNK_SIZE);
    if remaining > 0 {
      var part := ChunkPart(index, n);
      OpenedLength(p, h, key, part, input[..n], input[n..n + TAG_LEN]);
      var first := OpenPart(p, h, key, part, input[..n], input[n..n + TAG_LEN]).value;
      FrameOpens(p, h, key, part, first, input);
      OpenedIsChunks(p, h, key, input[n + TAG_LEN..], index + 1, remaining - n);
      var m := OpenChunks(p, h, key, input, index, remaining).written;
      assert m[..n] == first && m[n..] == OpenChunks(p, h, key, input[n + TAG_LEN..], index + 1, remaining - n).written;
    } else {
      assert input[..0] == [] && input[0..TAG_LEN] == input[..TAG_LEN] && input[TAG_LEN..] == [];
      OpenedLength(p, h, key, FinalPart(index), [], input[..TAG_LEN]);
      FrameOpens(p, h, key, FinalPart(index), [], input);
    }
  }

  /** Round trip, with the exact length. */
  lemma DecryptOfEncrypt(p: Primitives, h: Header, password: seq<byte>, m: seq<byte>)
    requires Lawful(p) && h.Valid() && h.Validate().Ok? && |m| == h.plaintextLen
    ensures var s := EncryptedFile(p, h, p.kdf(password, h.kdf, h.salt), m);
            EncodedLen(|m|) == Ok(|s|) && DecryptFile(p, password, s, |s|) == Outcome(Ok(()), m)
  {
    hide Lawful, OpenPart, Frame, HeaderBytes, DecodeHeader, Chunks, OpenChunks, EncodedLen, ChunkCount;
    var key := p.kdf(password, h.kdf, h.salt);
    var s := EncryptedFile(p, h, key, m);
    var f, rest := Frame(p, h, key, HeaderPart, []), Chunks(p, h, key, m, 0);
    FrameLength(p, h, key, HeaderPart, []);
    HeaderCodec(s[..HEADER_LEN], h);
    assert s[..HEADER_LEN] == HeaderBytes(h) && s[HEADER_LEN..] == f + rest;
    var body := s[HEADER_LEN..];
    assert body[TAG_LEN..] == rest && body[..0] == [] && body[0..TAG_LEN] == s[HEADER_LEN..HEADER_LEN + TAG_LEN];
    FrameOpens(p, h, key, HeaderPart, [], body);
    ChunksOpen(p, h, key, m, 0);
    assert s[HEADER_LEN + TAG_LEN..] == rest;
    EncodedLenExactly(|m|);
    LengthsAgree(|m|, |s|);
  }

  lemma LengthsAgree(len: nat, total: nat)
    requires len < U64_END && EncodedLen(len).Ok?
    requires total == HEADER_LEN + TAG_LEN + (len + (ChunkCount(len) + 1) * TAG_LEN)
    ensures EncodedLen(len) == Ok(total)
  {
  }

  /** Canonicity: an accepted input is the encrypted file of what it yields. */
  lemma AcceptedIsEncrypted(p: Primitives, password: seq<byte>, s: seq<byte>, encryptedLen: nat) returns (h: Header)
    requires Lawful(p) && DecryptFile(p, password, s, encryptedLen).result.Ok?
    ensures h.Valid() && h.Validate().Ok?
    ensures var m := DecryptFile(p, password, s, encryptedLen).written;
            |m| == h.plaintextLen && s == EncryptedFile(p, h, p.kdf(password, h.kdf, h.salt), m) && |s| == encryptedLen
  {
    hide Lawful, OpenPart, Frame, HeaderBytes, Chunks, OpenChunks, EncodedLen;
    h := DecodeHeader(s[..HEADER_LEN]).value;
    var key := p.kdf(password, h.kdf, h.salt);
    HeaderCodec(s[..HEADER_LEN], h);
    var body := s[HEADER_LEN..];
    assert body[..0] == [] && body[0..TAG_LEN] == s[HEADER_LEN..HEADER_LEN + TAG_LEN];
    OpenedLength(p, h, key, HeaderPart, [], body[0..TAG_LEN]);
    FrameOpens(p, h, key, HeaderPart, [], body);
    assert body[TAG_LEN..] == s[HEADER_LEN + TAG_LEN..];
    OpenedIsChunks(p, h, key, body[TAG_LEN..], 0, h.plaintextLen);
    assert s == s[..HEADER_LEN] + body;
    DecryptOfEncrypt(p, h, password, DecryptFile(p, password, s, encryptedLen).written);
  }
}
