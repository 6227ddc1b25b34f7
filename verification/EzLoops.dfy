/** The `ezcrypt` loops over readers, writers and an in-place buffer, proved to compute the stream. */
module EzLoops {
  import opened Bytes
  import opened Streams
  import opened EzFormat
  import opened EzStream

  /** `encrypt_in_place_detached` for one part of the file. */
  method SealInPlace(p: Primitives, h: Header, headerBytes: seq<byte>, key: seq<byte>, part: Part, buffer: array<byte>)
    returns (tag: seq<byte>)
    requires Lawful(p) && h.Valid() && headerBytes == HeaderBytes(h)
    modifies buffer
    ensures SealPart(p, h, key, part, old(buffer[..])) == (buffer[..], tag)
  {
    PartLaws(p, h, key, part, buffer[..], [], []);
    var (c, t) := p.seal(key, Nonce(h.noncePrefix, Counter(part)), Aad(headerBytes, part), buffer[..]);
    CopyInto(buffer, 0, c);
    assert buffer[..] == buffer[0..0 + |c|];
    return t;
  }

  /** `decrypt_in_place_detached`. */
  method OpenInPlace(p: Primitives, h: Header, headerBytes: seq<byte>, key: seq<byte>, part: Part, buffer: array<byte>, tag: seq<byte>)
    returns (ok: bool)
    requires Lawful(p) && h.Valid() && headerBytes == HeaderBytes(h)
    modifies buffer
    ensures ok <==> OpenPart(p, h, key, part, old(buffer[..]), tag).Some?
    ensures ok ==> OpenPart(p, h, key, part, old(buffer[..]), tag) == Some(buffer[..])
  {
    OpenedLength(p, h, key, part, buffer[..], tag);
    var m := p.unseal(key, Nonce(h.noncePrefix, Counter(part)), Aad(headerBytes, part), buffer[..], tag);
    if m.None? { return false; }
    CopyInto(buffer, 0, m.value);
    assert buffer[..] == buffer[0..0 + |m.value|];
    return true;
  }

  method WriteTwo(writer: Writer, a: seq<byte>, b: seq<byte>) returns (ok: bool)
    modifies writer`out
    ensures ok ==> writer.out == old(writer.out) + (a + b)
    ensures writer.capacity.None? ==> ok
  {
    ok := writer.WriteAll(a);
    if !ok { return; }
    ok := writer.WriteAll(b);
    assert old(writer.out) + a + b == old(writer.out) + (a + b);
  }

  /** One part that carries no text: a tag alone. */
  method WriteTag(p: Primitives, writer: Writer, h: Header, headerBytes: seq<byte>, key: seq<byte>, part: Part) returns (ok: bool)
    requires Lawful(p) && h.Valid() && headerBytes == HeaderBytes(h)
    modifies writer`out
    ensures ok ==> writer.out == old(writer.out) + Frame(p, h, key, part, [])
    ensures writer.capacity.None? ==> ok
  {
    hide Lawful, SealPart, HeaderBytes;
    var empty := new byte[0];
    assert empty[..] == [];
    var tag := SealInPlace(p, h, headerBytes, key, part, empty);
    assert Frame(p, h, key, part, []) == tag;
    ok := writer.WriteAll(tag);
  }

  /** One iteration of the encrypting loop. */
  method EncryptChunk(p: Primitives, reader: Reader, writer: Writer, h: Header, headerBytes: seq<byte>, key: seq<byte>,
                      index: nat, n: nat) returns (r: Result<(), Error>)
    requires Lawful(p) && h.Valid() && headerBytes == HeaderBytes(h) && reader.Valid()
    modifies reader`pos, writer`out
    ensures reader.Valid()
    ensures r.Ok? ==>
      && reader.pos == old(reader.pos) + n
      && writer.out == old(writer.out) + Frame(p, h, key, ChunkPart(index, n), reader.data[old(reader.pos)..reader.pos])
    ensures r.Err? ==> r.error == InputChanged || r.error == Io
    ensures reader.fault.None? && writer.capacity.None? ==>
      r == if old(reader.pos) + n <= |reader.data| then Ok(()) else Err(InputChanged)
  {
    hide Lawful, SealPart, HeaderBytes;
    var buffer := new byte[n];
    var filled := reader.ReadExact(buffer);
    if filled.Err? { return Err(if filled.error == UnexpectedEof then InputChanged else Io); }
    var tag := SealInPlace(p, h, headerBytes, key, ChunkPart(index, n), buffer);
    var ok := WriteTwo(writer, buffer[..], tag);
    return if ok then Ok(()) else Err(Io);
  }

  /** The chunk loop, the check that the input ends there, and the final tag. */
  method EncryptChunks(p: Primitives, reader: Reader, writer: Writer, h: Header, headerBytes: seq<byte>, key: seq<byte>)
    returns (r: Result<(), Error>)
    requires Lawful(p) && h.Valid() && headerBytes == HeaderBytes(h) && reader.Valid() && reader.pos == 0
    modifies reader`pos, writer`out
    ensures r.Ok? ==> |reader.data| == h.plaintextLen && writer.out == old(writer.out) + Chunks(p, h, key, reader.data, 0)
    ensures r.Err? ==> r.error == InputChanged || r.error == Io
    ensures reader.fault.None? && writer.capacity.None? ==>
      r == if |reader.data| == h.plaintextLen then Ok(()) else Err(InputChanged)
  {
    hide Lawful, HeaderBytes, Frame, Chunks;
    var chunks := ChunkCount(h.plaintextLen);
    ghost var start, done := writer.out, [];
    for index := 0 to chunks
      invariant reader.Valid() && reader.pos == Min(index * CHUNK_SIZE, h.plaintextLen)
      invariant writer.out == start + done
      invariant |reader.data| == h.plaintextLen ==>
        done + Chunks(p, h, key, reader.data[reader.pos..], index) == Chunks(p, h, key, reader.data, 0)
    {
      ChunkAt(h.plaintextLen, index);
      var n := ChunkLen(h.plaintextLen, index).value;
      ghost var at, before := reader.pos, writer.out;
      r := EncryptChunk(p, reader, writer, h, headerBytes, key, index, n);
      if r.Err? { return; }
      ghost var frame := Frame(p, h, key, ChunkPart(index, n), reader.data[at..reader.pos]);
      if |reader.data| == h.plaintextLen {
        NextChunk(p, h, key, reader.data, at, index, n);
        assert done + (frame + Chunks(p, h, key, reader.data[reader.pos..], index + 1))
            == (done + frame) + Chunks(p, h, key, reader.data[reader.pos..], index + 1);
      }
      done := done + frame;
      assert writer.out == start + done;
    }
    CountBounds(h.plaintextLen);
    var extra := reader.Probe();
    if extra.Err? { return Err(Io); }
    if extra.value { return Err(InputChanged); }
    assert |reader.data| == h.plaintextLen;
    var ok := WriteTag(p, writer, h, headerBytes, key, FinalPart(chunks));
    if !ok { return Err(Io); }
    assert reader.data[h.plaintextLen..] == [];
    LastChunk(p, h, key, chunks);
    assert start + done + Frame(p, h, key, FinalPart(chunks), []) == start + (done + Frame(p, h, key, FinalPart(chunks), []));
    return Ok(());
  }

  /** The chunk that starts at a multiple of the chunk size. */
  lemma ChunkAt(len: nat, index: nat)
    requires len < U64_END && index < ChunkCount(len)
    ensures Min(index * CHUNK_SIZE, len) == index * CHUNK_SIZE
    ensures ChunkLen(len, index) == Ok(Min(len - index * CHUNK_SIZE, CHUNK_SIZE)) && ChunkLen(len, index).value > 0
    ensures Min((index + 1) * CHUNK_SIZE, len) == index * CHUNK_SIZE + ChunkLen(len, index).value
  {
    ChunksPartition(len, index);
  }

  lemma NextChunk(p: Primitives, h: Header, key: seq<byte>, data: seq<byte>, at: nat, index: nat, n: nat)
    requires h.Valid() && at < |data| && n == Min(|data| - at, CHUNK_SIZE)
    ensures Chunks(p, h, key, data[at..], index)
         == Frame(p, h, key, ChunkPart(index, n), data[at..at + n]) + Chunks(p, h, key, data[at + n..], index + 1)
  {
    assert data[at..][..n] == data[at..at + n] && data[at..][n..] == data[at + n..];
  }

  lemma LastChunk(p: Primitives, h: Header, key: seq<byte>, index: nat)
    requires h.Valid()
    ensures Chunks(p, h, key, [], index) == Frame(p, h, key, FinalPart(index), [])
  {
  }

  /** `encrypt_stream`. */
  method EncryptStream(p: Primitives, reader: Reader, writer: Writer, plaintextLen: nat, password: seq<byte>, kdf: Kdf,
                       salt: seq<byte>, noncePrefix: seq<byte>) returns (r: Result<nat, Error>)
    requires Lawful(p) && reader.Valid() && reader.pos == 0
    requires plaintextLen < U64_END && kdf.Valid() && |salt| == |noncePrefix| == 16
    modifies reader`pos, writer`out
    ensures var h := Header(plaintextLen, kdf, salt, noncePrefix);
            && (r.Ok? ==>
                  && |reader.data| == plaintextLen && h.Validate().Ok?
                  && writer.out == old(writer.out) + EncryptedFile(p, h, p.kdf(password, kdf, salt), reader.data)
                  && r == EncodedLen(plaintextLen))
            && (reader.fault.None? && writer.capacity.None? ==>
                  if h.Validate().Err? then r == Err(h.Validate().error)
                  else if |reader.data| == plaintextLen then r.Ok?
                  else r == Err(InputChanged))
  {
    hide Lawful, HeaderBytes, Frame, Chunks, EncodedLen;
    var h := Header(plaintextLen, kdf, salt, noncePrefix);
    var valid := h.Validate();
    if valid.Err? { return Err(valid.error); }
    var headerBytes := HeaderBytes(h);
    var key := p.kdf(password, kdf, salt);
    ghost var start := writer.out;
    var ok := writer.WriteAll(headerBytes);
    if !ok { return Err(Io); }
    ok := WriteTag(p, writer, h, headerBytes, key, HeaderPart);
    if !ok { return Err(Io); }
    var done := EncryptChunks(p, reader, writer, h, headerBytes, key);
    if done.Err? { return Err(done.error); }
    ghost var tag, rest := Frame(p, h, key, HeaderPart, []), Chunks(p, h, key, reader.data, 0);
    assert start + headerBytes + tag + rest == start + (headerBytes + (tag + rest));
    return EncodedLen(plaintextLen);
  }

  /** `verify_empty` on the next tag of the input. */
  method CheckTag(p: Primitives, reader: Reader, h: Header, headerBytes: seq<byte>, key: seq<byte>, part: Part)
    returns (r: Result<(), Error>)
    requires Lawful(p) && h.Valid() && headerBytes == HeaderBytes(h) && reader.Valid()
    modifies reader`pos
    ensures reader.Valid()
    ensures r.Ok? ==>
      && reader.pos == old(reader.pos) + TAG_LEN
      && OpenPart(p, h, key, part, [], reader.data[old(reader.pos)..reader.pos]).Some?
    ensures reader.fault.None? ==>
      r == if |reader.data| - old(reader.pos) < TAG_LEN then Err(LengthMismatch)
           else if OpenPart(p, h, key, part, [], reader.data[old(reader.pos)..old(reader.pos) + TAG_LEN]).None?
           then Err(AuthenticationFailed) else Ok(())
  {
    hide Lawful, OpenPart, HeaderBytes;
    var tag := new byte[TAG_LEN];
    var filled := reader.ReadExact(tag);
    if filled.Err? { return Err(if filled.error == UnexpectedEof then LengthMismatch else Io); }
    var empty := new byte[0];
    assert empty[..] == [];
    var ok := OpenInPlace(p, h, headerBytes, key, part, empty, tag[..]);
    return if ok then Ok(()) else Err(AuthenticationFailed);
  }

  /** One iteration of the decrypting loop: a chunk is written only after its tag has been checked. */
  method DecryptChunk(p: Primitives, reader: Reader, h: Header, headerBytes: seq<byte>, key: seq<byte>, index: nat, n: nat)
    returns (r: Result<seq<byte>, Error>)
    requires Lawful(p) && h.Valid() && headerBytes == HeaderBytes(h) && reader.Valid()
    modifies reader`pos
    ensures reader.Valid()
    ensures r.Ok? ==>
      && reader.pos == old(reader.pos) + n + TAG_LEN
      && OpenPart(p, h, key, ChunkPart(index, n), reader.data[old(reader.pos)..old(reader.pos) + n],
                  reader.data[old(reader.pos) + n..reader.pos]) == Some(r.value)
    ensures r.Err? && reader.fault.None? ==>
      if |reader.data| - old(reader.pos) < n + TAG_LEN then r.error == LengthMismatch
      else
        && r.error == AuthenticationFailed
        && OpenPart(p, h, key, ChunkPart(index, n), reader.data[old(reader.pos)..old(reader.pos) + n],
                    reader.data[old(reader.pos) + n..old(reader.pos) + n + TAG_LEN]).None?
  {
    hide Lawful, OpenPart, HeaderBytes;
    var buffer := new byte[n];
    var filled := reader.ReadExact(buffer);
    if filled.Err? { return Err(if filled.error == UnexpectedEof then LengthMismatch else Io); }
    var tag := new byte[TAG_LEN];
    filled := reader.ReadExact(tag);
    if filled.Err? { return Err(if filled.error == UnexpectedEof then LengthMismatch else Io); }
    var ok := OpenInPlace(p, h, headerBytes, key, ChunkPart(index, n), buffer, tag[..]);
    if !ok { return Err(AuthenticationFailed); }
    return Ok(buffer[..]);
  }

  /** One step of the specification of the decrypting loop. */
  lemma OpenStep(p: Primitives, h: Header, key: seq<byte>, data: seq<byte>, at: nat, index: nat, remaining: nat)
    requires h.Valid() && at <= |data| && remaining > 0
    ensures var n := Min(remaining, CHUNK_SIZE);
            var mid, end := at + n, at + n + TAG_LEN;
            OpenChunks(p, h, key, data[at..], index, remaining) ==
              if |data| < end then Outcome(Err(LengthMismatch), [])
              else match OpenPart(p, h, key, ChunkPart(index, n), data[at..mid], data[mid..end])
                case None => Outcome(Err(AuthenticationFailed), [])
                case Some(m) =>
                  var rest := OpenChunks(p, h, key, data[end..], index + 1, remaining - n);
                  Outcome(rest.result, m + rest.written)
  {
    hide OpenPart;
    var n := Min(remaining, CHUNK_SIZE);
    if |data| >= at + n + TAG_LEN {
      assert data[at..] == data[at..|data|];
      SubSlice(data, at, |data|, 0, n);
      SubSlice(data, at, |data|, n, n + TAG_LEN);
      assert data[at..][n + TAG_LEN..] == data[at + n + TAG_LEN..];
    }
  }

  /** The chunk loop, the final tag, and the check that nothing follows it. */
  method DecryptChunks(p: Primitives, reader: Reader, writer: Writer, h: Header, headerBytes: seq<byte>, key: seq<byte>)
    returns (r: Result<(), Error>)
    requires Lawful(p) && h.Valid() && headerBytes == HeaderBytes(h) && reader.Valid()
    modifies reader`pos, writer`out
    ensures var spec := OpenChunks(p, h, key, old(reader.Rest()), 0, h.plaintextLen);
            && old(writer.out) <= writer.out <= old(writer.out) + spec.written
            && (r.Ok? ==> spec.result.Ok? && writer.out == old(writer.out) + spec.written)
            && (reader.fault.None? && writer.capacity.None? ==>
                  r == spec.result && writer.out == old(writer.out) + spec.written)
  {
    hide Lawful, HeaderBytes, OpenChunks, OpenPart, ChunkCount;
    var chunks := ChunkCount(h.plaintextLen);
    ghost var spec := OpenChunks(p, h, key, reader.Rest(), 0, h.plaintextLen);
    ghost var whole := writer.out + spec.written;
    ghost var left: nat := h.plaintextLen;
    assert left == h.plaintextLen - 0 * CHUNK_SIZE;
    for index := 0 to chunks
      invariant reader.Valid() && left == h.plaintextLen - Min(index * CHUNK_SIZE, h.plaintextLen)
      invariant old(writer.out) <= writer.out
      invariant spec.result == OpenChunks(p, h, key, reader.data[reader.pos..], index, left).result
      invariant writer.out + OpenChunks(p, h, key, reader.data[reader.pos..], index, left).written == whole
    {
      ChunkAt(h.plaintextLen, index);
      var n := ChunkLen(h.plaintextLen, index).value;
      OpenStep(p, h, key, reader.data, reader.pos, index, left);
      ghost var before := writer.out;
      var chunk := DecryptChunk(p, reader, h, headerBytes, key, index, n);
      if chunk.Err? { return Err(chunk.error); }
      ghost var later := OpenChunks(p, h, key, reader.data[reader.pos..], index + 1, left - n).written;
      var ok := writer.WriteAll(chunk.value);
      StillPrefix(old(writer.out), before, writer.out, chunk.value, later, whole);
      if !ok { return Err(Io); }
      left := left - n;
    }
    CountBounds(h.plaintextLen);
    r := DecryptEnd(p, reader, h, headerBytes, key, chunks);
  }

  method DecryptEnd(p: Primitives, reader: Reader, h: Header, headerBytes: seq<byte>, key: seq<byte>, chunks: nat)
    returns (r: Result<(), Error>)
    requires Lawful(p) && h.Valid() && headerBytes == HeaderBytes(h) && reader.Valid()
    modifies reader`pos
    ensures OpenChunks(p, h, key, old(reader.Rest()), chunks, 0).written == []
    ensures r.Ok? || reader.fault.None? ==> r == OpenChunks(p, h, key, old(reader.Rest()), chunks, 0).result
  {
    hide Lawful, HeaderBytes, OpenPart;
    ghost var input := reader.Rest();
    r := CheckTag(p, reader, h, headerBytes, key, FinalPart(chunks));
    assert |input| >= TAG_LEN ==> input[..TAG_LEN] == reader.data[old(reader.pos)..old(reader.pos) + TAG_LEN];
    if r.Err? { return; }
    var extra := reader.Probe();
    if extra.Err? { return Err(Io); }
    return if extra.value then Err(LengthMismatch) else Ok(());
  }

  /** `decrypt_stream`. */
  method DecryptStream(p: Primitives, reader: Reader, writer: Writer, encryptedLen: nat, password: seq<byte>)
    returns (r: Result<nat, Error>)
    requires Lawful(p) && reader.Valid() && reader.pos == 0
    modifies reader`pos, writer`out
    ensures var spec := DecryptFile(p, password, reader.data, encryptedLen);
            && old(writer.out) <= writer.out <= old(writer.out) + spec.written
            && (r.Ok? ==> spec.result.Ok? && writer.out == old(writer.out) + spec.written && r.value == |spec.written|)
            && (reader.fault.None? && writer.capacity.None? ==>
                  && writer.out == old(writer.out) + spec.written
                  && (r.Ok? <==> spec.result.Ok?) && (r.Err? ==> spec.result == Err(r.error)))
  {
    hide Lawful, HeaderBytes, OpenPart, OpenChunks, DecodeHeader, EncodedLen;
    ghost var data := reader.data;
    var bytes := new byte[HEADER_LEN];
    var filled := reader.ReadExact(bytes);
    if filled.Err? { return Err(if filled.error == UnexpectedEof then TruncatedHeader else Io); }
    assert bytes[..] == data[..HEADER_LEN];
    var decoded := DecodeHeader(bytes[..]);
    if decoded.Err? { return Err(decoded.error); }
    var h := decoded.value;
    HeaderCodec(bytes[..], h);
    var len := EncodedLen(h.plaintextLen);
    if len.Err? { return Err(len.error); }
    if len.value != encryptedLen { return Err(LengthMismatch); }
    var key := p.kdf(password, h.kdf, h.salt);
    var checked := CheckTag(p, reader, h, bytes[..], key, HeaderPart);
    if checked.Err? { return Err(checked.error); }
    ghost var spec := OpenChunks(p, h, key, reader.Rest(), 0, h.plaintextLen);
    var done := DecryptChunks(p, reader, writer, h, bytes[..], key);
    if done.Err? { return Err(done.error); }
    OpenedIsChunks(p, h, key, data[HEADER_LEN + TAG_LEN..], 0, h.plaintextLen);
    return Ok(h.plaintextLen);
  }
}
