/** The `algos` loops over readers, writers and in-place buffers, proved to compute the record stream. */
module AlgosLoops {
  import opened Bytes
  import opened Streams
  import opened AlgosSuites
  import opened AlgosKdf
  import opened AlgosCrypto
  import opened AlgosFormat
  import opened AlgosEnvelope

  method SealRecord(p: Primitives, h: Header, headerBytes: seq<byte>, recordBytes: seq<byte>, record: RecordHeader,
                    master: seq<byte>, macKey: Option<seq<byte>>, data: array<byte>)
    returns (r: Result<seq<byte>, Error>)
    requires Lawful(p) && h.Valid() && record.Valid()
    requires headerBytes == HeaderBytes(h) && recordBytes == RecordBytes(record)
    requires macKey == FileMacKey(p, master, h.suite)
    modifies data
    ensures match SealOf(p, h, master, record, old(data[..]))
            case Ok((c, t)) => r == Ok(t) && data[..] == c
            case Err(e) => r == Err(e)
  {
    hide Lawful, HeaderBytes, RecordBytes, Sealed, FileMacKey, RecordKey, RecordAad, RecordNonce;
    var aad := RecordAad(headerBytes, recordBytes);
    var nonce := ComputeRecordNonce(h.nonceSeed, NonceLen(h.suite), record.index);
    var key := RecordKey(p, master, h.suite, record.index);
    r := Seal(p, h.suite, key, macKey, nonce.value, aad, data);
  }

  method WriteThree(writer: Writer, a: seq<byte>, b: seq<byte>, c: seq<byte>) returns (ok: bool)
    modifies writer`out
    ensures ok ==> writer.out == old(writer.out) + (a + b + c)
    ensures writer.capacity.None? ==> ok
    ensures old(writer.out) <= writer.out <= old(writer.out) + (a + b + c)
  {
    ghost var start := writer.out;
    ok := writer.WriteAll(a);
    assert start + (a + b + c) == (start + a) + (b + c);
    if !ok { return; }
    assert writer.out == start + a;
    ok := writer.WriteAll(b);
    assert start + (a + b + c) == (start + a + b) + c;
    if !ok { return; }
    ok := writer.WriteAll(c);
  }

  method WriteSealedRecord(p: Primitives, writer: Writer, h: Header, headerBytes: seq<byte>, record: RecordHeader,
                           master: seq<byte>, macKey: Option<seq<byte>>, data: array<byte>)
    returns (r: Result<(), Error>)
    requires Lawful(p) && h.Valid() && record.Valid() && data.Length <= CHUNK_SIZE
    requires headerBytes == HeaderBytes(h) && macKey == FileMacKey(p, master, h.suite)
    modifies writer`out, data
    ensures r.Ok? ==> writer.out == old(writer.out) + SealedRecord(p, h, master, record, old(data[..]))
    ensures writer.capacity.None? ==> r.Ok?
    ensures r.Err? ==> r.error == Io
    ensures old(writer.out) <= writer.out <= old(writer.out) + SealedRecord(p, h, master, record, old(data[..]))
  {
    hide Lawful, HeaderBytes, RecordBytes, SealOf, OpenOf, FileMacKey;
    OpenOfSeal(p, h, master, record, data[..]);
    ghost var sealed := SealedRecord(p, h, master, record, data[..]);
    var recordBytes := EncodeRecord(record);
    var tag := SealRecord(p, h, headerBytes, recordBytes[..], record, master, macKey, data);
    assert sealed == recordBytes[..] + data[..] + tag.value;
    var ok := WriteThree(writer, recordBytes[..], data[..], tag.value);
    r := if ok then Ok(()) else Err(Io);
  }

  /** One iteration: read a chunk, seal it in place, write the record. */
  method EncryptChunk(p: Primitives, reader: Reader, writer: Writer, h: Header, headerBytes: seq<byte>,
                      master: seq<byte>, macKey: Option<seq<byte>>, index: nat, length: nat)
    returns (r: Result<(), Error>)
    requires Lawful(p) && h.Valid() && reader.Valid() && index < U64_END && 0 < length <= CHUNK_SIZE
    requires headerBytes == HeaderBytes(h) && macKey == FileMacKey(p, master, h.suite)
    modifies reader`pos, writer`out
    ensures reader.Valid()
    ensures r.Err? ==> r.error == InputChanged || r.error == Io
    ensures r.Err? && reader.fault.None? && writer.capacity.None? ==>
      r.error == InputChanged && old(reader.pos) + length > |reader.data|
    ensures r.Ok? ==> reader.pos == old(reader.pos) + length
    ensures old(reader.pos) + length > |reader.data| ==> r.Err? && writer.out == old(writer.out)
    ensures old(reader.pos) + length <= |reader.data| ==>
      var record := SealedRecord(p, h, master, DataRecord(index, length), reader.data[old(reader.pos)..old(reader.pos) + length]);
      && old(writer.out) <= writer.out <= old(writer.out) + record
      && (r.Ok? ==> writer.out == old(writer.out) + record)
  {
    hide Lawful, HeaderBytes, RecordBytes, SealedRecord, FileMacKey;
    var buffer := new byte[length];
    var filled := reader.ReadExact(buffer);
    if filled.Err? {
      return Err(if filled.error == UnexpectedEof then InputChanged else Io);
    }
    r := WriteSealedRecord(p, writer, h, headerBytes, DataRecord(index, length), master, macKey, buffer);
  }

  /** Encrypts exactly `plaintextLen` bytes; an input of any other length is reported as changed. */
  method EncryptStream(p: Primitives, suite: Suite, reader: Reader, writer: Writer, plaintextLen: nat,
                       master: seq<byte>, salt: seq<byte>, nonceSeed: seq<byte>) returns (r: Result<(), Error>)
    requires Lawful(p) && plaintextLen < U64_END && |salt| == 16 && |nonceSeed| == 24
    requires reader.Valid() && reader.pos == 0
    modifies reader`pos, writer`out
    ensures r.Ok? ==>
      && |reader.data| == plaintextLen
      && writer.out == old(writer.out) + EncryptedFile(p, Header(suite, plaintextLen, salt, nonceSeed), master, reader.data)
    ensures r == Err(FileTooLarge) <==> Header(suite, plaintextLen, salt, nonceSeed).ExpectedEncryptedLen().Err?
    ensures r == Err(FileTooLarge) ==> writer.out == old(writer.out)
    ensures reader.fault.None? && writer.capacity.None? && r != Err(FileTooLarge) ==>
      r == if |reader.data| == plaintextLen then Ok(()) else Err(InputChanged)
    ensures |reader.data| >= plaintextLen ==>
      old(writer.out) <= writer.out <= old(writer.out)
        + EncryptedFile(p, Header(suite, plaintextLen, salt, nonceSeed), master, reader.data[..plaintextLen])
  {
    hide Lawful, HeaderBytes, RecordBytes, SealedRecord, FileMacKey;
    var header := Header(suite, plaintextLen, salt, nonceSeed);
    CountFits(header);
    if header.ExpectedEncryptedLen().Err? { return Err(FileTooLarge); }
    var encoded := EncodeHeader(header);
    var headerBytes := encoded[..];
    ghost var start := writer.out;
    var ok := writer.WriteAll(headerBytes);
    if |reader.data| >= plaintextLen {
      ghost var records := Records(p, header, master, reader.data[..plaintextLen], 0);
      assert start + EncryptedFile(p, header, master, reader.data[..plaintextLen]) == start + headerBytes + records;
    }
    if !ok { return Err(Io); }
    r := EncryptRecords(p, reader, writer, header, headerBytes, master);
    if r.Ok? { assert reader.data[..plaintextLen] == reader.data; }
  }

  /** The specification of the record loop, one chunk at a time. */
  lemma RecordsStep(p: Primitives, h: Header, master: seq<byte>, data: seq<byte>, at: nat, end: nat, index: nat)
    requires Lawful(p) && h.Valid() && at < end <= |data| && index + DivCeil(end - at, CHUNK_SIZE) < U64_END
    ensures var n := Min(end - at, CHUNK_SIZE);
            && index + 1 + DivCeil(end - at - n, CHUNK_SIZE) < U64_END
            && Records(p, h, master, data[at..end], index)
               == SealedRecord(p, h, master, DataRecord(index, n), data[at..at + n])
                  + Records(p, h, master, data[at + n..end], index + 1)
  {
    hide Lawful, HeaderBytes, SealedRecord;
    DivCeilStep(end - at, CHUNK_SIZE);
    var n := Min(end - at, CHUNK_SIZE);
    assert data[at..end][..n] == data[at..at + n] && data[at..end][n..] == data[at + n..end];
  }

  lemma RecordsEnd(p: Primitives, h: Header, master: seq<byte>, index: nat)
    requires Lawful(p) && h.Valid() && index < U64_END
    ensures DivCeil(0, CHUNK_SIZE) == 0
    ensures Records(p, h, master, [], index) == SealedRecord(p, h, master, FinalRecord(index), [])
  {
  }

  /** The loop over data records. */
  method EncryptData(p: Primitives, reader: Reader, writer: Writer, header: Header, headerBytes: seq<byte>,
                     master: seq<byte>, macKey: Option<seq<byte>>) returns (r: Result<(), Error>)
    requires Lawful(p) && header.Valid() && headerBytes == HeaderBytes(header) && macKey == FileMacKey(p, master, header.suite)
    requires header.DataRecordCount() + 1 < U64_END
    requires reader.Valid() && reader.pos == 0
    modifies reader`pos, writer`out
    ensures reader.Valid() && old(writer.out) <= writer.out
    ensures r.Ok? ==> reader.pos == header.plaintextLen <= |reader.data|
    ensures r.Err? ==> r.error == InputChanged || r.error == Io
    ensures reader.fault.None? && writer.capacity.None? ==>
      r == if |reader.data| >= header.plaintextLen then Ok(()) else Err(InputChanged)
    ensures |reader.data| >= header.plaintextLen ==>
      var whole := old(writer.out) + Records(p, header, master, reader.data[..header.plaintextLen], 0);
      && old(writer.out) <= writer.out <= whole
      && (r.Ok? ==> writer.out + SealedRecord(p, header, master, FinalRecord(header.DataRecordCount()), []) == whole)
  {
    hide Lawful, HeaderBytes, RecordBytes, SealedRecord, FileMacKey, DivCeil, Records;
    ghost var start, len := writer.out, header.plaintextLen;
    ghost var whole := if |reader.data| >= len then start + Records(p, header, master, reader.data[..len], 0) else [];
    var remaining := header.plaintextLen;
    var index := 0;
    while remaining > 0
      invariant 0 <= remaining <= len && reader.Valid() && reader.pos == len - remaining
      invariant index + DivCeil(remaining, CHUNK_SIZE) == header.DataRecordCount()
      invariant start <= writer.out
      invariant |reader.data| >= len ==>
        writer.out + Records(p, header, master, reader.data[reader.pos..len], index) == whole
    {
      DivCeilStep(remaining, CHUNK_SIZE);
      var length := Min(remaining, CHUNK_SIZE);
      ghost var at, before := reader.pos, writer.out;
      r := EncryptChunk(p, reader, writer, header, headerBytes, master, macKey, index, length);
      if |reader.data| >= len {
        RecordsStep(p, header, master, reader.data, at, len, index);
        ghost var record := SealedRecord(p, header, master, DataRecord(index, length), reader.data[at..at + length]);
        ghost var more := Records(p, header, master, reader.data[at + length..len], index + 1);
        StillPrefix(start, before, writer.out, record, more, whole);
      }
      if r.Err? { return; }
      remaining := remaining - length;
      index := index + 1;
    }
    // The count of records written is the announced one: the mismatch branch of `encrypt_stream` is dead.
    RecordsEnd(p, header, master, index);
    assert index == header.DataRecordCount();
    assert |reader.data| >= len ==> reader.data[len..len] == [];
    return Ok(());
  }

  /** The final record, and the check that the input ended where it said it would. */
  method EncryptFinal(p: Primitives, reader: Reader, writer: Writer, header: Header, headerBytes: seq<byte>,
                      master: seq<byte>, macKey: Option<seq<byte>>, index: nat) returns (r: Result<(), Error>)
    requires Lawful(p) && header.Valid() && headerBytes == HeaderBytes(header) && macKey == FileMacKey(p, master, header.suite)
    requires index < U64_END && reader.Valid() && reader.pos == header.plaintextLen
    modifies reader`pos, writer`out
    ensures r.Ok? ==> |reader.data| == header.plaintextLen
    ensures r.Err? ==> r.error == InputChanged || r.error == Io
    ensures reader.fault.None? && writer.capacity.None? ==>
      r == if |reader.data| == header.plaintextLen then Ok(()) else Err(InputChanged)
    ensures var record := SealedRecord(p, header, master, FinalRecord(index), []);
            && old(writer.out) <= writer.out <= old(writer.out) + record
            && (r.Ok? ==> writer.out == old(writer.out) + record)
  {
    hide Lawful, HeaderBytes, RecordBytes, SealedRecord, FileMacKey;
    var empty := new byte[0];
    assert empty[..] == [];
    r := WriteSealedRecord(p, writer, header, headerBytes, FinalRecord(index), master, macKey, empty);
    if r.Err? { return; }
    var extra := reader.Probe();
    if extra.Err? { return Err(Io); }
    if extra.value { return Err(InputChanged); }
    return Ok(());
  }

  /** All records of a stream. */
  method EncryptRecords(p: Primitives, reader: Reader, writer: Writer, header: Header, headerBytes: seq<byte>,
                        master: seq<byte>) returns (r: Result<(), Error>)
    requires Lawful(p) && header.Valid() && headerBytes == HeaderBytes(header)
    requires header.DataRecordCount() + 1 < U64_END
    requires reader.Valid() && reader.pos == 0
    modifies reader`pos, writer`out
    ensures r.Ok? ==>
      && |reader.data| == header.plaintextLen
      && writer.out == old(writer.out) + Records(p, header, master, reader.data[..header.plaintextLen], 0)
    ensures r.Err? ==> r.error == InputChanged || r.error == Io
    ensures reader.fault.None? && writer.capacity.None? ==>
      r == if |reader.data| == header.plaintextLen then Ok(()) else Err(InputChanged)
    ensures |reader.data| >= header.plaintextLen ==>
      old(writer.out) <= writer.out
        <= old(writer.out) + Records(p, header, master, reader.data[..header.plaintextLen], 0)
    ensures old(writer.out) <= writer.out
  {
    hide Lawful, HeaderBytes, RecordBytes, SealedRecord, FileMacKey, DivCeil, Records;
    var macKey := FileMacKey(p, master, header.suite);
    r := EncryptData(p, reader, writer, header, headerBytes, master, macKey);
    if r.Err? { return; }
    r := EncryptFinal(p, reader, writer, header, headerBytes, master, macKey, header.DataRecordCount());
  }

  method OpenRecord(p: Primitives, h: Header, headerBytes: seq<byte>, recordBytes: seq<byte>, record: RecordHeader,
                    master: seq<byte>, macKey: Option<seq<byte>>, ciphertext: array<byte>, tag: seq<byte>)
    returns (r: Result<(), Error>)
    requires Lawful(p) && h.Valid() && record.Valid()
    requires headerBytes == HeaderBytes(h) && recordBytes == RecordBytes(record)
    requires macKey == FileMacKey(p, master, h.suite)
    modifies ciphertext
    ensures match OpenOf(p, h, master, record, old(ciphertext[..]), tag)
            case Ok(m) => r == Ok(()) && ciphertext[..] == m
            case Err(e) => r == Err(e)
  {
    hide Lawful, HeaderBytes, RecordBytes, Opened, FileMacKey, RecordKey, RecordAad, RecordNonce;
    var aad := RecordAad(headerBytes, recordBytes);
    var nonce := ComputeRecordNonce(h.nonceSeed, NonceLen(h.suite), record.index);
    var key := RecordKey(p, master, h.suite, record.index);
    r := Open(p, h.suite, key, macKey, nonce.value, aad, ciphertext, tag);
  }

  method ReadRecordHeader(reader: Reader) returns (r: Result<(RecordHeader, seq<byte>), Error>)
    requires reader.Valid()
    modifies reader`pos
    ensures reader.Valid()
    ensures r.Ok? ==>
      && reader.pos == old(reader.pos) + RECORD_HEADER_LEN
      && r.value.1 == old(reader.Rest())[..RECORD_HEADER_LEN]
      && DecodeRecord(r.value.1) == Ok(r.value.0)
      && r.value.0.Valid() && r.value.1 == RecordBytes(r.value.0)
    ensures r.Err? ==> r.error == Authentication
    ensures r.Err? && reader.fault.None? ==>
      |old(reader.Rest())| < RECORD_HEADER_LEN || DecodeRecord(old(reader.Rest())[..RECORD_HEADER_LEN]).Err?
  {
    var bytes := new byte[RECORD_HEADER_LEN];
    ghost var rest := reader.Rest();
    var filled := reader.ReadExact(bytes);
    if filled.Err? { return Err(Authentication); }
    assert bytes[..] == rest[..RECORD_HEADER_LEN];
    var decoded := DecodeRecord(bytes[..]);
    if decoded.Err? { return Err(Authentication); }
    RecordCodec(bytes[..], decoded.value);
    return Ok((decoded.value, bytes[..]));
  }

  /** One iteration: read and check a record header, then read and open its chunk. */
  method DecryptChunk(p: Primitives, reader: Reader, h: Header, headerBytes: seq<byte>, master: seq<byte>,
                      macKey: Option<seq<byte>>, index: nat, remaining: nat) returns (r: Result<seq<byte>, Error>)
    requires Lawful(p) && h.Valid() && reader.Valid() && remaining > 0
    requires headerBytes == HeaderBytes(h) && macKey == FileMacKey(p, master, h.suite)
    modifies reader`pos
    ensures reader.Valid()
    ensures r.Ok? ==>
      var rest := OpenRecords(p, h, master, reader.Rest(), index + 1, remaining - Min(remaining, CHUNK_SIZE));
      OpenRecords(p, h, master, old(reader.Rest()), index, remaining) == Outcome(rest.result, r.value + rest.written)
    ensures r.Err? && reader.fault.None? ==>
      OpenRecords(p, h, master, old(reader.Rest()), index, remaining) == Outcome(Err(r.error), [])
  {
    hide Lawful, HeaderBytes, RecordBytes, DecodeRecord, OpenOf, FileMacKey;
    ghost var input := reader.Rest();
    var expectedLen := Min(remaining, CHUNK_SIZE);
    var read := ReadRecordHeader(reader);
    if read.Err? { return Err(Authentication); }
    var (record, recordBytes) := read.value;
    if record.index != index || record.IsFinal() || record.plaintextLen != expectedLen {
      return Err(Authentication);
    }
    var ciphertext := new byte[expectedLen];
    var filled := reader.ReadExact(ciphertext);
    if filled.Err? { return Err(Authentication); }
    var tag := new byte[TagLen(h.suite)];
    filled := reader.ReadExact(tag);
    if filled.Err? { return Err(Authentication); }
    ghost var body := RECORD_HEADER_LEN + expectedLen;
    ghost var end := body + TagLen(h.suite);
    assert ciphertext[..] == input[RECORD_HEADER_LEN..body] && tag[..] == input[body..end];
    assert reader.Rest() == input[end..];
    var plain := OpenRecord(p, h, headerBytes, recordBytes, record, master, macKey, ciphertext, tag[..]);
    if plain.Err? { return Err(plain.error); }
    return Ok(ciphertext[..]);
  }

  /** The final record and the end of the input. */
  method DecryptFinal(p: Primitives, reader: Reader, h: Header, headerBytes: seq<byte>, master: seq<byte>,
                      macKey: Option<seq<byte>>, index: nat) returns (r: Result<(), Error>)
    requires Lawful(p) && h.Valid() && reader.Valid()
    requires headerBytes == HeaderBytes(h) && macKey == FileMacKey(p, master, h.suite)
    modifies reader`pos
    ensures OpenRecords(p, h, master, old(reader.Rest()), index, 0).written == []
    ensures r.Ok? || reader.fault.None? ==> r == OpenRecords(p, h, master, old(reader.Rest()), index, 0).result
  {
    hide Lawful, HeaderBytes, RecordBytes, DecodeRecord, OpenOf, FileMacKey;
    ghost var input := reader.Rest();
    var read := ReadRecordHeader(reader);
    if read.Err? { return Err(Authentication); }
    var (final, finalBytes) := read.value;
    if final != FinalRecord(index) { return Err(Authentication); }
    var tag := new byte[TagLen(h.suite)];
    var filled := reader.ReadExact(tag);
    if filled.Err? { return Err(Authentication); }
    assert tag[..] == input[RECORD_HEADER_LEN..RECORD_HEADER_LEN + TagLen(h.suite)];
    var empty := new byte[0];
    assert empty[..] == [];
    var plain := OpenRecord(p, h, headerBytes, finalBytes, final, master, macKey, empty, tag[..]);
    if plain.Err? { return plain; }
    var extra := reader.Probe();
    if extra.Err? { return Err(Io); }
    if extra.value { return Err(Authentication); }
    return Ok(());
  }

  /** Reads records until the final one, writing each opened chunk as it goes. */
  method DecryptRecords(p: Primitives, reader: Reader, writer: Writer, h: Header, headerBytes: seq<byte>,
                        master: seq<byte>) returns (r: Result<(), Error>)
    requires Lawful(p) && h.Valid() && headerBytes == HeaderBytes(h) && reader.Valid()
    modifies reader`pos, writer`out
    ensures var spec := OpenRecords(p, h, master, old(reader.Rest()), 0, h.plaintextLen);
            && old(writer.out) <= writer.out <= old(writer.out) + spec.written
            && (r.Ok? ==> spec.result.Ok? && writer.out == old(writer.out) + spec.written)
            && (reader.fault.None? && writer.capacity.None? ==>
                  r == spec.result && writer.out == old(writer.out) + spec.written)
  {
    hide Lawful, HeaderBytes, OpenRecords, FileMacKey, DivCeil;
    var macKey := FileMacKey(p, master, h.suite);
    var remaining := h.plaintextLen;
    ghost var spec := OpenRecords(p, h, master, reader.Rest(), 0, remaining);
    ghost var whole := writer.out + spec.written;
    for index := 0 to h.DataRecordCount()
      invariant reader.Valid() && 0 <= remaining
      invariant index + DivCeil(remaining, CHUNK_SIZE) == h.DataRecordCount()
      invariant old(writer.out) <= writer.out
      invariant spec.result == OpenRecords(p, h, master, reader.Rest(), index, remaining).result
      invariant writer.out + OpenRecords(p, h, master, reader.Rest(), index, remaining).written == whole
    {
      DivCeilStep(remaining, CHUNK_SIZE);
      var expectedLen := Min(remaining, CHUNK_SIZE);
      ghost var before := writer.out;
      var chunk := DecryptChunk(p, reader, h, headerBytes, master, macKey, index, remaining);
      if chunk.Err? { return Err(chunk.error); }
      ghost var later := OpenRecords(p, h, master, reader.Rest(), index + 1, remaining - expectedLen).written;
      var ok := writer.WriteAll(chunk.value);
      StillPrefix(old(writer.out), before, writer.out, chunk.value, later, whole);
      if !ok { return Err(Io); }
      remaining := remaining - expectedLen;
    }
    DivCeilStep(remaining, CHUNK_SIZE);
    // No announced byte is left over: the `remaining != 0` branch of `decrypt_records` is dead.
    assert remaining == 0;
    r := DecryptFinal(p, reader, h, headerBytes, master, macKey, h.DataRecordCount());
  }
}
