/** The `filecrypt` record loops: a stateful STREAM object, one buffer that is resized and cleared, and the files. */
module FilecryptLoops {
  import opened Bytes
  import opened Streams
  import opened Filecrypt
  import opened FilecryptStream

  /** A growable buffer. */
  class Buffer {
    var bytes: seq<byte>

    constructor ()
      ensures bytes == []
    {
      bytes := [];
    }

    method Clear()
      modifies this
      ensures bytes == []
    {
      bytes := [];
    }

    method ExtendFromSlice(s: seq<byte>)
      modifies this
      ensures bytes == old(bytes) + s
    {
      bytes := bytes + s;
    }

    /** `resize(n, 0)` and `read_exact`. */
    method Fill(reader: Reader, n: nat) returns (r: Result<(), ReadError>)
      requires reader.Valid()
      modifies this, reader`pos
      ensures reader.Valid()
      ensures Exactly(reader.data, reader.fault, old(reader.pos), n).Ok? <==> r.Ok?
      ensures r.Ok? ==> reader.pos == old(reader.pos) + n && bytes == reader.data[old(reader.pos)..reader.pos]
      ensures r.Err? ==> Exactly(reader.data, reader.fault, old(reader.pos), n) == Err(r.error)
    {
      var a := new byte[n];
      r := reader.ReadExact(a);
      bytes := a[..];
    }
  }

  /** `StreamEncryptor` and `StreamDecryptor`: the counter advances with every record; the last one ends it. */
  class Stream {
    const h: Header
    const key: seq<byte>
    var counter: nat
    var finished: bool
    /** The positions at which something was sealed. */
    ghost var positions: seq<Position>

    constructor (h: Header, key: seq<byte>)
      ensures this.h == h && this.key == key && counter == 0 && !finished && positions == []
    {
      this.h, this.key, counter, finished, positions := h, key, 0, false, [];
    }

    method Encrypt(p: Primitives, r: Record, last: bool, buffer: Buffer)
      requires h.Valid() && r.Valid() && !finished
      modifies this, buffer
      ensures buffer.bytes == SealAt(p, h, key, Position(old(counter), last), r, old(buffer.bytes))
      ensures counter == old(counter) + 1 && finished == last
      ensures positions == old(positions) + [Position(old(counter), last)]
    {
      positions := positions + [Position(counter, last)];
      buffer.bytes := p.seal(h.algorithm, key, StreamNonce(h), Position(counter, last), Aad(HeaderBytes(h), RecordBytes(r)),
                             buffer.bytes);
      counter, finished := counter + 1, last;
    }

    method Decrypt(p: Primitives, r: Record, last: bool, buffer: Buffer) returns (ok: bool)
      requires h.Valid() && r.Valid() && !finished
      modifies this, buffer
      ensures ok <==> OpenAt(p, h, key, Position(old(counter), last), r, old(buffer.bytes)).Some?
      ensures ok ==> Some(buffer.bytes) == OpenAt(p, h, key, Position(old(counter), last), r, old(buffer.bytes))
      ensures ok ==> counter == old(counter) + 1 && finished == last
    {
      var m := p.unseal(h.algorithm, key, StreamNonce(h), Position(counter, last), Aad(HeaderBytes(h), RecordBytes(r)),
                        buffer.bytes);
      if m.None? { return false; }
      buffer.bytes := m.value;
      counter, finished := counter + 1, last;
      return true;
    }
  }

  method WriteFrame(writer: Writer, record: seq<byte>, body: seq<byte>) returns (ok: bool)
    modifies writer`out
    ensures ok ==> writer.out == old(writer.out) + (record + body)
    ensures writer.capacity.None? ==> ok
  {
    ok := writer.WriteAll(record);
    if !ok { return; }
    ok := writer.WriteAll(body);
    assert old(writer.out) + record + body == old(writer.out) + (record + body);
  }

  /** One iteration of the encrypting loop. */
  method EncryptRecord(p: Primitives, input: Reader, output: Writer, stream: Stream, buffer: Buffer, sequence: nat, n: nat)
    returns (r: Result<(), Error>)
    requires stream.h.Valid() && stream.counter == sequence < U64_END && !stream.finished && n <= CHUNK_SIZE
    requires input.Valid()
    modifies input`pos, output`out, stream, buffer
    ensures input.Valid()
    ensures stream.positions == old(stream.positions) || stream.positions == old(stream.positions) + [Position(sequence, false)]
    ensures r.Ok? ==>
      && stream.counter == sequence + 1 && !stream.finished
      && stream.positions == old(stream.positions) + [Position(sequence, false)]
      && input.pos == old(input.pos) + n
      && output.out == old(output.out)
           + Frame(p, stream.h, stream.key, Position(sequence, false), DataRecord(n, sequence), input.data[old(input.pos)..input.pos])
    ensures r.Err? ==> r.error == InputChanged || r.error == Io
    ensures input.fault.None? && output.capacity.None? ==>
      r == if old(input.pos) + n <= |input.data| then Ok(()) else Err(InputChanged)
  {
    hide SealAt, RecordBytes;
    var filled := buffer.Fill(input, n);
    if filled.Err? { return Err(if filled.error == UnexpectedEof then InputChanged else Io); }
    var record := DataRecord(n, sequence);
    stream.Encrypt(p, record, false, buffer);
    var ok := WriteFrame(output, RecordBytes(record), buffer.bytes);
    if !ok { return Err(Io); }
    buffer.Clear();
    return Ok(());
  }

  lemma NextRecord(p: Primitives, h: Header, key: seq<byte>, data: seq<byte>, at: nat, index: nat, n: nat)
    requires h.Valid() && at < |data| && n == Min(|data| - at, CHUNK_SIZE) && index + DivCeil(|data| - at, CHUNK_SIZE) < U64_END
    ensures index + 1 + DivCeil(|data| - at - n, CHUNK_SIZE) < U64_END
    ensures Records(p, h, key, data[at..], index)
         == Frame(p, h, key, Position(index, false), DataRecord(n, index), data[at..at + n]) + Records(p, h, key, data[at + n..], index + 1)
  {
    hide Frame;
    DivCeilStep(|data| - at, CHUNK_SIZE);
    assert data[at..][..n] == data[at..at + n] && data[at..][n..] == data[at + n..];
  }

  lemma LastRecord(p: Primitives, h: Header, key: seq<byte>, index: nat)
    requires h.Valid() && index < U64_END
    ensures DivCeil(0, CHUNK_SIZE) == 0
    ensures Records(p, h, key, [], index) == Frame(p, h, key, Position(index, true), EndRecord(index), Footer(index, h.plaintextLen))
  {
  }

  /** `encrypt_to_writer`. */
  method EncryptToWriter(p: Primitives, input: Reader, output: Writer, stream: Stream) returns (r: Result<(), Error>)
    requires stream.h.Valid() && stream.counter == 0 && !stream.finished && input.Valid() && input.pos == 0
    requires stream.positions == []
    modifies input`pos, output`out, stream
    ensures r.Ok? ==>
      && |input.data| == stream.h.plaintextLen
      && output.out == old(output.out) + EncryptedFile(p, stream.h, stream.key, input.data)
    // Nothing is sealed but at the positions of this stream, each at most once and in order.
    ensures stream.positions <= Positions(stream.h.DataRecordCount())
    ensures r.Ok? ==> stream.positions == Positions(stream.h.DataRecordCount())
    ensures stream.h.plaintextLen <= MAX_PLAINTEXT_SIZE ==> UsedOnce(stream.positions)
    ensures r.Err? ==> r.error == InputChanged || r.error == Io
    ensures input.fault.None? && output.capacity.None? ==>
      r == if |input.data| == stream.h.plaintextLen then Ok(()) else Err(InputChanged)
  {
    hide HeaderBytes, Frame, DivCeil, Footer;
    var h := stream.h;
    ghost var start := output.out;
    var ok := output.WriteAll(HeaderBytes(h));
    if !ok { return Err(Io); }
    CountFits(h);
    r := EncryptRecords(p, input, output, stream);
    if h.plaintextLen <= MAX_PLAINTEXT_SIZE { PositionsUsedOnce(h, stream.positions); }
    if r.Ok? {
      assert start + HeaderBytes(h) + Records(p, h, stream.key, input.data, 0)
          == start + (HeaderBytes(h) + Records(p, h, stream.key, input.data, 0));
    }
  }

  method EncryptRecords(p: Primitives, input: Reader, output: Writer, stream: Stream) returns (r: Result<(), Error>)
    requires stream.h.Valid() && stream.counter == 0 && !stream.finished && input.Valid() && input.pos == 0
    requires stream.positions == []
    requires stream.h.DataRecordCount() < U64_END
    modifies input`pos, output`out, stream
    ensures r.Ok? ==>
      && |input.data| == stream.h.plaintextLen
      && output.out == old(output.out) + Records(p, stream.h, stream.key, input.data, 0)
    // Nothing is sealed but at the positions of this stream, each at most once and in order.
    ensures stream.positions <= Positions(stream.h.DataRecordCount())
    ensures r.Ok? ==> stream.positions == Positions(stream.h.DataRecordCount())
    ensures r.Err? ==> r.error == InputChanged || r.error == Io
    ensures input.fault.None? && output.capacity.None? ==>
      r == if |input.data| == stream.h.plaintextLen then Ok(()) else Err(InputChanged)
  {
    hide HeaderBytes, Frame, DivCeil, Footer, Records;
    var h := stream.h;
    var chunkCount := h.DataRecordCount();
    var remaining := h.plaintextLen;
    var buffer := new Buffer();
    ghost var start, done := output.out, [];
    for sequence := 0 to chunkCount
      invariant stream.counter == sequence && !stream.finished
      invariant input.Valid() && 0 <= remaining && input.pos == h.plaintextLen - remaining
      invariant sequence + DivCeil(remaining, CHUNK_SIZE) == chunkCount
      invariant output.out == start + done
      invariant stream.positions == Positions(chunkCount)[..sequence]
      invariant |input.data| == h.plaintextLen ==>
        done + Records(p, h, stream.key, input.data[input.pos..], sequence) == Records(p, h, stream.key, input.data, 0)
    {
      DivCeilStep(remaining, CHUNK_SIZE);
      var n := Min(remaining, CHUNK_SIZE);
      ghost var at := input.pos;
      r := EncryptRecord(p, input, output, stream, buffer, sequence, n);
      if r.Err? { return; }
      ghost var frame := Frame(p, h, stream.key, Position(sequence, false), DataRecord(n, sequence), input.data[at..input.pos]);
      if |input.data| == h.plaintextLen {
        NextRecord(p, h, stream.key, input.data, at, sequence, n);
        assert done + (frame + Records(p, h, stream.key, input.data[input.pos..], sequence + 1))
            == (done + frame) + Records(p, h, stream.key, input.data[input.pos..], sequence + 1);
      }
      done := done + frame;
      assert output.out == start + done;
      remaining := remaining - n;
    }
    DivCeilStep(remaining, CHUNK_SIZE);
    // All announced bytes were read: the `remaining != 0` half of the test in `encrypt_to_writer` is dead.
    assert remaining == 0;
    var extra := input.Probe();
    if extra.Err? { return Err(Io); }
    if extra.value { return Err(InputChanged); }
    buffer.Clear();
    buffer.ExtendFromSlice(Footer(chunkCount, h.plaintextLen));
    assert [] + Footer(chunkCount, h.plaintextLen) == Footer(chunkCount, h.plaintextLen);
    var ok := WriteEnd(p, output, stream, buffer, chunkCount);
    if !ok { return Err(Io); }
    assert input.data[h.plaintextLen..] == [];
    LastRecord(p, h, stream.key, chunkCount);
    ghost var last := Frame(p, h, stream.key, Position(chunkCount, true), EndRecord(chunkCount), Footer(chunkCount, h.plaintextLen));
    assert start + done + last == start + (done + last);
    return Ok(());
  }

  /** The end record: sealed as the last of the stream. */
  method WriteEnd(p: Primitives, output: Writer, stream: Stream, buffer: Buffer, count: nat) returns (ok: bool)
    requires stream.h.Valid() && !stream.finished && count < U64_END
    modifies output`out, stream, buffer
    ensures ok ==> output.out == old(output.out)
                     + Frame(p, stream.h, stream.key, Position(old(stream.counter), true), EndRecord(count), old(buffer.bytes))
    ensures output.capacity.None? ==> ok
    ensures stream.positions == old(stream.positions) + [Position(old(stream.counter), true)]
  {
    hide SealAt, RecordBytes;
    var record := EndRecord(count);
    stream.Encrypt(p, record, true, buffer);
    ok := WriteFrame(output, RecordBytes(record), buffer.bytes);
  }

  method ReadRecordHeader(input: Reader) returns (r: Result<Record, Error>)
    requires input.Valid()
    modifies input`pos
    ensures input.Valid()
    ensures r.Ok? ==>
      && input.pos == old(input.pos) + RECORD_HEADER_SIZE && r.value.Valid()
      && ParseRecord(input.data[old(input.pos)..input.pos]) == r
    ensures input.fault.None? && r.Err? ==>
      && r.error == AuthenticationFailed
      && (|input.data| - old(input.pos) < RECORD_HEADER_SIZE
          || ParseRecord(input.data[old(input.pos)..old(input.pos) + RECORD_HEADER_SIZE]).Err?)
  {
    var raw := new byte[RECORD_HEADER_SIZE];
    var filled := input.ReadExact(raw);
    if filled.Err? { return Err(if filled.error == UnexpectedEof then AuthenticationFailed else Io); }
    return ParseRecord(raw[..]);
  }

  /** Reads the record that has to come next and opens it into the buffer. */
  method OpenNext(p: Primitives, input: Reader, stream: Stream, buffer: Buffer, expected: Record, last: bool)
    returns (r: Result<(), Error>)
    requires Lawful(p) && stream.h.Valid() && expected.Valid() && !stream.finished && input.Valid()
    modifies input`pos, stream, buffer
    ensures input.Valid()
    ensures
      var at := old(input.pos);
      var body, end := at + RECORD_HEADER_SIZE, at + RECORD_HEADER_SIZE + expected.ciphertextLen;
      var place := Position(old(stream.counter), last);
      && (r.Ok? ==>
            && input.pos == end && stream.counter == old(stream.counter) + 1 && stream.finished == last
            && ParseRecord(input.data[at..body]) == Ok(expected)
            && OpenAt(p, stream.h, stream.key, place, expected, input.data[body..end]) == Some(buffer.bytes))
      && (r.Err? && input.fault.None? ==>
            && r.error == AuthenticationFailed
            && (|input.data| < body || ParseRecord(input.data[at..body]) != Ok(expected) || |input.data| < end
                || OpenAt(p, stream.h, stream.key, place, expected, input.data[body..end]).None?))
  {
    hide Lawful, OpenAt, ParseRecord, RecordBytes;
    var record := ReadRecordHeader(input);
    if record.Err? { return Err(record.error); }
    if record.value != expected { return Err(AuthenticationFailed); }
    var filled := buffer.Fill(input, record.value.ciphertextLen);
    if filled.Err? { return Err(if filled.error == UnexpectedEof then AuthenticationFailed else Io); }
    var ok := stream.Decrypt(p, record.value, last, buffer);
    return if ok then Ok(()) else Err(AuthenticationFailed);
  }

  /** One step of the specification of the decrypting loop. */
  lemma OpenStep(p: Primitives, h: Header, key: seq<byte>, data: seq<byte>, at: nat, index: nat, remaining: nat)
    requires h.Valid() && at <= |data| && index < U64_END
    ensures var n := Min(remaining, CHUNK_SIZE);
            var expected := if remaining > 0 then DataRecord(n, index) else EndRecord(index);
            var body, end := at + RECORD_HEADER_SIZE, at + RECORD_HEADER_SIZE + expected.ciphertextLen;
            OpenRecords(p, h, key, data[at..], index, remaining) ==
              if |data| < body || ParseRecord(data[at..body]) != Ok(expected) || |data| < end
              then Outcome(Err(AuthenticationFailed), [])
              else match OpenAt(p, h, key, Position(index, remaining == 0), expected, data[body..end])
                case None => Outcome(Err(AuthenticationFailed), [])
                case Some(m) =>
                  if remaining > 0 then
                    var rest := OpenRecords(p, h, key, data[end..], index + 1, remaining - n);
                    Outcome(rest.result, m + rest.written)
                  else if !FooterVerifies(m, index, h.plaintextLen) || |data| > end then Outcome(Err(AuthenticationFailed), [])
                  else Outcome(Ok(()), [])
  {
    hide OpenAt, FooterVerifies;
    var n := Min(remaining, CHUNK_SIZE);
    var len := if remaining > 0 then n + TAG_SIZE else FOOTER_SIZE + TAG_SIZE;
    var rest := data[at..];
    assert rest == data[at..|data|];
    if |data| >= at + RECORD_HEADER_SIZE {
      SubSlice(data, at, |data|, 0, RECORD_HEADER_SIZE);
      assert rest[..RECORD_HEADER_SIZE] == rest[0..RECORD_HEADER_SIZE];
      if |data| >= at + RECORD_HEADER_SIZE + len {
        SubSlice(data, at, |data|, RECORD_HEADER_SIZE, RECORD_HEADER_SIZE + len);
        assert rest[RECORD_HEADER_SIZE + len..] == data[at + RECORD_HEADER_SIZE + len..];
      }
    }
  }

  /** `decrypt_to_writer`, from the first record on. */
  method DecryptToWriter(p: Primitives, input: Reader, output: Writer, stream: Stream) returns (r: Result<(), Error>)
    requires Lawful(p) && stream.h.Valid() && stream.counter == 0 && !stream.finished && input.Valid()
    modifies input`pos, output`out, stream
    ensures var spec := OpenRecords(p, stream.h, stream.key, old(input.Rest()), 0, stream.h.plaintextLen);
            && old(output.out) <= output.out <= old(output.out) + spec.written
            && (r.Ok? ==> spec.result.Ok? && output.out == old(output.out) + spec.written)
            && (input.fault.None? && output.capacity.None? ==>
                  r == spec.result && output.out == old(output.out) + spec.written)
  {
    hide Lawful, OpenRecords, OpenAt, ParseRecord, DivCeil, FooterVerifies;
    var h := stream.h;
    CountFits(h);
    var chunkCount := h.DataRecordCount();
    var remaining := h.plaintextLen;
    var buffer := new Buffer();
    ghost var spec := OpenRecords(p, h, stream.key, input.Rest(), 0, remaining);
    ghost var whole := output.out + spec.written;
    for sequence := 0 to chunkCount
      invariant stream.counter == sequence && !stream.finished && input.Valid() && 0 <= remaining
      invariant sequence + DivCeil(remaining, CHUNK_SIZE) == chunkCount
      invariant old(output.out) <= output.out
      invariant spec.result == OpenRecords(p, h, stream.key, input.data[input.pos..], sequence, remaining).result
      invariant output.out + OpenRecords(p, h, stream.key, input.data[input.pos..], sequence, remaining).written == whole
    {
      DivCeilStep(remaining, CHUNK_SIZE);
      var n := Min(remaining, CHUNK_SIZE);
      ghost var before, at := output.out, input.pos;
      OpenStep(p, h, stream.key, input.data, at, sequence, remaining);
      r := OpenNext(p, input, stream, buffer, DataRecord(n, sequence), false);
      if r.Err? { return; }
      OpenedLength(p, h, stream.key, Position(sequence, false), DataRecord(n, sequence),
                   input.data[at + RECORD_HEADER_SIZE..input.pos]);
      // The opened text always has the announced length: the length test of `decrypt_to_writer` is dead.
      assert |buffer.bytes| == n;
      ghost var later := OpenRecords(p, h, stream.key, input.data[input.pos..], sequence + 1, remaining - n).written;
      var ok := output.WriteAll(buffer.bytes);
      StillPrefix(old(output.out), before, output.out, buffer.bytes, later, whole);
      if !ok { return Err(Io); }
      buffer.Clear();
      remaining := remaining - n;
    }
    DivCeilStep(remaining, CHUNK_SIZE);
    // The `remaining != 0` branch of `decrypt_to_writer` is dead.
    assert remaining == 0;
    r := ReadEnd(p, input, stream, buffer, chunkCount);
  }

  /** The end record, its footer, and the end of the input. */
  method ReadEnd(p: Primitives, input: Reader, stream: Stream, buffer: Buffer, count: nat) returns (r: Result<(), Error>)
    requires Lawful(p) && stream.h.Valid() && stream.counter == count < U64_END && !stream.finished && input.Valid()
    modifies input`pos, stream, buffer
    ensures var spec := OpenRecords(p, stream.h, stream.key, old(input.data[input.pos..]), count, 0);
            spec.written == [] && (r.Ok? || input.fault.None? ==> r == spec.result)
  {
    hide Lawful, OpenRecords, OpenAt, ParseRecord, FooterVerifies;
    OpenStep(p, stream.h, stream.key, input.data, input.pos, count, 0);
    r := OpenNext(p, input, stream, buffer, EndRecord(count), true);
    if r.Err? { return; }
    if !FooterVerifies(buffer.bytes, count, stream.h.plaintextLen) { return Err(AuthenticationFailed); }
    var extra := input.Probe();
    if extra.Err? { return Err(Io); }
    return if extra.value then Err(AuthenticationFailed) else Ok(());
  }
}
