/** The `filecrypt` record stream under the STREAM construction's next/last protocol. */
module FilecryptStream {
  import opened Bytes
  import opened Filecrypt

  /** The place of a record in a stream: its counter, and whether it is the last. */
  datatype Position = Position(counter: nat, last: bool)

  /** HKDF and the two STREAM ciphers, as functions; a sealed text is ciphertext and tag in one. */
  datatype Primitives = Primitives(
    derive: (seq<byte>, seq<byte>, Algorithm) -> seq<byte>,
    seal: (Algorithm, seq<byte>, seq<byte>, Position, seq<byte>, seq<byte>) -> seq<byte>,
    unseal: (Algorithm, seq<byte>, seq<byte>, Position, seq<byte>, seq<byte>) -> Option<seq<byte>>)

  ghost predicate Lawful(p: Primitives)
  {
    && (forall a, k, n, at, aad, m :: |p.seal(a, k, n, at, aad, m)| == |m| + TAG_SIZE)
    && (forall a, k, n, at, aad, m, c :: p.unseal(a, k, n, at, aad, c) == Some(m) <==> p.seal(a, k, n, at, aad, m) == c)
  }

  /** These assumptions can be met. */
  lemma LawfulPrimitives() returns (p: Primitives)
    ensures Lawful(p)
  {
    p := Primitives((_, _, _) => [], (_, _, _, _, _, m) => m + Zeros(TAG_SIZE),
                    (_, _, _, _, _, c) =>
                      if |c| >= TAG_SIZE && c[|c| - TAG_SIZE..] == Zeros(TAG_SIZE) then Some(c[..|c| - TAG_SIZE]) else None);
    forall a, k, n, at, aad, m, c
      ensures p.unseal(a, k, n, at, aad, c) == Some(m) <==> p.seal(a, k, n, at, aad, m) == c
    {
      if |c| >= TAG_SIZE { assert c == c[..|c| - TAG_SIZE] + c[|c| - TAG_SIZE..]; }
      assert (m + Zeros(TAG_SIZE))[..|m|] == m;
    }
  }

  function Aad(header: seq<byte>, record: seq<byte>): seq<byte> { header + record }

  /** The bytes of the stream's nonce field that the cipher uses. */
  function StreamNonce(h: Header): seq<byte>
    requires h.Valid()
  {
    h.streamNonce[..StreamNonceSize(h.algorithm)]
  }

  function SealAt(p: Primitives, h: Header, key: seq<byte>, at: Position, r: Record, m: seq<byte>): seq<byte>
    requires h.Valid() && r.Valid()
  {
    p.seal(h.algorithm, key, StreamNonce(h), at, Aad(HeaderBytes(h), RecordBytes(r)), m)
  }

  function OpenAt(p: Primitives, h: Header, key: seq<byte>, at: Position, r: Record, c: seq<byte>): Option<seq<byte>>
    requires h.Valid() && r.Valid()
  {
    p.unseal(h.algorithm, key, StreamNonce(h), at, Aad(HeaderBytes(h), RecordBytes(r)), c)
  }

  lemma SealLaws(p: Primitives, h: Header, key: seq<byte>, at: Position, r: Record, m: seq<byte>, c: seq<byte>)
    requires Lawful(p) && h.Valid() && r.Valid()
    ensures OpenAt(p, h, key, at, r, c) == Some(m) <==> SealAt(p, h, key, at, r, m) == c
    ensures |SealAt(p, h, key, at, r, m)| == |m| + TAG_SIZE
  {
  }

  lemma OpenedLength(p: Primitives, h: Header, key: seq<byte>, at: Position, r: Record, c: seq<byte>)
    requires Lawful(p) && h.Valid() && r.Valid()
    ensures OpenAt(p, h, key, at, r, c).Some? ==> |c| == |OpenAt(p, h, key, at, r, c).value| + TAG_SIZE
  {
    var m := OpenAt(p, h, key, at, r, c);
    if m.Some? { SealLaws(p, h, key, at, r, m.value, c); }
  }

  function Frame(p: Primitives, h: Header, key: seq<byte>, at: Position, r: Record, m: seq<byte>): seq<byte>
    requires h.Valid() && r.Valid()
  {
    RecordBytes(r) + SealAt(p, h, key, at, r, m)
  }

  /** The records from number `seq` on, for the plaintext that is left. */
  function Records(p: Primitives, h: Header, key: seq<byte>, rest: seq<byte>, index: nat): seq<byte>
    requires h.Valid() && index + DivCeil(|rest|, CHUNK_SIZE) < U64_END
    decreases |rest|
  {
    if rest == [] then Frame(p, h, key, Position(index, true), EndRecord(index), Footer(index, h.plaintextLen))
    else
      var n := Min(|rest|, CHUNK_SIZE);
      DivCeilStep(|rest|, CHUNK_SIZE);
      Frame(p, h, key, Position(index, false), DataRecord(n, index), rest[..n]) + Records(p, h, key, rest[n..], index + 1)
  }

  lemma CountFits(h: Header)
    requires h.Valid()
    ensures h.DataRecordCount() < U64_END
  {
  }

  function EncryptedFile(p: Primitives, h: Header, key: seq<byte>, m: seq<byte>): seq<byte>
    requires h.Valid() && |m| == h.plaintextLen
  {
    CountFits(h);
    HeaderBytes(h) + Records(p, h, key, m, 0)
  }

  datatype Outcome = Outcome(result: Result<(), Error>, written: seq<byte>)

  /** The reading loop from record `index` on, with `remaining` plaintext bytes still announced. */
  function OpenRecords(p: Primitives, h: Header, key: seq<byte>, input: seq<byte>, index: nat, remaining: nat): Outcome
    requires h.Valid()
    decreases remaining
  {
    if |input| < RECORD_HEADER_SIZE then Outcome(Err(AuthenticationFailed), [])
    else match ParseRecord(input[..RECORD_HEADER_SIZE])
      case Err(e) => Outcome(Err(e), [])
      case Ok(r) =>
        var n := Min(remaining, CHUNK_SIZE);
        var expected := if remaining > 0 then DataRecord(n, index) else EndRecord(index);
        var end := RECORD_HEADER_SIZE + expected.ciphertextLen;
        if r != expected || |input| < end then Outcome(Err(AuthenticationFailed), [])
        else match OpenAt(p, h, key, Position(index, remaining == 0), r, input[RECORD_HEADER_SIZE..end])
          case None => Outcome(Err(AuthenticationFailed), [])
          case Some(m) =>
            if remaining > 0 then
              var rest := OpenRecords(p, h, key, input[end..], index + 1, remaining - n);
              Outcome(rest.result, m + rest.written)
            else if !FooterVerifies(m, index, h.plaintextLen) || |input| > end then Outcome(Err(AuthenticationFailed), [])
            else Outcome(Ok(()), [])
  }

  /** `decrypt_file` up to publication. */
  function DecryptFile(p: Primitives, master: seq<byte>, s: seq<byte>): Outcome
  {
    if |s| < HEADER_SIZE then Outcome(Err(AuthenticationFailed), [])
    else match ParseHeader(s[..HEADER_SIZE])
      case Err(e) => Outcome(Err(e), [])
      case Ok(h) => OpenRecords(p, h, p.derive(h.salt, master, h.algorithm), s[HEADER_SIZE..], 0, h.plaintextLen)
  }

  /** A record opens in its place exactly when the input starts with its frame. */
  lemma FrameOpens(p: Primitives, h: Header, key: seq<byte>, at: Position, r: Record, m: seq<byte>, s: seq<byte>)
    requires Lawful(p) && h.Valid() && r.Valid() && |s| >= RECORD_HEADER_SIZE + |m| + TAG_SIZE
    ensures var end := RECORD_HEADER_SIZE + |m| + TAG_SIZE;
            (ParseRecord(s[..RECORD_HEADER_SIZE]) == Ok(r) && OpenAt(p, h, key, at, r, s[RECORD_HEADER_SIZE..end]) == Some(m))
            <==> s == Frame(p, h, key, at, r, m) + s[end..]
    ensures |Frame(p, h, key, at, r, m)| == RECORD_HEADER_SIZE + |m| + TAG_SIZE
  {
    hide Lawful, SealAt, OpenAt, RecordBytes, ParseRecord;
    var end := RECORD_HEADER_SIZE + |m| + TAG_SIZE;
    RecordCodec(s[..RECORD_HEADER_SIZE], r);
    SealLaws(p, h, key, at, r, m, s[RECORD_HEADER_SIZE..end]);
    var f := Frame(p, h, key, at, r, m);
    Cut(f, RecordBytes(r), SealAt(p, h, key, at, r, m));
    assert s == s[..RECORD_HEADER_SIZE] + s[RECORD_HEADER_SIZE..end] + s[end..];
    if s == f + s[end..] {
      assert s[..RECORD_HEADER_SIZE] == f[..RECORD_HEADER_SIZE] && s[RECORD_HEADER_SIZE..end] == f[RECORD_HEADER_SIZE..];
    }
  }

  /** Reading back the records of a plaintext yields it, and their length is known. */
  lemma {:induction false} RecordsOpen(p: Primitives, h: Header, key: seq<byte>, rest: seq<byte>, index: nat)
    requires Lawful(p) && h.Valid() && index + DivCeil(|rest|, CHUNK_SIZE) < U64_END
    ensures OpenRecords(p, h, key, Records(p, h, key, rest, index), index, |rest|) == Outcome(Ok(()), rest)
    ensures |Records(p, h, key, rest, index)|
         == |rest| + DivCeil(|rest|, CHUNK_SIZE) * (RECORD_HEADER_SIZE + TAG_SIZE) + RECORD_HEADER_SIZE + FOOTER_SIZE + TAG_SIZE
    decreases |rest|
  {
    hide Lawful, OpenAt, Frame, ParseRecord, Footer, FooterVerifies, DivCeil;
    DivCeilStep(|rest|, CHUNK_SIZE);
    var s := Records(p, h, key, rest, index);
    if rest == [] {
      var m := Footer(index, h.plaintextLen);
      var end := RECORD_HEADER_SIZE + FOOTER_SIZE + TAG_SIZE;
      FrameLength(p, h, key, Position(index, true), EndRecord(index), m);
      assert s == s + s[end..];
      FrameOpens(p, h, key, Position(index, true), EndRecord(index), m, s);
      FooterCodec(m, index, h.plaintextLen);
    } else {
      var n := Min(|rest|, CHUNK_SIZE);
      var f := Frame(p, h, key, Position(index, false), DataRecord(n, index), rest[..n]);
      var more := Records(p, h, key, rest[n..], index + 1);
      FrameLength(p, h, key, Position(index, false), DataRecord(n, index), rest[..n]);
      assert s == f + more && s[RECORD_HEADER_SIZE + n + TAG_SIZE..] == more;
      FrameOpens(p, h, key, Position(index, false), DataRecord(n, index), rest[..n], s);
      RecordsOpen(p, h, key, rest[n..], index + 1);
      assert rest[..n] + rest[n..] == rest;
    }
  }

  lemma FrameLength(p: Primitives, h: Header, key: seq<byte>, at: Position, r: Record, m: seq<byte>)
    requires Lawful(p) && h.Valid() && r.Valid()
    ensures |Frame(p, h, key, at, r, m)| == RECORD_HEADER_SIZE + |m| + TAG_SIZE
  {
    SealLaws(p, h, key, at, r, m, []);
  }

  /** What is read to the end without error, footer included, is the records of what it yields. */
  lemma {:induction false} OpenedIsRecords(p: Primitives, h: Header, key: seq<byte>, input: seq<byte>, index: nat, remaining: nat)
    requires Lawful(p) && h.Valid() && index + DivCeil(remaining, CHUNK_SIZE) < U64_END
    requires OpenRecords(p, h, key, input, index, remaining).result.Ok?
    ensures var m := OpenRecords(p, h, key, input, index, remaining).written;
            |m| == remaining && Records(p, h, key, m, index) == input
    decreases remaining
  {
    hide Lawful, OpenAt, Frame, ParseRecord, Footer, FooterVerifies, DivCeil;
    DivCeilStep(remaining, CHUNK_SIZE);
    var r := ParseRecord(input[..RECORD_HEADER_SIZE]).value;
    var at := Position(index, remaining == 0);
    var end := RECORD_HEADER_SIZE + r.ciphertextLen;
    OpenedLength(p, h, key, at, r, input[RECORD_HEADER_SIZE..end]);
    var first := OpenAt(p, h, key, at, r, input[RECORD_HEADER_SIZE..end]).value;
    FrameOpens(p, h, key, at, r, first, input);
    if remaining > 0 {
      var n := Min(remaining, CHUNK_SIZE);
      OpenedIsRecords(p, h, key, input[end..], index + 1, remaining - n);
      var m := OpenRecords(p, h, key, input, index, remaining).written;
      assert m[..n] == first && m[n..] == OpenRecords(p, h, key, input[end..], index + 1, remaining - n).written;
    } else {
      FooterCodec(first, index, h.plaintextLen);
      assert input[end..] == [];
    }
  }

  /** Round trip for every plaintext up to the limit. */
  lemma DecryptOfEncrypt(p: Primitives, h: Header, master: seq<byte>, m: seq<byte>)
    requires Lawful(p) && h.Valid() && |m| == h.plaintextLen <= MAX_PLAINTEXT_SIZE
    ensures var s := EncryptedFile(p, h, p.derive(h.salt, master, h.algorithm), m);
            && DecryptFile(p, master, s) == Outcome(Ok(()), m)
            && |s| == HEADER_SIZE + |m| + h.DataRecordCount() * (RECORD_HEADER_SIZE + TAG_SIZE)
                        + RECORD_HEADER_SIZE + FOOTER_SIZE + TAG_SIZE
  {
    hide Lawful, HeaderBytes, ParseHeader, Records, OpenRecords;
    var key := p.derive(h.salt, master, h.algorithm);
    var s := EncryptedFile(p, h, key, m);
    CountFits(h);
    HeaderCodec(s[..HEADER_SIZE], h);
    assert s[..HEADER_SIZE] == HeaderBytes(h) && s[HEADER_SIZE..] == Records(p, h, key, m, 0);
    RecordsOpen(p, h, key, m, 0);
  }

  /** Canonicity: every accepted byte string is the encrypted file of what it yields. */
  lemma AcceptedIsEncrypted(p: Primitives, master: seq<byte>, s: seq<byte>) returns (h: Header)
    requires Lawful(p) && DecryptFile(p, master, s).result.Ok?
    ensures h.Valid() && h.plaintextLen <= MAX_PLAINTEXT_SIZE
    ensures var m := DecryptFile(p, master, s).written;
            |m| == h.plaintextLen && s == EncryptedFile(p, h, p.derive(h.salt, master, h.algorithm), m)
  {
    hide Lawful, HeaderBytes, Records, OpenRecords;
    h := ParseHeader(s[..HEADER_SIZE]).value;
    CountFits(h);
    HeaderCodec(s[..HEADER_SIZE], h);
    OpenedIsRecords(p, h, p.derive(h.salt, master, h.algorithm), s[HEADER_SIZE..], 0, h.plaintextLen);
    assert s == s[..HEADER_SIZE] + s[HEADER_SIZE..];
  }

  /** The positions of a stream with `count` data records, in their order; only the end record is the last. */
  function Positions(count: nat): (s: seq<Position>)
    ensures |s| == count + 1 && forall i :: 0 <= i <= count ==> s[i] == Position(i, i == count)
  {
    seq(count + 1, i requires 0 <= i => Position(i, i == count))
  }

  /** No position comes twice, nothing follows the last, and all counters fit in 31 bits. */
  ghost predicate UsedOnce(positions: seq<Position>)
  {
    && (forall i, j :: 0 <= i < j < |positions| ==> positions[i] != positions[j])
    && (forall i :: 0 <= i < |positions| ==> positions[i].counter < 0x8000_0000)
    && (forall i :: 0 <= i < |positions| && positions[i].last ==> i == |positions| - 1)
  }

  /** What a stream of a permitted length has used up, at any moment, is used once. */
  lemma PositionsUsedOnce(h: Header, used: seq<Position>)
    requires h.Valid() && h.plaintextLen <= MAX_PLAINTEXT_SIZE && used <= Positions(h.DataRecordCount())
    ensures UsedOnce(used)
  {
    SizeLimitExactly(h.plaintextLen);
    var all := Positions(h.DataRecordCount());
    assert forall i :: 0 <= i < |used| ==> used[i] == all[i];
  }
}
