/** The `algos` record stream: what an encrypted file is, and the loops that write and read it. */
module AlgosEnvelope {
  import opened Bytes
  import opened Streams
  import opened AlgosSuites
  import opened AlgosKdf
  import opened AlgosCrypto
  import opened AlgosFormat

  /** `b"algos/envelope/v1/record"`. */
  const AAD_DOMAIN: seq<byte> :=
    [97, 108, 103, 111, 115, 47, 101, 110, 118, 101, 108, 111, 112, 101, 47, 118, 49, 47, 114, 101, 99, 111, 114, 100]

  function RecordAad(header: seq<byte>, record: seq<byte>): seq<byte>
  {
    AAD_DOMAIN + header + record
  }

  function RecordKey(p: Primitives, master: seq<byte>, s: Suite, index: nat): seq<byte>
  {
    p.expand(master, RecordInfo(s, index), KeyLen(s))
  }

  function FileMacKey(p: Primitives, master: seq<byte>, s: Suite): Option<seq<byte>>
  {
    if IsNativeAead(s) then None else Some(p.expand(master, MacInfo(s), 32))
  }

  function Nonce(h: Header, index: nat): (n: seq<byte>)
    requires h.Valid()
    ensures |n| == NonceLen(h.suite)
  {
    RecordNonce(h.nonceSeed, NonceLen(h.suite), index).value
  }

  /** What `crypto::seal` and `crypto::open` return for one record of the file with header `h`. */
  function SealOf(p: Primitives, h: Header, master: seq<byte>, r: RecordHeader, m: seq<byte>)
    : Result<(seq<byte>, seq<byte>), Error>
    requires h.Valid() && r.Valid()
  {
    Sealed(p, h.suite, RecordKey(p, master, h.suite, r.index), FileMacKey(p, master, h.suite),
           Nonce(h, r.index), RecordAad(HeaderBytes(h), RecordBytes(r)), m)
  }

  function OpenOf(p: Primitives, h: Header, master: seq<byte>, r: RecordHeader, c: seq<byte>, t: seq<byte>)
    : Result<seq<byte>, Error>
    requires h.Valid() && r.Valid()
  {
    Opened(p, h.suite, RecordKey(p, master, h.suite, r.index), FileMacKey(p, master, h.suite),
           Nonce(h, r.index), RecordAad(HeaderBytes(h), RecordBytes(r)), c, t)
  }

  lemma OpenOfSeal(p: Primitives, h: Header, master: seq<byte>, r: RecordHeader, m: seq<byte>)
    requires Lawful(p) && h.Valid() && r.Valid() && |m| <= CHUNK_SIZE
    ensures SealOf(p, h, master, r, m).Ok?
    ensures var (c, t) := SealOf(p, h, master, r, m).value;
            |c| == |m| && |t| == TagLen(h.suite) && OpenOf(p, h, master, r, c, t) == Ok(m)
  {
    OpenedOfSealed(p, h.suite, RecordKey(p, master, h.suite, r.index), FileMacKey(p, master, h.suite),
                   Nonce(h, r.index), RecordAad(HeaderBytes(h), RecordBytes(r)), m);
  }

  lemma SealOfOpen(p: Primitives, h: Header, master: seq<byte>, r: RecordHeader, c: seq<byte>, t: seq<byte>)
    requires Lawful(p) && h.Valid() && r.Valid() && OpenOf(p, h, master, r, c, t).Ok?
    ensures var m := OpenOf(p, h, master, r, c, t).value;
            |m| == |c| && SealOf(p, h, master, r, m) == Ok((c, t))
  {
    SealedOfOpened(p, h.suite, RecordKey(p, master, h.suite, r.index), FileMacKey(p, master, h.suite),
                   Nonce(h, r.index), RecordAad(HeaderBytes(h), RecordBytes(r)), c, t);
  }

  /** One framed record: header, ciphertext, tag. */
  function SealedRecord(p: Primitives, h: Header, master: seq<byte>, r: RecordHeader, m: seq<byte>): (s: seq<byte>)
    requires Lawful(p) && h.Valid() && r.Valid() && |m| <= CHUNK_SIZE
    ensures |s| == RECORD_HEADER_LEN + |m| + TagLen(h.suite)
  {
    OpenOfSeal(p, h, master, r, m);
    var (c, t) := SealOf(p, h, master, r, m).value;
    RecordBytes(r) + c + t
  }

  /** All records from number `index` on, for the plaintext that is left. */
  function Records(p: Primitives, h: Header, master: seq<byte>, rest: seq<byte>, index: nat): seq<byte>
    requires Lawful(p) && h.Valid() && index + DivCeil(|rest|, CHUNK_SIZE) < U64_END
    decreases |rest|
  {
    if rest == [] then SealedRecord(p, h, master, FinalRecord(index), [])
    else
      var n := Min(|rest|, CHUNK_SIZE);
      DivCeilStep(|rest|, CHUNK_SIZE);
      SealedRecord(p, h, master, DataRecord(index, n), rest[..n]) + Records(p, h, master, rest[n..], index + 1)
  }

  /** The encrypted file for a header and the plaintext it announces. */
  function EncryptedFile(p: Primitives, h: Header, master: seq<byte>, m: seq<byte>): seq<byte>
    requires Lawful(p) && h.Valid() && |m| == h.plaintextLen
  {
    CountFits(h);
    HeaderBytes(h) + Records(p, h, master, m, 0)
  }

  lemma CountFits(h: Header)
    requires h.Valid()
    ensures h.DataRecordCount() <= h.plaintextLen < U64_END
    ensures h.DataRecordCount() + 1 < U64_END
  {
  }

  lemma {:induction false} RecordsLength(p: Primitives, h: Header, master: seq<byte>, rest: seq<byte>, index: nat)
    requires Lawful(p) && h.Valid() && index + DivCeil(|rest|, CHUNK_SIZE) < U64_END
    ensures |Records(p, h, master, rest, index)|
         == |rest| + (DivCeil(|rest|, CHUNK_SIZE) + 1) * (RECORD_HEADER_LEN + TagLen(h.suite))
    decreases |rest|
  {
    DivCeilStep(|rest|, CHUNK_SIZE);
    if rest != [] {
      var n := Min(|rest|, CHUNK_SIZE);
      RecordsLength(p, h, master, rest[n..], index + 1);
      var k, w := DivCeil(|rest[n..]|, CHUNK_SIZE), RECORD_HEADER_LEN + TagLen(h.suite);
      assert (k + 2) * w == (k + 1) * w + w;
    }
  }

  lemma FileLength(p: Primitives, h: Header, master: seq<byte>, m: seq<byte>)
    requires Lawful(p) && h.Valid() && |m| == h.plaintextLen
    ensures |EncryptedFile(p, h, master, m)|
         == HEADER_LEN + h.plaintextLen + (h.DataRecordCount() + 1) * (RECORD_HEADER_LEN + TagLen(h.suite))
  {
    hide Lawful, HeaderBytes, Records;
    CountFits(h);
    RecordsLength(p, h, master, m, 0);
  }

  /** The bytes written are as many as the header's own length arithmetic says, unless that leaves 64 bits. */
  lemma EncryptedFileLength(p: Primitives, h: Header, master: seq<byte>, m: seq<byte>)
    requires Lawful(p) && h.Valid() && |m| == h.plaintextLen
    ensures h.ExpectedEncryptedLen() ==
      if |EncryptedFile(p, h, master, m)| < U64_END then Ok(|EncryptedFile(p, h, master, m)|) else Err(FileTooLarge)
  {
    hide EncryptedFile, Header.ExpectedEncryptedLen, Header.DataRecordCount, TagLen, Lawful;
    FileLength(p, h, master, m);
    LengthArithmetic(h);
  }

  lemma LengthArithmetic(h: Header)
    requires h.Valid()
    ensures var total := HEADER_LEN + h.plaintextLen + (h.DataRecordCount() + 1) * (RECORD_HEADER_LEN + TagLen(h.suite));
            h.ExpectedEncryptedLen() == if total < U64_END then Ok(total) else Err(FileTooLarge)
  {
    CountFits(h);
  }

  /** What decryption returns and what it has handed to its writer by then. */
  datatype Outcome = Outcome(result: Result<(), Error>, written: seq<byte>)

  /** The reading loop from record `index` on, with `remaining` plaintext bytes still announced. */
  function OpenRecords(p: Primitives, h: Header, master: seq<byte>, input: seq<byte>, index: nat, remaining: nat): Outcome
    requires h.Valid()
    decreases remaining
  {
    if |input| < RECORD_HEADER_LEN then Outcome(Err(Authentication), [])
    else match DecodeRecord(input[..RECORD_HEADER_LEN])
      case Err(_) => Outcome(Err(Authentication), [])
      case Ok(r) =>
        var n := Min(remaining, CHUNK_SIZE);
        var body := RECORD_HEADER_LEN + n;
        var end := body + TagLen(h.suite);
        if remaining > 0 then
          if r.index != index || r.IsFinal() || r.plaintextLen != n then Outcome(Err(Authentication), [])
          else if |input| < end then Outcome(Err(Authentication), [])
          else match OpenOf(p, h, master, r, input[RECORD_HEADER_LEN..body], input[body..end])
            case Err(e) => Outcome(Err(e), [])
            case Ok(m) =>
              var rest := OpenRecords(p, h, master, input[end..], index + 1, remaining - n);
              Outcome(rest.result, m + rest.written)
        else
          if r != FinalRecord(index) || |input| < end then Outcome(Err(Authentication), [])
          else match OpenOf(p, h, master, r, [], input[body..end])
            case Err(e) => Outcome(Err(e), [])
            case Ok(_) => Outcome(if |input| > end then Err(Authentication) else Ok(()), [])
  }

  /** `decrypt_file`, up to publication: header, suite, declared length, records. */
  function DecryptFile(p: Primitives, expected: Suite, password: seq<byte>, s: seq<byte>): Outcome
  {
    if |s| < HEADER_LEN then Outcome(Err(InvalidFormat), [])
    else match DecodeHeader(s[..HEADER_LEN])
      case Err(e) => Outcome(Err(e), [])
      case Ok(h) =>
        if h.suite != expected then Outcome(Err(SuiteMismatch), [])
        else match h.ExpectedEncryptedLen()
          case Err(e) => Outcome(Err(e), [])
          case Ok(len) =>
            if len != |s| then Outcome(Err(InvalidFormat), [])
            else OpenRecords(p, h, p.argon2(password, h.salt), s[HEADER_LEN..], 0, h.plaintextLen)
  }

  lemma ThreeParts(s: seq<byte>, a: seq<byte>, b: seq<byte>, c: seq<byte>, d: seq<byte>)
    requires |s| == |a| + |b| + |c| + |d|
    ensures s == a + (b + (c + d)) <==>
      && s[..|a|] == a && s[|a|..|a| + |b|] == b
      && s[|a| + |b|..|a| + |b| + |c|] == c && s[|a| + |b| + |c|..] == d
  {
    Cut(s, a, b + (c + d));
    CutAt(s, |a|, |b|, b, c + d);
    CutAt(s, |a| + |b|, |c|, c, d);
  }

  /** A framed record at the front of a stream is recognised and opened. */
  lemma FrameOpens(p: Primitives, h: Header, master: seq<byte>, r: RecordHeader, m: seq<byte>, tail: seq<byte>)
    requires Lawful(p) && h.Valid() && r.Valid() && |m| <= CHUNK_SIZE && (r.flags == 0 || r.flags == FINAL_FLAG)
    ensures var s := SealedRecord(p, h, master, r, m) + tail;
            var body := RECORD_HEADER_LEN + |m|;
            var end := body + TagLen(h.suite);
            && |s| == end + |tail| && s[end..] == tail
            && DecodeRecord(s[..RECORD_HEADER_LEN]) == Ok(r)
            && OpenOf(p, h, master, r, s[RECORD_HEADER_LEN..body], s[body..end]) == Ok(m)
  {
    hide Lawful, HeaderBytes, RecordBytes, DecodeRecord, SealOf, OpenOf;
    OpenOfSeal(p, h, master, r, m);
    var (c, t) := SealOf(p, h, master, r, m).value;
    var s := SealedRecord(p, h, master, r, m) + tail;
    assert s == RecordBytes(r) + (c + (t + tail));
    ThreeParts(s, RecordBytes(r), c, t, tail);
    RecordCodec(RecordBytes(r), r);
  }

  /** A record that opens is the framed record of what it opened to. */
  lemma OpenedIsFrame(p: Primitives, h: Header, master: seq<byte>, input: seq<byte>, r: RecordHeader, n: nat)
    requires Lawful(p) && h.Valid() && r.Valid() && n <= CHUNK_SIZE
    requires |input| >= RECORD_HEADER_LEN + n + TagLen(h.suite)
    requires DecodeRecord(input[..RECORD_HEADER_LEN]) == Ok(r)
    requires OpenOf(p, h, master, r, input[RECORD_HEADER_LEN..RECORD_HEADER_LEN + n],
                    input[RECORD_HEADER_LEN + n..RECORD_HEADER_LEN + n + TagLen(h.suite)]).Ok?
    ensures var body := RECORD_HEADER_LEN + n;
            var end := body + TagLen(h.suite);
            var m := OpenOf(p, h, master, r, input[RECORD_HEADER_LEN..body], input[body..end]).value;
            && |m| == n && input == SealedRecord(p, h, master, r, m) + input[end..]
            && (r.flags == 0 || r.flags == FINAL_FLAG)
  {
    hide Lawful, HeaderBytes, RecordBytes, DecodeRecord, SealOf, OpenOf;
    var body := RECORD_HEADER_LEN + n;
    var end := body + TagLen(h.suite);
    var c, t := input[RECORD_HEADER_LEN..body], input[body..end];
    RecordCodec(input[..RECORD_HEADER_LEN], r);
    SealOfOpen(p, h, master, r, c, t);
    ThreeParts(input, RecordBytes(r), c, t, input[end..]);
    assert SealedRecord(p, h, master, r, OpenOf(p, h, master, r, c, t).value) == RecordBytes(r) + c + t;
  }

  /** The stream of records of a plaintext is read back as that plaintext. */
  lemma {:induction false} RecordsOpen(p: Primitives, h: Header, master: seq<byte>, rest: seq<byte>, index: nat)
    requires Lawful(p) && h.Valid() && index + DivCeil(|rest|, CHUNK_SIZE) < U64_END
    ensures OpenRecords(p, h, master, Records(p, h, master, rest, index), index, |rest|) == Outcome(Ok(()), rest)
    decreases |rest|
  {
    hide Lawful, HeaderBytes, RecordBytes, DecodeRecord, SealedRecord, OpenOf, DivCeil;
    DivCeilStep(|rest|, CHUNK_SIZE);
    if rest == [] {
      FrameOpens(p, h, master, FinalRecord(index), [], []);
      var s := Records(p, h, master, rest, index);
      assert s == SealedRecord(p, h, master, FinalRecord(index), []) + [];
      assert s[RECORD_HEADER_LEN..RECORD_HEADER_LEN] == [];
    } else {
      var n := Min(|rest|, CHUNK_SIZE);
      FrameOpens(p, h, master, DataRecord(index, n), rest[..n], Records(p, h, master, rest[n..], index + 1));
      RecordsOpen(p, h, master, rest[n..], index + 1);
      assert rest[..n] + rest[n..] == rest;
    }
  }

  /** Conversely, whatever is read to the end without error is the stream of records of what it yields. */
  lemma {:induction false} OpenedIsRecords(p: Primitives, h: Header, master: seq<byte>, input: seq<byte>, index: nat,
                                           remaining: nat)
    requires Lawful(p) && h.Valid() && index + DivCeil(remaining, CHUNK_SIZE) < U64_END
    requires OpenRecords(p, h, master, input, index, remaining).result.Ok?
    ensures var m := OpenRecords(p, h, master, input, index, remaining).written;
            |m| == remaining && Records(p, h, master, m, index) == input
    decreases remaining
  {
    hide Lawful, HeaderBytes, RecordBytes, DecodeRecord, SealedRecord, OpenOf, DivCeil;
    DivCeilStep(remaining, CHUNK_SIZE);
    var n := Min(remaining, CHUNK_SIZE);
    var body := RECORD_HEADER_LEN + n;
    var end := body + TagLen(h.suite);
    var r := DecodeRecord(input[..RECORD_HEADER_LEN]).value;
    assert remaining == 0 ==> input[RECORD_HEADER_LEN..body] == [];
    OpenedIsFrame(p, h, master, input, r, n);
    if remaining > 0 {
      OpenedIsRecords(p, h, master, input[end..], index + 1, remaining - n);
      var m := OpenRecords(p, h, master, input, index, remaining).written;
      var first := OpenOf(p, h, master, r, input[RECORD_HEADER_LEN..body], input[body..end]).value;
      assert r == DataRecord(index, n);
      assert m[..n] == first && m[n..] == OpenRecords(p, h, master, input[end..], index + 1, remaining - n).written;
    } else {
      assert input[end..] == [];
    }
  }

  /** Round trip: every encrypted file decrypts, under its own suite and password, to its plaintext. */
  lemma DecryptOfEncrypt(p: Primitives, h: Header, password: seq<byte>, m: seq<byte>)
    requires Lawful(p) && h.Valid() && |m| == h.plaintextLen && h.ExpectedEncryptedLen().Ok?
    ensures var s := EncryptedFile(p, h, p.argon2(password, h.salt), m);
            DecryptFile(p, h.suite, password, s) == Outcome(Ok(()), m)
  {
    var master := p.argon2(password, h.salt);
    var s := EncryptedFile(p, h, master, m);
    EncryptedFileLength(p, h, master, m);
    CountFits(h);
    HeaderCodec(s[..HEADER_LEN], h);
    assert s[..HEADER_LEN] == HeaderBytes(h) && s[HEADER_LEN..] == Records(p, h, master, m, 0);
    RecordsOpen(p, h, master, m, 0);
  }

  /** Canonicity: an accepted byte string is the one encryption produces for the plaintext it yields. */
  lemma AcceptedIsEncrypted(p: Primitives, expected: Suite, password: seq<byte>, s: seq<byte>) returns (h: Header)
    requires Lawful(p) && DecryptFile(p, expected, password, s).result.Ok?
    ensures h.Valid() && h.suite == expected
    ensures var m := DecryptFile(p, expected, password, s).written;
            |m| == h.plaintextLen && s == EncryptedFile(p, h, p.argon2(password, h.salt), m)
  {
    h := DecodeHeader(s[..HEADER_LEN]).value;
    CountFits(h);
    HeaderCodec(s[..HEADER_LEN], h);
    OpenedIsRecords(p, h, p.argon2(password, h.salt), s[HEADER_LEN..], 0, h.plaintextLen);
    assert s == s[..HEADER_LEN] + s[HEADER_LEN..];
  }
}
