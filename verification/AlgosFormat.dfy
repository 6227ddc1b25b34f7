/** The `algos` file header and record header: fixed layouts, checked field by field. */
module AlgosFormat {
  import opened Bytes
  import opened AlgosSuites
  import opened AlgosCrypto

  const HEADER_LEN := 80
  const RECORD_HEADER_LEN := 16
  const KDF_ARGON2ID := 1
  const ARGON_MEMORY_KIB := 65536
  const ARGON_TIME_COST := 3
  const ARGON_LANES := 1
  const FINAL_FLAG := 1

  /** `b"ALGOENC1"`. */
  const MAGIC: seq<byte> := [65, 76, 71, 79, 69, 78, 67, 49]

  datatype Header = Header(suite: Suite, plaintextLen: nat, salt: seq<byte>, nonceSeed: seq<byte>) {
    predicate Valid()
    {
      plaintextLen < U64_END && |salt| == 16 && |nonceSeed| == 24
    }

    function DataRecordCount(): nat { DivCeil(plaintextLen, CHUNK_SIZE) }

    /** The length of the whole encrypted file, unless some step of it leaves 64 bits. */
    function ExpectedEncryptedLen(): (r: Result<nat, Error>)
    {
      var records := DataRecordCount() + 1;
      var overhead := RECORD_HEADER_LEN + TagLen(suite);
      var total := HEADER_LEN + plaintextLen + records * overhead;
      if records >= U64_END || HEADER_LEN + plaintextLen >= U64_END || records * overhead >= U64_END
         || total >= U64_END
      then Err(FileTooLarge)
      else Ok(total)
    }
  }

  datatype RecordHeader = RecordHeader(index: nat, plaintextLen: nat, flags: byte) {
    predicate Valid()
    {
      index < U64_END && plaintextLen < U32_END
    }

    predicate IsFinal() { flags == FINAL_FLAG }
  }

  function DataRecord(index: nat, len: nat): RecordHeader { RecordHeader(index, len, 0) }

  function FinalRecord(index: nat): RecordHeader { RecordHeader(index, 0, FINAL_FLAG) }

  /** Bytes 14 to 32: key-derivation parameters and chunk size, the same in every file. */
  function Parameters(): (s: seq<byte>)
    ensures |s| == 18
  {
    [KDF_ARGON2ID, 0] + (LE(ARGON_MEMORY_KIB, 4) + (LE(ARGON_TIME_COST, 4)
    + (LE(ARGON_LANES, 2) + (LE(0, 2) + LE(CHUNK_SIZE, 4)))))
  }

  /** Bytes 0 to 12. */
  function Preamble(): (s: seq<byte>)
    ensures |s| == 12
  {
    MAGIC + LE(1, 2) + LE(HEADER_LEN, 2)
  }

  function HeaderBytes(h: Header): (s: seq<byte>)
    requires h.Valid()
    ensures |s| == HEADER_LEN
  {
    Preamble() + (LE(Id(h.suite), 2) + (Parameters() + (LE(h.plaintextLen, 8) + (h.salt + h.nonceSeed))))
  }

  function DecodeHeader(s: seq<byte>): (r: Result<Header, Error>)
    requires |s| == HEADER_LEN
    ensures r.Ok? ==> r.value.Valid()
  {
    if s[0..8] != MAGIC || FromLE(s[8..10]) != 1 || FromLE(s[10..12]) != HEADER_LEN
       || s[14] != KDF_ARGON2ID || s[15] != 0
       || FromLE(s[16..20]) != ARGON_MEMORY_KIB || FromLE(s[20..24]) != ARGON_TIME_COST
       || FromLE(s[24..26]) != ARGON_LANES || FromLE(s[26..28]) != 0 || FromLE(s[28..32]) != CHUNK_SIZE
    then Err(InvalidFormat)
    else match FromId(FromLE(s[12..14]))
      case None => Err(InvalidFormat)
      case Some(suite) =>
        assert FromLE(s[32..40]) < U64_END by { Widths(); LEOfFromLE(s[32..40]); }
        Ok(Header(suite, FromLE(s[32..40]), s[40..56], s[56..80]))
  }

  /** Bytes 0 to 12 pass the checks exactly when they are the preamble. */
  lemma PreambleChecks(s: seq<byte>)
    requires |s| == 12
    ensures s == Preamble() <==> s[0..8] == MAGIC && FromLE(s[8..10]) == 1 && FromLE(s[10..12]) == HEADER_LEN
  {
    Widths();
    LEField(s[8..10], 1, 2);
    LEField(s[10..12], HEADER_LEN, 2);
    assert s == s[0..8] + s[8..10] + s[10..12];
    var q := Preamble();
    assert q[0..8] == MAGIC && q[8..10] == LE(1, 2) && q[10..12] == LE(HEADER_LEN, 2);
  }

  lemma ParameterChecks(s: seq<byte>)
    requires |s| == 18
    ensures s == Parameters() <==>
      && s[0] == KDF_ARGON2ID && s[1] == 0
      && FromLE(s[2..6]) == ARGON_MEMORY_KIB && FromLE(s[6..10]) == ARGON_TIME_COST
      && FromLE(s[10..12]) == ARGON_LANES && FromLE(s[12..14]) == 0 && FromLE(s[14..18]) == CHUNK_SIZE
  {
    Widths();
    LEField(s[2..6], ARGON_MEMORY_KIB, 4);
    LEField(s[6..10], ARGON_TIME_COST, 4);
    LEField(s[10..12], ARGON_LANES, 2);
    LEField(s[12..14], 0, 2);
    LEField(s[14..18], CHUNK_SIZE, 4);
    SixParts(s, [KDF_ARGON2ID, 0], LE(ARGON_MEMORY_KIB, 4), LE(ARGON_TIME_COST, 4), LE(ARGON_LANES, 2), LE(0, 2),
             LE(CHUNK_SIZE, 4));
    assert s[0..2] == [s[0], s[1]];
  }

  /** What `decode` accepts, in terms of the five parts of a header. */
  lemma DecodeHeaderParts(s: seq<byte>)
    requires |s| == HEADER_LEN
    ensures DecodeHeader(s).Ok? <==>
      s[0..12] == Preamble() && s[14..32] == Parameters() && FromId(FromLE(s[12..14])).Some?
  {
    PreambleChecks(s[0..12]);
    ParameterChecks(s[14..32]);
    assert s[0..12][0..8] == s[0..8] && s[0..12][8..10] == s[8..10] && s[0..12][10..12] == s[10..12];
    SubSlice(s, 14, 32, 2, 6);
    SubSlice(s, 14, 32, 6, 10);
    SubSlice(s, 14, 32, 10, 12);
    SubSlice(s, 14, 32, 12, 14);
    SubSlice(s, 14, 32, 14, 18);
  }

  /** A byte string decodes to a header exactly when it is that header's encoding. */
  lemma HeaderCodec(s: seq<byte>, h: Header)
    requires |s| == HEADER_LEN && h.Valid()
    ensures DecodeHeader(s) == Ok(h) <==> s == HeaderBytes(h)
  {
    Widths();
    DecodeHeaderParts(s);
    LEField(s[12..14], Id(h.suite), 2);
    LEField(s[32..40], h.plaintextLen, 8);
    IdentifierIsBijective(h.suite, FromLE(s[12..14]));
    SixParts(s, Preamble(), LE(Id(h.suite), 2), Parameters(), LE(h.plaintextLen, 8), h.salt, h.nonceSeed);
    assert s[56..] == s[56..80];
  }

  function RecordBytes(r: RecordHeader): (s: seq<byte>)
    requires r.Valid()
    ensures |s| == RECORD_HEADER_LEN
  {
    LE(r.index, 8) + (LE(r.plaintextLen, 4) + ([r.flags] + ([0, 0, 0] + ([] + []))))
  }

  function DecodeRecord(s: seq<byte>): (r: Result<RecordHeader, Error>)
    requires |s| == RECORD_HEADER_LEN
    ensures r.Ok? ==> r.value.Valid()
  {
    if s[13..16] != [0, 0, 0] || (s[12] != 0 && s[12] != FINAL_FLAG) then Err(InvalidFormat)
    else
      assert FromLE(s[0..8]) < U64_END && FromLE(s[8..12]) < U32_END by {
        Widths(); LEOfFromLE(s[0..8]); LEOfFromLE(s[8..12]);
      }
      Ok(RecordHeader(FromLE(s[0..8]), FromLE(s[8..12]), s[12]))
  }

  /** The same for record headers whose flag is one of the two defined ones. */
  lemma RecordCodec(s: seq<byte>, r: RecordHeader)
    requires |s| == RECORD_HEADER_LEN && r.Valid()
    ensures DecodeRecord(s) == Ok(r) <==> s == RecordBytes(r) && (r.flags == 0 || r.flags == FINAL_FLAG)
  {
    Widths();
    LEField(s[0..8], r.index, 8);
    LEField(s[8..12], r.plaintextLen, 4);
    SixParts(s, LE(r.index, 8), LE(r.plaintextLen, 4), [r.flags], [0, 0, 0], [], []);
    assert s[12..13] == [s[12]];
  }

  /** `Header::encode`: the fields are copied one after another into a zeroed array. */
  method EncodeHeader(h: Header) returns (a: array<byte>)
    requires h.Valid()
    ensures fresh(a) && a[..] == HeaderBytes(h)
  {
    a := new byte[HEADER_LEN](_ => 0);
    CopyInto(a, 0, Preamble());
    Append(a[..], 0, 12);
    CopyInto(a, 12, LE(Id(h.suite), 2));
    Append(a[..], 12, 14);
    CopyInto(a, 14, Parameters());
    Append(a[..], 14, 32);
    CopyInto(a, 32, LE(h.plaintextLen, 8));
    Append(a[..], 32, 40);
    CopyInto(a, 40, h.salt);
    Append(a[..], 40, 56);
    CopyInto(a, 56, h.nonceSeed);
    Append(a[..], 56, 80);
  }

  lemma Append(s: seq<byte>, off: nat, end: nat)
    requires off <= end <= |s|
    ensures s[..end] == s[..off] + s[off..end]
    ensures end == |s| ==> s[..end] == s
    ensures s[..0] == []
  {
  }

  method EncodeRecord(r: RecordHeader) returns (a: array<byte>)
    requires r.Valid()
    ensures fresh(a) && a[..] == RecordBytes(r)
  {
    a := new byte[RECORD_HEADER_LEN](_ => 0);
    CopyInto(a, 0, LE(r.index, 8));
    Append(a[..], 0, 8);
    CopyInto(a, 8, LE(r.plaintextLen, 4));
    Append(a[..], 8, 12);
    CopyInto(a, 12, [r.flags]);
    Append(a[..], 12, 13);
    assert a[13..16] == a[13..] == [0, 0, 0];
    Append(a[..], 13, 16);
    SixParts(a[..], LE(r.index, 8), LE(r.plaintextLen, 4), [r.flags], [0, 0, 0], [], []);
  }
}
