/** The `filecrypt` format: header, STREAM records with a 31-bit position, and an authenticated footer. */
module Filecrypt {
  import opened Bytes

  const HEADER_SIZE := 96
  const RECORD_HEADER_SIZE := 16
  const FOOTER_SIZE := 24
  const TAG_SIZE := 16
  const CHUNK_SIZE := 1024 * 1024
  const MAX_DATA_RECORDS := 0x7fff_ffff
  const MAX_PLAINTEXT_SIZE := MAX_DATA_RECORDS * CHUNK_SIZE
  const RECORD_DATA := 1
  const RECORD_END := 2

  /** `b"FCRYPT01"` and `b"FCRYPTEN"`. */
  const MAGIC: seq<byte> := [70, 67, 82, 89, 80, 84, 48, 49]
  const FOOTER_MAGIC: seq<byte> := [70, 67, 82, 89, 80, 84, 69, 78]

  datatype Error = InvalidFormat | AuthenticationFailed | InputChanged | FileTooLarge | Io

  datatype Algorithm = Aes256GcmSiv | XChaCha20Poly1305

  function AlgorithmByte(a: Algorithm): byte { if a.Aes256GcmSiv? then 1 else 2 }

  function StreamNonceSize(a: Algorithm): nat { if a.Aes256GcmSiv? then 8 else 20 }

  datatype Header = Header(algorithm: Algorithm, plaintextLen: nat, salt: seq<byte>, streamNonce: seq<byte>) {
    predicate Valid()
    {
      && plaintextLen < U64_END && |salt| == 32 && |streamNonce| == 20
      && streamNonce[StreamNonceSize(algorithm)..] == Zeros(20 - StreamNonceSize(algorithm))
    }

    function DataRecordCount(): nat { DivCeil(plaintextLen, CHUNK_SIZE) }
  }

  /** `Header::new`: the unused part of an AES nonce field is cleared. */
  function NewHeader(a: Algorithm, len: nat, salt: seq<byte>, nonce: seq<byte>): (h: Header)
    requires len < U64_END && |salt| == 32 && |nonce| == 20
    ensures h.Valid()
  {
    Header(a, len, salt, nonce[..StreamNonceSize(a)] + Zeros(20 - StreamNonceSize(a)))
  }

  /** Bytes 0 to 16. */
  function Preamble(a: byte): (s: seq<byte>)
    ensures |s| == 16
  {
    MAGIC + (LE(1, 2) + ([a] + ([0] + (LE(CHUNK_SIZE, 4) + []))))
  }

  function HeaderBytes(h: Header): (s: seq<byte>)
    requires h.Valid()
    ensures |s| == HEADER_SIZE
  {
    Preamble(AlgorithmByte(h.algorithm)) + (LE(h.plaintextLen, 8) + (h.salt + (h.streamNonce + (Zeros(20) + []))))
  }

  function ParseHeader(s: seq<byte>): (r: Result<Header, Error>)
    requires |s| == HEADER_SIZE
    ensures r.Ok? ==> r.value.Valid() && r.value.plaintextLen <= MAX_PLAINTEXT_SIZE
  {
    if s[0..8] != MAGIC || FromLE(s[8..10]) != 1 || (s[10] != 1 && s[10] != 2) || s[11] != 0 || !AllZero(s[76..96])
       || FromLE(s[12..16]) != CHUNK_SIZE || FromLE(s[16..24]) > MAX_PLAINTEXT_SIZE
    then Err(InvalidFormat)
    else
      var a := if s[10] == 1 then Aes256GcmSiv else XChaCha20Poly1305;
      var nonce := s[56..76];
      if !AllZero(nonce[StreamNonceSize(a)..]) then Err(InvalidFormat)
      else
        assert nonce[StreamNonceSize(a)..] == Zeros(20 - StreamNonceSize(a));
        Ok(Header(a, FromLE(s[16..24]), s[24..56], nonce))
  }

  lemma PreambleChecks(s: seq<byte>, a: byte)
    requires |s| == 16
    ensures s == Preamble(a) <==> s[0..8] == MAGIC && FromLE(s[8..10]) == 1 && s[10] == a && s[11] == 0 && FromLE(s[12..16]) == CHUNK_SIZE
  {
    hide LE, FromLE;
    Widths();
    LEField(s[8..10], 1, 2);
    LEField(s[12..16], CHUNK_SIZE, 4);
    SixParts(s, MAGIC, LE(1, 2), [a], [0], LE(CHUNK_SIZE, 4), []);
    assert s[10..11] == [s[10]] && s[11..12] == [s[11]];
  }

  /** A byte string parses to a header exactly when it is that header's encoding and its length is allowed. */
  lemma HeaderCodec(s: seq<byte>, h: Header)
    requires |s| == HEADER_SIZE && h.Valid()
    ensures ParseHeader(s) == Ok(h) <==> s == HeaderBytes(h) && h.plaintextLen <= MAX_PLAINTEXT_SIZE
  {
    hide Preamble;
    Widths();
    PreambleChecks(s[0..16], AlgorithmByte(h.algorithm));
    SubSlice(s, 0, 16, 0, 8);
    SubSlice(s, 0, 16, 8, 10);
    SubSlice(s, 0, 16, 12, 16);
    LEField(s[16..24], h.plaintextLen, 8);
    assert AllZero(s[76..96]) <==> s[76..96] == Zeros(20);
    SixParts(s, Preamble(AlgorithmByte(h.algorithm)), LE(h.plaintextLen, 8), h.salt, h.streamNonce, Zeros(20), []);
  }

  /** Constructor and parser agree, whatever an AES caller put into the unused part of its nonce. */
  lemma NewHeaderParses(a: Algorithm, len: nat, salt: seq<byte>, nonce: seq<byte>)
    requires len <= MAX_PLAINTEXT_SIZE && |salt| == 32 && |nonce| == 20
    ensures ParseHeader(HeaderBytes(NewHeader(a, len, salt, nonce))) == Ok(NewHeader(a, len, salt, nonce))
    ensures NewHeader(a, len, salt, nonce).streamNonce[..StreamNonceSize(a)] == nonce[..StreamNonceSize(a)]
  {
    hide HeaderBytes, ParseHeader;
    HeaderCodec(HeaderBytes(NewHeader(a, len, salt, nonce)), NewHeader(a, len, salt, nonce));
  }

  datatype Record = Record(kind: byte, ciphertextLen: nat, sequence: nat) {
    predicate Valid()
    {
      ciphertextLen < U32_END && sequence < U64_END
    }
  }

  function DataRecord(n: nat, sequence: nat): Record { Record(RECORD_DATA, n + TAG_SIZE, sequence) }

  function EndRecord(sequence: nat): Record { Record(RECORD_END, FOOTER_SIZE + TAG_SIZE, sequence) }

  function RecordBytes(r: Record): (s: seq<byte>)
    requires r.Valid()
    ensures |s| == RECORD_HEADER_SIZE
  {
    [r.kind] + ([0] + (LE(0, 2) + (LE(r.ciphertextLen, 4) + (LE(r.sequence, 8) + []))))
  }

  function ParseRecord(s: seq<byte>): (r: Result<Record, Error>)
    requires |s| == RECORD_HEADER_SIZE
    ensures r.Ok? ==> r.value.Valid()
  {
    if s[1] != 0 || s[2] != 0 || s[3] != 0 then Err(AuthenticationFailed)
    else
      assert FromLE(s[4..8]) < U32_END && FromLE(s[8..16]) < U64_END by { Widths(); LEOfFromLE(s[4..8]); LEOfFromLE(s[8..16]); }
      Ok(Record(s[0], FromLE(s[4..8]), FromLE(s[8..16])))
  }

  lemma RecordCodec(s: seq<byte>, r: Record)
    requires |s| == RECORD_HEADER_SIZE && r.Valid()
    ensures ParseRecord(s) == Ok(r) <==> s == RecordBytes(r)
  {
    hide FromLE;
    Widths();
    LEField(s[4..8], r.ciphertextLen, 4);
    LEField(s[8..16], r.sequence, 8);
    SixParts(s, [r.kind], [0], LE(0, 2), LE(r.ciphertextLen, 4), LE(r.sequence, 8), []);
    assert s[0..1] == [s[0]] && s[1..2] == [s[1]] && s[2..4] == [s[2], s[3]] && LE(0, 2) == [0, 0];
  }

  function Footer(count: nat, len: nat): (s: seq<byte>)
    ensures |s| == FOOTER_SIZE
  {
    FOOTER_MAGIC + LE(count, 8) + LE(len, 8)
  }

  predicate FooterVerifies(footer: seq<byte>, count: nat, len: nat)
  {
    |footer| == FOOTER_SIZE && footer[0..8] == FOOTER_MAGIC && FromLE(footer[8..16]) == count && FromLE(footer[16..24]) == len
  }

  /** The footer check accepts exactly the footer that is written. */
  lemma FooterCodec(footer: seq<byte>, count: nat, len: nat)
    requires count < U64_END && len < U64_END
    ensures FooterVerifies(footer, count, len) <==> footer == Footer(count, len)
  {
    Widths();
    if |footer| == FOOTER_SIZE {
      LEField(footer[8..16], count, 8);
      LEField(footer[16..24], len, 8);
      assert footer == footer[0..8] + footer[8..16] + footer[16..24];
    }
    var f := Footer(count, len);
    assert f[0..8] == FOOTER_MAGIC && f[8..16] == LE(count, 8) && f[16..24] == LE(len, 8);
  }

  /** The size limit is exactly the one that gives at most `MAX_DATA_RECORDS` records, and then every position,
      that of the end record included, fits in 31 bits. */
  lemma SizeLimitExactly(len: nat)
    ensures len <= MAX_PLAINTEXT_SIZE <==> DivCeil(len, CHUNK_SIZE) <= MAX_DATA_RECORDS
    ensures len <= MAX_PLAINTEXT_SIZE ==> DivCeil(len, CHUNK_SIZE) < 0x8000_0000
  {
  }
}
