/** The `ezcrypt` header: layout, length arithmetic, nonces and associated data. */
module EzFormat {
  import opened Bytes

  const HEADER_LEN := 80
  const TAG_LEN := 16
  const CHUNK_SIZE := 1024 * 1024
  const MIN_MEMORY_KIB := 8 * 1024
  const MAX_MEMORY_KIB := 64 * 1024
  const MAX_TIME_COST := 3
  const MAX_LANES := 1
  const MAX_FILE_LEN := 0x7fff_ffff_ffff_ffff
  /** The longest plaintext whose encoding is at most `MAX_FILE_LEN` bytes long. */
  const MAX_PLAINTEXT_LEN := 9_223_231_301_513_871_247

  /** `b"EZCRYPT\0"`. */
  const MAGIC: seq<byte> := [69, 90, 67, 82, 89, 80, 84, 0]

  datatype Error =
    | TruncatedHeader | BadMagic | UnsupportedVersion | BadHeaderLength | UnsupportedFlags | ReservedBytes
    | InvalidChunkSize | InvalidKdfParameters | InvalidSalt | InvalidNonce | SizeOverflow | LengthMismatch
    | AuthenticationFailed | InputChanged | Io

  datatype Kdf = Kdf(memoryKib: nat, timeCost: nat, lanes: nat) {
    predicate Valid()
    {
      memoryKib < U32_END && timeCost < U32_END && lanes < U32_END
    }

    /** `KdfParams::validate`, with its checked multiplication. */
    function Validate(): Result<(), Error>
    {
      if lanes * 8 >= U32_END then Err(InvalidKdfParameters)
      else if memoryKib < MIN_MEMORY_KIB || memoryKib > MAX_MEMORY_KIB || memoryKib < lanes * 8
              || timeCost == 0 || timeCost > MAX_TIME_COST || lanes == 0 || lanes > MAX_LANES
      then Err(InvalidKdfParameters)
      else Ok(())
    }
  }

  function ChunkCount(len: nat): nat { DivCeil(len, CHUNK_SIZE) }

  /** `chunk_plaintext_len`. */
  function ChunkLen(len: nat, index: nat): (r: Result<nat, Error>)
  {
    if index >= ChunkCount(len) then Err(SizeOverflow)
    else if index * CHUNK_SIZE >= U64_END || index * CHUNK_SIZE > len then Err(SizeOverflow)
    else Ok(Min(len - index * CHUNK_SIZE, CHUNK_SIZE))
  }

  /** `encoded_len`, with every step checked against 64 bits. */
  function EncodedLen(len: nat): Result<nat, Error>
  {
    if len > MAX_FILE_LEN then Err(SizeOverflow)
    else
      var tags := ChunkCount(len) * TAG_LEN;
      var total := HEADER_LEN + TAG_LEN + len + tags + TAG_LEN;
      if tags >= U64_END || HEADER_LEN + TAG_LEN + len >= U64_END || HEADER_LEN + TAG_LEN + len + tags >= U64_END
         || total >= U64_END || total > MAX_FILE_LEN
      then Err(SizeOverflow)
      else Ok(total)
  }

  datatype Header = Header(plaintextLen: nat, kdf: Kdf, salt: seq<byte>, noncePrefix: seq<byte>) {
    predicate Valid()
    {
      plaintextLen < U64_END && kdf.Valid() && |salt| == 16 && |noncePrefix| == 16
    }

    function Validate(): Result<(), Error>
    {
      if kdf.Validate().Err? then Err(kdf.Validate().error)
      else if AllZero(salt) then Err(InvalidSalt)
      else if AllZero(noncePrefix) then Err(InvalidNonce)
      else match EncodedLen(plaintextLen)
        case Err(e) => Err(e)
        case Ok(_) => Ok(())
    }
  }

  /** Bytes 0 to 20: the same in every file. */
  function Preamble(): (s: seq<byte>)
    ensures |s| == 20
  {
    MAGIC + (LE(1, 2) + (LE(HEADER_LEN, 2) + (LE(0, 4) + (LE(CHUNK_SIZE, 4) + []))))
  }

  function KdfBytes(k: Kdf): (s: seq<byte>)
    ensures |s| == 12
  {
    LE(k.memoryKib, 4) + (LE(k.timeCost, 4) + (LE(k.lanes, 4) + ([] + ([] + []))))
  }

  function HeaderBytes(h: Header): (s: seq<byte>)
    requires h.Valid()
    ensures |s| == HEADER_LEN
  {
    Preamble() + (LE(h.plaintextLen, 8) + (KdfBytes(h.kdf) + (h.salt + (h.noncePrefix + Zeros(8)))))
  }

  function DecodeHeader(s: seq<byte>): (r: Result<Header, Error>)
    ensures r.Ok? ==> |s| == HEADER_LEN && r.value.Valid() && r.value.Validate().Ok?
  {
    if |s| != HEADER_LEN then Err(TruncatedHeader)
    else if s[0..8] != MAGIC then Err(BadMagic)
    else if FromLE(s[8..10]) != 1 then Err(UnsupportedVersion)
    else if FromLE(s[10..12]) != HEADER_LEN then Err(BadHeaderLength)
    else if FromLE(s[12..16]) != 0 then Err(UnsupportedFlags)
    else if FromLE(s[16..20]) != CHUNK_SIZE then Err(InvalidChunkSize)
    else if !AllZero(s[72..]) then Err(ReservedBytes)
    else
      assert FromLE(s[20..28]) < U64_END && FromLE(s[28..32]) < U32_END && FromLE(s[32..36]) < U32_END
          && FromLE(s[36..40]) < U32_END by {
        Widths(); LEOfFromLE(s[20..28]); LEOfFromLE(s[28..32]); LEOfFromLE(s[32..36]); LEOfFromLE(s[36..40]);
      }
      var h := Header(FromLE(s[20..28]), Kdf(FromLE(s[28..32]), FromLE(s[32..36]), FromLE(s[36..40])), s[40..56], s[56..72]);
      if h.Validate().Err? then Err(h.Validate().error) else Ok(h)
  }

  lemma PreambleChecks(s: seq<byte>)
    requires |s| == 20
    ensures s == Preamble() <==>
      && s[0..8] == MAGIC && FromLE(s[8..10]) == 1 && FromLE(s[10..12]) == HEADER_LEN
      && FromLE(s[12..16]) == 0 && FromLE(s[16..20]) == CHUNK_SIZE
  {
    Widths();
    LEField(s[8..10], 1, 2);
    LEField(s[10..12], HEADER_LEN, 2);
    LEField(s[12..16], 0, 4);
    LEField(s[16..20], CHUNK_SIZE, 4);
    SixParts(s, MAGIC, LE(1, 2), LE(HEADER_LEN, 2), LE(0, 4), LE(CHUNK_SIZE, 4), []);
  }

  lemma KdfField(s: seq<byte>, k: Kdf)
    requires |s| == 12 && k.Valid()
    ensures s == KdfBytes(k) <==> k == Kdf(FromLE(s[0..4]), FromLE(s[4..8]), FromLE(s[8..12]))
  {
    Widths();
    LEField(s[0..4], k.memoryKib, 4);
    LEField(s[4..8], k.timeCost, 4);
    LEField(s[8..12], k.lanes, 4);
    SixParts(s, LE(k.memoryKib, 4), LE(k.timeCost, 4), LE(k.lanes, 4), [], [], []);
  }

  /** A byte string decodes to a header exactly when it is that header's encoding and the header is acceptable. */
  lemma HeaderCodec(s: seq<byte>, h: Header)
    requires |s| == HEADER_LEN && h.Valid()
    ensures DecodeHeader(s) == Ok(h) <==> s == HeaderBytes(h) && h.Validate().Ok?
  {
    hide Preamble, KdfBytes, EncodedLen;
    Widths();
    PreambleChecks(s[0..20]);
    SubSlice(s, 0, 20, 0, 8);
    SubSlice(s, 0, 20, 8, 10);
    SubSlice(s, 0, 20, 10, 12);
    SubSlice(s, 0, 20, 12, 16);
    SubSlice(s, 0, 20, 16, 20);
    KdfField(s[28..40], h.kdf);
    SubSlice(s, 28, 40, 0, 4);
    SubSlice(s, 28, 40, 4, 8);
    SubSlice(s, 28, 40, 8, 12);
    LEField(s[20..28], h.plaintextLen, 8);
    assert AllZero(s[72..]) <==> s[72..] == Zeros(8);
    SixParts(s, Preamble(), LE(h.plaintextLen, 8), KdfBytes(h.kdf), h.salt, h.noncePrefix, Zeros(8));
  }

  // --- Lengths ---------------------------------------------------------------------------------------------

  /** What the chunks `from` to the last contain together. */
  function ChunksFrom(len: nat, from: nat): nat
    decreases ChunkCount(len) - from
  {
    if from >= ChunkCount(len) || ChunkLen(len, from).Err? then 0 else ChunkLen(len, from).value + ChunksFrom(len, from + 1)
  }

  lemma CountBounds(len: nat)
    ensures len > 0 ==> (ChunkCount(len) - 1) * CHUNK_SIZE < len <= ChunkCount(len) * CHUNK_SIZE
    ensures len == 0 ==> ChunkCount(len) == 0
  {
  }

  /** The chunks partition the plaintext: every chunk but the last is full, none is empty, and together they
      have its length. */
  lemma ChunksPartition(len: nat, index: nat)
    requires len < U64_END && index < ChunkCount(len)
    ensures ChunkLen(len, index).Ok? && 0 < ChunkLen(len, index).value <= CHUNK_SIZE
    ensures index + 1 < ChunkCount(len) ==> ChunkLen(len, index).value == CHUNK_SIZE
    ensures ChunksFrom(len, 0) == len
  {
    CountBounds(len);
    assert index * CHUNK_SIZE <= (ChunkCount(len) - 1) * CHUNK_SIZE;
    SumFrom(len, 0);
  }

  lemma {:induction false} SumFrom(len: nat, from: nat)
    requires len < U64_END && from <= ChunkCount(len)
    ensures ChunksFrom(len, from) == if from < ChunkCount(len) then len - from * CHUNK_SIZE else 0
    decreases ChunkCount(len) - from
  {
    CountBounds(len);
    if from < ChunkCount(len) {
      SumFrom(len, from + 1);
    }
  }

  function TotalLen(len: nat): nat { HEADER_LEN + TAG_LEN + len + ChunkCount(len) * TAG_LEN + TAG_LEN }

  lemma TotalIncreases(a: nat, b: nat)
    requires a < b
    ensures TotalLen(a) < TotalLen(b)
  {
    CountBounds(a);
    CountBounds(b);
    assert ChunkCount(a) <= ChunkCount(b);
  }

  /** The encoded length is strictly increasing and exists exactly up to one plaintext length. */
  lemma EncodedLenExactly(len: nat)
    requires len < U64_END
    ensures EncodedLen(len) == if len <= MAX_PLAINTEXT_LEN then Ok(TotalLen(len)) else Err(SizeOverflow)
    ensures forall shorter :: 0 <= shorter < len ==> TotalLen(shorter) < TotalLen(len)
  {
    forall shorter | 0 <= shorter < len
      ensures TotalLen(shorter) < TotalLen(len)
    {
      TotalIncreases(shorter, len);
    }
    assert TotalLen(MAX_PLAINTEXT_LEN) == MAX_FILE_LEN;
    if len < MAX_PLAINTEXT_LEN { TotalIncreases(len, MAX_PLAINTEXT_LEN); }
    if len > MAX_PLAINTEXT_LEN { TotalIncreases(MAX_PLAINTEXT_LEN, len); }
  }

  // --- Nonces and associated data --------------------------------------------------------------------------

  /** The authenticated parts of a file. */
  datatype Part = HeaderPart | ChunkPart(index: nat, len: nat) | FinalPart(chunks: nat)

  predicate PartFits(part: Part)
  {
    match part
    case HeaderPart => true
    case ChunkPart(index, len) => index < U64_END && len < U32_END
    case FinalPart(chunks) => chunks < U64_END
  }

  function Counter(part: Part): nat
  {
    match part
    case HeaderPart => U64_MAX
    case ChunkPart(index, _) => index
    case FinalPart(chunks) => chunks
  }

  function Nonce(prefix: seq<byte>, counter: nat): (n: seq<byte>)
    requires |prefix| == 16
    ensures |n| == 24
  {
    prefix + LE(counter, 8)
  }

  /** `b"EZCRYPT-HDR-V1"`, `b"EZCRYPT-DATA-V1"` and `b"EZCRYPT-END-V1"`. */
  const HEADER_DOMAIN: seq<byte> := [69, 90, 67, 82, 89, 80, 84, 45, 72, 68, 82, 45, 86, 49]
  const CHUNK_DOMAIN: seq<byte> := [69, 90, 67, 82, 89, 80, 84, 45, 68, 65, 84, 65, 45, 86, 49]
  const FINAL_DOMAIN: seq<byte> := [69, 90, 67, 82, 89, 80, 84, 45, 69, 78, 68, 45, 86, 49]

  function Aad(header: seq<byte>, part: Part): seq<byte>
  {
    match part
    case HeaderPart => HEADER_DOMAIN + header
    case ChunkPart(index, len) => CHUNK_DOMAIN + header + LE(index, 8) + LE(len, 4)
    case FinalPart(chunks) => FINAL_DOMAIN + header + LE(chunks, 8)
  }

  /** The parts that a file with this many plaintext bytes has. */
  predicate PartOf(len: nat, part: Part)
  {
    match part
    case HeaderPart => true
    case ChunkPart(index, n) => ChunkLen(len, index) == Ok(n)
    case FinalPart(chunks) => chunks == ChunkCount(len)
  }

  /** No two parts of one file share a nonce. */
  lemma NoncesDistinct(prefix: seq<byte>, len: nat, a: Part, b: Part)
    requires |prefix| == 16 && len < U64_END && PartOf(len, a) && PartOf(len, b)
    ensures Nonce(prefix, Counter(a)) == Nonce(prefix, Counter(b)) <==> a == b
  {
    CountBounds(len);
    assert ChunkCount(len) < U64_MAX;
    if Nonce(prefix, Counter(a)) == Nonce(prefix, Counter(b)) {
      assert Nonce(prefix, Counter(a))[16..] == LE(Counter(a), 8);
      assert Nonce(prefix, Counter(b))[16..] == LE(Counter(b), 8);
      Widths();
      LEInjective(Counter(a), Counter(b), 8);
    }
  }

  /** The three families of associated data are injective and disjoint. */
  lemma AadInjective(h1: seq<byte>, a: Part, h2: seq<byte>, b: Part)
    requires |h1| == |h2| == HEADER_LEN && PartFits(a) && PartFits(b)
    ensures Aad(h1, a) == Aad(h2, b) <==> h1 == h2 && a == b
  {
    if Aad(h1, a) == Aad(h2, b) {
      var s := Aad(h1, a);
      Widths();
      match a {
        case HeaderPart =>
          assert s[14..] == h1 && b == HeaderPart && s[14..] == h2;
        case ChunkPart(i, n) =>
          assert b.ChunkPart?;
          assert s[15..95] == h1 && s[15..95] == h2;
          assert s[95..103] == LE(i, 8) == LE(b.index, 8) && s[103..] == LE(n, 4) == LE(b.len, 4);
          LEInjective(i, b.index, 8);
          LEInjective(n, b.len, 4);
        case FinalPart(c) =>
          assert b.FinalPart?;
          assert s[14..94] == h1 && s[14..94] == h2 && s[94..] == LE(c, 8) == LE(b.chunks, 8);
          LEInjective(c, b.chunks, 8);
      }
    }
  }
}
