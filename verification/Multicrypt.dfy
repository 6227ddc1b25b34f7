/** `multicrypt`: suites, the container layout, and the counter capacity of its CTR suites. */
module Multicrypt {
  import opened Bytes

  const BASE_HEADER_LEN := 88
  const SALT_LEN := 32
  const KEY_ID_LEN := 16
  const U128_END := 0x1_0000_0000_0000_0000_0000_0000_0000_0000

  /** `b"MCRYPTF\0"`. */
  const MAGIC: seq<byte> := [77, 67, 82, 89, 80, 84, 70, 0]

  datatype Error = InvalidContainer | AlgorithmMismatch | AuthenticationFailed | InputTooLarge | Crypto

  datatype Algorithm =
    | Aes256GcmSiv | Serpent256CtrHmacSha512 | Threefish1024CtrHmacSha512 | AsconAead128 | RabbitHmacSha512
    | Aegis256 | Aegis128L

  function Id(a: Algorithm): nat
  {
    match a
    case Aes256GcmSiv => 1
    case Serpent256CtrHmacSha512 => 2
    case Threefish1024CtrHmacSha512 => 3
    case AsconAead128 => 4
    case RabbitHmacSha512 => 5
    case Aegis256 => 6
    case Aegis128L => 7
  }

  function FromId(id: nat): Option<Algorithm>
  {
    match id
    case 1 => Some(Aes256GcmSiv)
    case 2 => Some(Serpent256CtrHmacSha512)
    case 3 => Some(Threefish1024CtrHmacSha512)
    case 4 => Some(AsconAead128)
    case 5 => Some(RabbitHmacSha512)
    case 6 => Some(Aegis256)
    case 7 => Some(Aegis128L)
    case _ => None
  }

  function NonceLen(a: Algorithm): nat
  {
    match a
    case Aes256GcmSiv => 12
    case Serpent256CtrHmacSha512 => 16
    case Threefish1024CtrHmacSha512 => 128
    case AsconAead128 => 16
    case RabbitHmacSha512 => 8
    case Aegis256 => 32
    case Aegis128L => 16
  }

  function TagLen(a: Algorithm): nat
  {
    match a
    case Aes256GcmSiv => 16
    case AsconAead128 => 16
    case Aegis256 => 32
    case Aegis128L => 32
    case _ => 64
  }

  /** The suites that encrypt with a stream and authenticate with HMAC. */
  predicate IsStream(a: Algorithm)
  {
    a.Serpent256CtrHmacSha512? || a.Threefish1024CtrHmacSha512? || a.RabbitHmacSha512?
  }

  // --- The container ---------------------------------------------------------------------------------------

  /** Bytes 0 to 14: magic, version, suite, flags. */
  function Identity(a: Algorithm): (s: seq<byte>)
    ensures |s| == 14
  {
    MAGIC + ([1, 0] + (BE(Id(a), 2) + (BE(0, 2) + ([] + []))))
  }

  /** Bytes 14 to 24: the lengths of header, nonce and tag, and a reserved field. */
  function Lengths(a: Algorithm): (s: seq<byte>)
    ensures |s| == 10
  {
    BE(BASE_HEADER_LEN + NonceLen(a), 2) + (BE(NonceLen(a), 2) + (BE(TagLen(a), 2) + (BE(0, 4) + ([] + []))))
  }

  function BaseHeader(a: Algorithm, len: nat, keyId: seq<byte>, salt: seq<byte>): (s: seq<byte>)
    requires |keyId| == KEY_ID_LEN && |salt| == SALT_LEN
    ensures |s| == BASE_HEADER_LEN
  {
    Identity(a) + (Lengths(a) + (BE(len, 8) + (BE(len, 8) + (keyId + salt))))
  }

  /** `build_header`. */
  function BuildHeader(a: Algorithm, len: nat, keyId: seq<byte>, salt: seq<byte>, nonce: seq<byte>): Result<seq<byte>, Error>
    requires |keyId| == KEY_ID_LEN && |salt| == SALT_LEN
  {
    if |nonce| != NonceLen(a) then Err(Crypto)
    else if len >= U64_END then Err(InputTooLarge)
    else Ok(BaseHeader(a, len, keyId, salt) + nonce)
  }

  datatype Container = Container(algorithm: Algorithm, header: seq<byte>, keyId: seq<byte>, salt: seq<byte>,
                                 nonce: seq<byte>, ciphertext: seq<byte>, tag: seq<byte>)

  /** `parse`. */
  function Parse(s: seq<byte>, requested: Algorithm): Result<Container, Error>
  {
    if |s| < BASE_HEADER_LEN || s[0..8] != MAGIC || s[8] != 1 || s[9] != 0 then Err(InvalidContainer)
    else match FromId(FromBE(s[10..12]))
      case None => Err(InvalidContainer)
      case Some(a) =>
        if a != requested then Err(AlgorithmMismatch)
        else
          var headerLen := FromBE(s[14..16]);
          if FromBE(s[12..14]) != 0 || FromBE(s[20..24]) != 0 || FromBE(s[16..18]) != NonceLen(a)
             || FromBE(s[18..20]) != TagLen(a) || headerLen != BASE_HEADER_LEN + FromBE(s[16..18]) || headerLen > |s|
          then Err(InvalidContainer)
          else
            var len := FromBE(s[24..32]);
            if len != FromBE(s[32..40]) || headerLen + len + TagLen(a) >= U64_END || headerLen + len + TagLen(a) != |s|
            then Err(InvalidContainer)
            else Ok(Container(a, s[..headerLen], s[40..56], s[56..88], s[BASE_HEADER_LEN..headerLen],
                              s[headerLen..headerLen + len], s[headerLen + len..]))
  }

  lemma IdentityChecks(s: seq<byte>, a: Algorithm)
    requires |s| == 14
    ensures s == Identity(a) <==> s[0..8] == MAGIC && s[8] == 1 && s[9] == 0 && FromBE(s[10..12]) == Id(a) && FromBE(s[12..14]) == 0
  {
    hide BE, FromBE;
    Widths();
    BEField(s[10..12], Id(a), 2);
    BEField(s[12..14], 0, 2);
    SixParts(s, MAGIC, [1, 0], BE(Id(a), 2), BE(0, 2), [], []);
    assert s[8..10] == [s[8], s[9]];
  }

  lemma LengthsChecks(s: seq<byte>, a: Algorithm)
    requires |s| == 10
    ensures s == Lengths(a) <==>
      && FromBE(s[0..2]) == BASE_HEADER_LEN + NonceLen(a) && FromBE(s[2..4]) == NonceLen(a)
      && FromBE(s[4..6]) == TagLen(a) && FromBE(s[6..10]) == 0
  {
    hide BE, FromBE;
    Widths();
    BEField(s[0..2], BASE_HEADER_LEN + NonceLen(a), 2);
    BEField(s[2..4], NonceLen(a), 2);
    BEField(s[4..6], TagLen(a), 2);
    BEField(s[6..10], 0, 4);
    SixParts(s, BE(BASE_HEADER_LEN + NonceLen(a), 2), BE(NonceLen(a), 2), BE(TagLen(a), 2), BE(0, 4), [], []);
  }

  lemma IdIsBijective(id: nat, a: Algorithm)
    ensures FromId(id) == Some(a) <==> id == Id(a)
  {
  }

  /** The 88 fixed bytes pass every check of `parse` that concerns them exactly when they are a base header. */
  lemma BaseChecks(s: seq<byte>, a: Algorithm, len: nat)
    requires |s| >= BASE_HEADER_LEN && len < U64_END
    ensures s[..BASE_HEADER_LEN] == BaseHeader(a, len, s[40..56], s[56..88]) <==>
      && s[0..8] == MAGIC && s[8] == 1 && s[9] == 0 && FromId(FromBE(s[10..12])) == Some(a) && FromBE(s[12..14]) == 0
      && FromBE(s[14..16]) == BASE_HEADER_LEN + NonceLen(a) && FromBE(s[16..18]) == NonceLen(a)
      && FromBE(s[18..20]) == TagLen(a) && FromBE(s[20..24]) == 0
      && FromBE(s[24..32]) == len && FromBE(s[32..40]) == len
  {
    hide BE, FromBE, Identity, Lengths, FromId;
    Widths();
    var b := s[..BASE_HEADER_LEN];
    IdIsBijective(FromBE(s[10..12]), a);
    IdentityChecks(s[0..14], a);
    SubSlice(s, 0, 14, 0, 8);
    SubSlice(s, 0, 14, 10, 12);
    SubSlice(s, 0, 14, 12, 14);
    LengthsChecks(s[14..24], a);
    SubSlice(s, 14, 24, 0, 2);
    SubSlice(s, 14, 24, 2, 4);
    SubSlice(s, 14, 24, 4, 6);
    SubSlice(s, 14, 24, 6, 10);
    BEField(s[24..32], len, 8);
    BEField(s[32..40], len, 8);
    assert b == s[0..BASE_HEADER_LEN];
    SubSlice(s, 0, BASE_HEADER_LEN, 0, 14);
    SubSlice(s, 0, BASE_HEADER_LEN, 14, 24);
    SubSlice(s, 0, BASE_HEADER_LEN, 24, 32);
    SubSlice(s, 0, BASE_HEADER_LEN, 32, 40);
    SubSlice(s, 0, BASE_HEADER_LEN, 40, 56);
    assert b[56..] == s[56..88];
    SixParts(b, Identity(a), Lengths(a), BE(len, 8), BE(len, 8), s[40..56], s[56..88]);
  }

  /** Parsing what was built returns its parts. */
  lemma ParseOfBuild(a: Algorithm, keyId: seq<byte>, salt: seq<byte>, nonce: seq<byte>, c: seq<byte>, tag: seq<byte>)
    requires |keyId| == KEY_ID_LEN && |salt| == SALT_LEN && |nonce| == NonceLen(a) && |tag| == TagLen(a)
    requires BASE_HEADER_LEN + |nonce| + |c| + |tag| < U64_END
    ensures BuildHeader(a, |c|, keyId, salt, nonce).Ok?
    ensures var h := BuildHeader(a, |c|, keyId, salt, nonce).value;
            Parse(h + c + tag, a) == Ok(Container(a, h, keyId, salt, nonce, c, tag))
  {
    hide BE, FromBE, Identity, Lengths;
    var base := BaseHeader(a, |c|, keyId, salt);
    var h := base + nonce;
    var s := h + c + tag;
    assert base[40..56] == keyId && base[56..88] == salt by { BaseFields(a, |c|, keyId, salt); }
    assert s[..BASE_HEADER_LEN] == base && s[40..56] == base[40..56] && s[56..88] == base[56..88];
    BaseChecks(s, a, |c|);
    assert s[..|h|] == h && s[BASE_HEADER_LEN..|h|] == nonce && s[|h|..|h| + |c|] == c && s[|h| + |c|..] == tag;
  }

  lemma BaseFields(a: Algorithm, len: nat, keyId: seq<byte>, salt: seq<byte>)
    requires |keyId| == KEY_ID_LEN && |salt| == SALT_LEN
    ensures BaseHeader(a, len, keyId, salt)[40..56] == keyId && BaseHeader(a, len, keyId, salt)[56..88] == salt
  {
    hide BE, Identity, Lengths;
    var b := BaseHeader(a, len, keyId, salt);
    SixParts(b, Identity(a), Lengths(a), BE(len, 8), BE(len, 8), keyId, salt);
    assert b[56..] == b[56..88];
  }

  /** Whatever parses is what `build_header` makes of its parts, followed by body and tag. */
  lemma ParsedIsBuilt(s: seq<byte>, requested: Algorithm)
    requires Parse(s, requested).Ok?
    ensures var c := Parse(s, requested).value;
            && c.algorithm == requested && |c.keyId| == KEY_ID_LEN && |c.salt| == SALT_LEN && |c.tag| == TagLen(requested)
            && BuildHeader(requested, |c.ciphertext|, c.keyId, c.salt, c.nonce) == Ok(c.header)
            && s == c.header + c.ciphertext + c.tag && |s| < U64_END
  {
    hide BE, FromBE, Identity, Lengths, BaseHeader;
    var c := Parse(s, requested).value;
    BaseChecks(s, requested, |c.ciphertext|);
    assert c.header == s[..BASE_HEADER_LEN] + c.nonce;
    assert s == c.header + c.ciphertext + c.tag;
  }

  // --- Counter capacity ------------------------------------------------------------------------------------

  /** The 128-bit counter of block `i`. */
  function CounterAt(iv: seq<byte>, i: nat): nat
    requires |iv| >= 16
  {
    (FromBE(iv[|iv| - 16..]) + i) % U128_END
  }

  /** `ensure_ctr_capacity`. */
  function EnsureCtrCapacity(iv: seq<byte>, dataLen: nat, blockLen: nat): Result<(), Error>
    requires blockLen > 0
  {
    if dataLen == 0 then Ok(())
    else if |iv| < 16 then Err(Crypto)
    else if FromBE(iv[|iv| - 16..]) + (DivCeil(dataLen, blockLen) - 1) >= U128_END then Err(Crypto)
    else Ok(())
  }

  lemma Width16()
    ensures Pow256(16) == U128_END
  {
    Widths();
    assert Pow256(9) == 256 * Pow256(8) && Pow256(10) == 256 * Pow256(9) && Pow256(11) == 256 * Pow256(10);
    assert Pow256(12) == 256 * Pow256(11) && Pow256(13) == 256 * Pow256(12) && Pow256(14) == 256 * Pow256(13);
    assert Pow256(15) == 256 * Pow256(14);
  }

  /** A nonempty buffer is accepted exactly when the counters of its blocks never wrap: each is greater than the
      one before, and so they are pairwise distinct, as integers and as counter bytes. */
  lemma CapacityExactly(iv: seq<byte>, dataLen: nat, blockLen: nat)
    requires blockLen > 0 && dataLen > 0 && |iv| >= 16
    ensures var blocks := DivCeil(dataLen, blockLen);
            EnsureCtrCapacity(iv, dataLen, blockLen).Ok?
            <==> forall i, j :: 0 <= i < j < blocks ==> CounterAt(iv, i) < CounterAt(iv, j)
  {
    Width16();
    BEOfFromBE(iv[|iv| - 16..]);
    var start, blocks := FromBE(iv[|iv| - 16..]), DivCeil(dataLen, blockLen);
    if EnsureCtrCapacity(iv, dataLen, blockLen).Ok? {
      assert forall i :: 0 <= i < blocks ==> CounterAt(iv, i) == start + i;
    } else {
      var k := U128_END - start;
      assert 0 < k < blocks && CounterAt(iv, k - 1) == U128_END - 1 && CounterAt(iv, k) == 0;
    }
  }

  lemma CountersDistinct(iv: seq<byte>, dataLen: nat, blockLen: nat, i: nat, j: nat)
    requires blockLen > 0 && |iv| >= 16 && EnsureCtrCapacity(iv, dataLen, blockLen).Ok?
    requires i < DivCeil(dataLen, blockLen) && j < DivCeil(dataLen, blockLen)
    ensures BE(CounterAt(iv, i), 16) == BE(CounterAt(iv, j), 16) <==> i == j
  {
    Width16();
    DivCeilStep(dataLen, blockLen);
    CapacityExactly(iv, dataLen, blockLen);
    FromBEOfBE(CounterAt(iv, i), 16);
    FromBEOfBE(CounterAt(iv, j), 16);
  }
}
