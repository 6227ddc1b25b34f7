/** Pad files and encrypted envelopes of `otp`: layouts, and what the checksum and the tag cover. */
module OtpFormat {
  import opened Bytes

  datatype Error =
    | InvalidPad | InvalidEnvelope | PadAlreadyUsed | WrongPadRole | LengthMismatch | WrongPad
    | AuthenticationFailed | OutputExists | PartialPadPair | PublishedButNotDurable | SameFile | Random | Io

  datatype Role = Sender | Receiver

  function RoleByte(r: Role): byte { if r.Sender? then 1 else 2 }

  const PAD_HEADER_LEN := 80
  const ENVELOPE_HEADER_LEN := 64
  const KEY_ID_LEN := 32
  const AUTH_KEY_LEN := 32
  const CHECKSUM_LEN := 32
  const TAG_LEN := 32
  const PAD_STATE_OFFSET := 17
  const PAD_BYTES_OFFSET := 112
  const PAD_FIXED_LEN := 144
  const ENVELOPE_FIXED_LEN := 96
  const IO_BUFFER_SIZE := 0x1_0000

  /** `b"OTPPAD01"` and `b"OTPENC01"`. */
  const PAD_MAGIC: seq<byte> := [79, 84, 80, 80, 65, 68, 48, 49]
  const ENVELOPE_MAGIC: seq<byte> := [79, 84, 80, 69, 78, 67, 48, 49]
  /** `b"otp/pad-checksum/v1\0"` and `b"otp/envelope-auth/v1\0"`. */
  const PAD_CHECKSUM_DOMAIN: seq<byte> :=
    [111, 116, 112, 47, 112, 97, 100, 45, 99, 104, 101, 99, 107, 115, 117, 109, 47, 118, 49, 0]
  const ENVELOPE_AUTH_DOMAIN: seq<byte> :=
    [111, 116, 112, 47, 101, 110, 118, 101, 108, 111, 112, 101, 45, 97, 117, 116, 104, 47, 118, 49, 0]

  /** SHA-256 and HMAC-SHA-256, as functions. */
  datatype Primitives = Primitives(sha: seq<byte> -> seq<byte>, mac: (seq<byte>, seq<byte>) -> seq<byte>)

  ghost predicate Lawful(p: Primitives)
  {
    && (forall s :: |p.sha(s)| == CHECKSUM_LEN)
    && (forall k, s :: |p.mac(k, s)| == TAG_LEN)
  }

  /** These assumptions can be met. */
  lemma LawfulPrimitives() returns (p: Primitives)
    ensures Lawful(p)
  {
    p := Primitives(_ => Zeros(CHECKSUM_LEN), (_, _) => Zeros(TAG_LEN));
  }

  datatype PadHeader = PadHeader(id: seq<byte>, capacity: nat, role: Role, consumed: bool) {
    predicate Valid()
    {
      |id| == KEY_ID_LEN && !AllZero(id) && capacity < U64_END
    }
  }

  datatype EnvelopeHeader = EnvelopeHeader(id: seq<byte>, plaintextLen: nat) {
    predicate Valid()
    {
      |id| == KEY_ID_LEN && !AllZero(id) && plaintextLen < U64_END
    }
  }

  /** Magic, version, header length, suite and flags. */
  function Prefix(magic: seq<byte>, headerLen: nat): (s: seq<byte>)
    requires |magic| == 8
    ensures |s| == 16
  {
    magic + (BE(1, 2) + (BE(headerLen, 2) + (BE(1, 2) + (BE(0, 2) + []))))
  }

  function PadHeaderBytes(h: PadHeader): (s: seq<byte>)
    requires h.Valid()
    ensures |s| == PAD_HEADER_LEN && s[PAD_STATE_OFFSET] == if h.consumed then 1 else 0
  {
    Prefix(PAD_MAGIC, PAD_HEADER_LEN) + ([RoleByte(h.role), if h.consumed then 1 else 0]
      + (Zeros(6) + (h.id + (BE(h.capacity, 8) + Zeros(16)))))
  }

  function EnvelopeHeaderBytes(h: EnvelopeHeader): (s: seq<byte>)
    requires h.Valid()
    ensures |s| == ENVELOPE_HEADER_LEN
  {
    Prefix(ENVELOPE_MAGIC, ENVELOPE_HEADER_LEN) + (h.id + (BE(h.plaintextLen, 8) + (Zeros(8) + ([] + []))))
  }

  predicate PrefixChecks(s: seq<byte>, magic: seq<byte>, headerLen: nat)
    requires |s| >= 16
  {
    && s[0..8] == magic && FromBE(s[8..10]) == 1 && FromBE(s[10..12]) == headerLen
    && FromBE(s[12..14]) == 1 && s[14..16] == [0, 0]
  }

  function ParsePadHeader(s: seq<byte>): (r: Result<PadHeader, Error>)
    requires |s| == PAD_HEADER_LEN
    ensures r.Ok? ==> r.value.Valid()
  {
    if !PrefixChecks(s, PAD_MAGIC, PAD_HEADER_LEN) then Err(InvalidPad)
    else if !AllZero(s[18..24]) || !AllZero(s[64..80]) then Err(InvalidPad)
    else if s[17] != 0 && s[17] != 1 then Err(InvalidPad)
    else if s[16] != 1 && s[16] != 2 then Err(InvalidPad)
    else if AllZero(s[24..56]) then Err(InvalidPad)
    else
      assert FromBE(s[56..64]) < U64_END by { Widths(); BEOfFromBE(s[56..64]); }
      Ok(PadHeader(s[24..56], FromBE(s[56..64]), if s[16] == 1 then Sender else Receiver, s[17] == 1))
  }

  function ParseEnvelopeHeader(s: seq<byte>): (r: Result<EnvelopeHeader, Error>)
    requires |s| == ENVELOPE_HEADER_LEN
    ensures r.Ok? ==> r.value.Valid()
  {
    if !PrefixChecks(s, ENVELOPE_MAGIC, ENVELOPE_HEADER_LEN) then Err(InvalidEnvelope)
    else if !AllZero(s[56..64]) then Err(InvalidEnvelope)
    else if AllZero(s[16..48]) then Err(InvalidEnvelope)
    else
      assert FromBE(s[48..56]) < U64_END by { Widths(); BEOfFromBE(s[48..56]); }
      Ok(EnvelopeHeader(s[16..48], FromBE(s[48..56])))
  }

  lemma PrefixCodec(s: seq<byte>, magic: seq<byte>, headerLen: nat)
    requires |s| >= 16 && |magic| == 8 && headerLen < U16_END
    ensures PrefixChecks(s, magic, headerLen) <==> s[..16] == Prefix(magic, headerLen)
  {
    Widths();
    BEField(s[8..10], 1, 2);
    BEField(s[10..12], headerLen, 2);
    BEField(s[12..14], 1, 2);
    BEField(s[14..16], 0, 2);
    var q := s[..16];
    SixParts(q, magic, BE(1, 2), BE(headerLen, 2), BE(1, 2), BE(0, 2), []);
    assert q[0..8] == s[0..8] && q[8..10] == s[8..10] && q[10..12] == s[10..12];
    assert q[12..14] == s[12..14] && q[14..16] == s[14..16] && q[16..] == [];
    assert BE(0, 2) == [0, 0];
  }

  lemma AllZeroIsZeros(s: seq<byte>)
    ensures AllZero(s) <==> s == Zeros(|s|)
  {
  }

  /** A byte string parses to a pad header exactly when it is that header's encoding. */
  lemma PadHeaderCodec(s: seq<byte>, h: PadHeader)
    requires |s| == PAD_HEADER_LEN && h.Valid()
    ensures ParsePadHeader(s) == Ok(h) <==> s == PadHeaderBytes(h)
  {
    hide PrefixChecks, Prefix;
    Widths();
    PrefixCodec(s, PAD_MAGIC, PAD_HEADER_LEN);
    BEField(s[56..64], h.capacity, 8);
    AllZeroIsZeros(s[18..24]);
    AllZeroIsZeros(s[64..80]);
    SixParts(s, Prefix(PAD_MAGIC, PAD_HEADER_LEN), [RoleByte(h.role), if h.consumed then 1 else 0],
             Zeros(6), h.id, BE(h.capacity, 8), Zeros(16));
    assert s[16..18] == [s[16], s[17]] && s[64..] == s[64..80] && s[0..16] == s[..16];
  }

  lemma EnvelopeHeaderCodec(s: seq<byte>, h: EnvelopeHeader)
    requires |s| == ENVELOPE_HEADER_LEN && h.Valid()
    ensures ParseEnvelopeHeader(s) == Ok(h) <==> s == EnvelopeHeaderBytes(h)
  {
    hide PrefixChecks, Prefix;
    Widths();
    PrefixCodec(s, ENVELOPE_MAGIC, ENVELOPE_HEADER_LEN);
    BEField(s[48..56], h.plaintextLen, 8);
    AllZeroIsZeros(s[56..64]);
    SixParts(s, Prefix(ENVELOPE_MAGIC, ENVELOPE_HEADER_LEN), h.id, BE(h.plaintextLen, 8), Zeros(8), [], []);
    assert s[56..] == s[56..64] && s[0..16] == s[..16];
  }

  /** The header as the checksum sees it: the consumed byte cleared. */
  function Normalized(headerBytes: seq<byte>): (s: seq<byte>)
    requires |headerBytes| == PAD_HEADER_LEN
    ensures |s| == PAD_HEADER_LEN
  {
    headerBytes[PAD_STATE_OFFSET := 0]
  }

  function ChecksumMessage(headerBytes: seq<byte>, authKey: seq<byte>, pad: seq<byte>): seq<byte>
    requires |headerBytes| == PAD_HEADER_LEN
  {
    PAD_CHECKSUM_DOMAIN + Normalized(headerBytes) + authKey + pad
  }

  function EnvelopeMessage(headerBytes: seq<byte>, ciphertext: seq<byte>): seq<byte>
  {
    ENVELOPE_AUTH_DOMAIN + headerBytes + ciphertext
  }

  /** With keys of one length, the checksummed message determines key, pad and all of the header but its
      state byte, and nothing else matters. */
  lemma ChecksumMessageCovers(hb1: seq<byte>, k1: seq<byte>, pad1: seq<byte>, hb2: seq<byte>, k2: seq<byte>, pad2: seq<byte>)
    requires |hb1| == |hb2| == PAD_HEADER_LEN && |k1| == |k2|
    ensures ChecksumMessage(hb1, k1, pad1) == ChecksumMessage(hb2, k2, pad2) <==>
      && k1 == k2 && pad1 == pad2
      && forall i :: 0 <= i < PAD_HEADER_LEN && i != PAD_STATE_OFFSET ==> hb1[i] == hb2[i]
  {
    var m1, m2 := ChecksumMessage(hb1, k1, pad1), ChecksumMessage(hb2, k2, pad2);
    var d := |PAD_CHECKSUM_DOMAIN|;
    var e := d + PAD_HEADER_LEN;
    var f := e + |k1|;
    assert Normalized(hb1) == m1[d..e] && Normalized(hb2) == m2[d..e];
    assert k1 == m1[e..f] && k2 == m2[e..f] && pad1 == m1[f..] && pad2 == m2[f..];
    if m1 == m2 {
      forall i | 0 <= i < PAD_HEADER_LEN && i != PAD_STATE_OFFSET
        ensures hb1[i] == hb2[i]
      {
        assert Normalized(hb1)[i] == Normalized(hb2)[i];
      }
    }
    if forall i :: 0 <= i < PAD_HEADER_LEN && i != PAD_STATE_OFFSET ==> hb1[i] == hb2[i] {
      assert Normalized(hb1) == Normalized(hb2);
    }
  }

  /** A complete pad file. */
  function PadFile(p: Primitives, h: PadHeader, authKey: seq<byte>, pad: seq<byte>): (s: seq<byte>)
    requires h.Valid() && |authKey| == AUTH_KEY_LEN && |pad| == h.capacity
  {
    PadHeaderBytes(h) + authKey + pad + p.sha(ChecksumMessage(PadHeaderBytes(h), authKey, pad))
  }

  /** A complete encrypted file. */
  function EnvelopeFile(p: Primitives, h: EnvelopeHeader, authKey: seq<byte>, ciphertext: seq<byte>): seq<byte>
    requires h.Valid()
  {
    EnvelopeHeaderBytes(h) + ciphertext + p.mac(authKey, EnvelopeMessage(EnvelopeHeaderBytes(h), ciphertext))
  }

  /** What `validate_pad` returns for the body of a pad file and an already parsed header. */
  function ValidatedChecksum(p: Primitives, file: seq<byte>, headerBytes: seq<byte>, h: PadHeader): (r: Result<seq<byte>, Error>)
    requires |headerBytes| == PAD_HEADER_LEN && h.Valid()
  {
    var end := PAD_BYTES_OFFSET + h.capacity;
    if PAD_FIXED_LEN + h.capacity >= U64_END || |file| != PAD_FIXED_LEN + h.capacity then Err(InvalidPad)
    else if p.sha(ChecksumMessage(headerBytes, file[PAD_HEADER_LEN..PAD_BYTES_OFFSET], file[PAD_BYTES_OFFSET..end])) != file[end..]
    then Err(InvalidPad)
    else Ok(file[end..])
  }

  /** A pad file that `inspect_pad` would accept, and what it says. */
  function InspectPad(p: Primitives, file: seq<byte>): Result<PadHeader, Error>
  {
    if |file| < PAD_HEADER_LEN then Err(InvalidPad)
    else match ParsePadHeader(file[..PAD_HEADER_LEN])
      case Err(e) => Err(e)
      case Ok(h) => match ValidatedChecksum(p, file, file[..PAD_HEADER_LEN], h)
        case Err(e) => Err(e)
        case Ok(_) => Ok(h)
  }

  lemma PadFileInspects(p: Primitives, h: PadHeader, authKey: seq<byte>, pad: seq<byte>)
    requires Lawful(p) && h.Valid() && |authKey| == AUTH_KEY_LEN && |pad| == h.capacity
    requires PAD_FIXED_LEN + h.capacity < U64_END
    ensures InspectPad(p, PadFile(p, h, authKey, pad)) == Ok(h)
    ensures var f := PadFile(p, h, authKey, pad);
            && |f| == PAD_FIXED_LEN + h.capacity && f[..PAD_HEADER_LEN] == PadHeaderBytes(h)
            && f[PAD_HEADER_LEN..PAD_BYTES_OFFSET] == authKey
            && f[PAD_BYTES_OFFSET..PAD_BYTES_OFFSET + h.capacity] == pad
  {
    hide PadHeaderBytes, ChecksumMessage;
    var f := PadFile(p, h, authKey, pad);
    var end := PAD_BYTES_OFFSET + h.capacity;
    assert f[..PAD_HEADER_LEN] == PadHeaderBytes(h);
    assert f[PAD_HEADER_LEN..PAD_BYTES_OFFSET] == authKey && f[PAD_BYTES_OFFSET..end] == pad;
    assert f[end..] == p.sha(ChecksumMessage(PadHeaderBytes(h), authKey, pad));
    PadHeaderCodec(PadHeaderBytes(h), h);
  }

  /** Writing the consumed byte keeps a valid pad valid and changes nothing else it says. */
  lemma MarkingKeepsPadValid(p: Primitives, file: seq<byte>)
    requires InspectPad(p, file).Ok?
    ensures InspectPad(p, file[PAD_STATE_OFFSET := 1]) == Ok(InspectPad(p, file).value.(consumed := true))
  {
    hide PadHeaderBytes, Prefix, PrefixChecks;
    var h := InspectPad(p, file).value;
    var hb := file[..PAD_HEADER_LEN];
    var marked := file[PAD_STATE_OFFSET := 1];
    var mb := marked[..PAD_HEADER_LEN];
    assert mb == hb[PAD_STATE_OFFSET := 1];
    assert PrefixChecks(mb, PAD_MAGIC, PAD_HEADER_LEN) by {
      PrefixCodec(hb, PAD_MAGIC, PAD_HEADER_LEN);
      PrefixCodec(mb, PAD_MAGIC, PAD_HEADER_LEN);
      assert mb[..16] == hb[..16];
    }
    assert mb[18..24] == hb[18..24] && mb[24..56] == hb[24..56] && mb[56..64] == hb[56..64] && mb[64..80] == hb[64..80];
    assert ParsePadHeader(mb) == Ok(h.(consumed := true));
    assert Normalized(mb) == Normalized(hb);
    var end := PAD_BYTES_OFFSET + h.capacity;
    assert marked[PAD_HEADER_LEN..PAD_BYTES_OFFSET] == file[PAD_HEADER_LEN..PAD_BYTES_OFFSET];
    assert marked[PAD_BYTES_OFFSET..end] == file[PAD_BYTES_OFFSET..end] && marked[end..] == file[end..];
  }

  /** `xor_exact`: refuses unequal lengths. */
  function XorExact(input: seq<byte>, pad: seq<byte>): Result<seq<byte>, Error>
  {
    if |input| != |pad| then Err(LengthMismatch) else Ok(XorSeq(input, pad))
  }

  /** It succeeds exactly on equal lengths, the same pad undoes it, and only that pad maps the one to the other. */
  lemma XorExactInverts(m: seq<byte>, pad: seq<byte>, c: seq<byte>, other: seq<byte>)
    ensures XorExact(m, pad).Ok? <==> |m| == |pad|
    ensures XorExact(m, pad) == Ok(c) <==> XorExact(c, pad) == Ok(m)
    ensures XorExact(m, pad) == Ok(c) && XorExact(m, other) == Ok(c) ==> pad == other
  {
    hide XorSeq;
    if |m| == |pad| { XorSeqInvolution(m, pad); }
    if |c| == |pad| { XorSeqInvolution(c, pad); }
    if |m| == |pad| == |other| && XorSeq(m, pad) == XorSeq(m, other) { XorSeqInjective(m, pad, other); }
  }
}
