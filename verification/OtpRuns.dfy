/** `otp` end to end: what creating, encrypting and decrypting leave in files and ledger. */
module OtpRuns {
  import opened Bytes
  import opened Streams
  import opened OtpFormat
  import opened OtpFiles

  /** What each reading pass of one run saw. The passes over a file need not agree. */
  datatype Views = Views(header: seq<byte>, first: seq<byte>, second: seq<byte>,
                         padHeader: seq<byte>, padBody: seq<byte>, padKey: seq<byte>, padSecond: seq<byte>)

  datatype OpenedPad = OpenedPad(headerBytes: seq<byte>, header: PadHeader, checksum: seq<byte>) {
    predicate Valid()
    {
      |headerBytes| == PAD_HEADER_LEN && header.Valid() && ParsePadHeader(headerBytes) == Ok(header)
    }
  }

  function RequireFreshRole(h: PadHeader, expected: Role): Result<(), Error>
  {
    if h.role != expected then Err(WrongPadRole) else if h.consumed then Err(PadAlreadyUsed) else Ok(())
  }

  function OpenPad(p: Primitives, header: seq<byte>, body: seq<byte>): (r: Result<OpenedPad, Error>)
    ensures r.Ok? ==> r.value.Valid()
  {
    if |header| < PAD_HEADER_LEN then Err(InvalidPad)
    else
      var hb := header[..PAD_HEADER_LEN];
      match ParsePadHeader(hb)
      case Err(e) => Err(e)
      case Ok(h) => match ValidatedChecksum(p, body, hb, h)
        case Err(e) => Err(e)
        case Ok(c) => Ok(OpenedPad(hb, h, c))
  }

  function AuthKey(view: seq<byte>): (r: Result<seq<byte>, Error>)
    ensures r.Ok? ==> |r.value| == AUTH_KEY_LEN
  {
    if |view| < PAD_BYTES_OFFSET then Err(Io) else Ok(view[PAD_HEADER_LEN..PAD_BYTES_OFFSET])
  }

  /** The checks of encryption that come before anything is written. */
  function EncryptChecks(p: Primitives, v: Views): (r: Result<OpenedPad, Error>)
    ensures r.Ok? ==> r.value.Valid() && r.value.header.role == Sender && r.value.header.capacity == |v.header|
  {
    match OpenPad(p, v.padHeader, v.padBody)
    case Err(e) => Err(e)
    case Ok(o) => match RequireFreshRole(o.header, Sender)
      case Err(e) => Err(e)
      case Ok(_) => if o.header.capacity != |v.header| then Err(LengthMismatch) else Ok(o)
  }

  /** `n` bytes from `offset` on; reading none of them succeeds even where the file has ended. */
  predicate HasRegion(file: seq<byte>, offset: nat, n: nat) { n == 0 || offset + n <= |file| }

  function Region(file: seq<byte>, offset: nat, n: nat): (s: seq<byte>)
    requires HasRegion(file, offset, n)
    ensures |s| == n
  {
    if n == 0 then [] else file[offset..offset + n]
  }

  /** The ciphertext of the encrypting pass, if input and pad last exactly and the pad is still the validated one. */
  function EncryptBody(p: Primitives, input: seq<byte>, pad: seq<byte>, o: OpenedPad, authKey: seq<byte>)
    : (r: Result<seq<byte>, Error>)
    requires o.Valid()
  {
    var n := o.header.capacity;
    if |input| < n || !HasRegion(pad, PAD_BYTES_OFFSET, n) then Err(Io)
    else if |input| > n then Err(LengthMismatch)
    else
      var key := Region(pad, PAD_BYTES_OFFSET, n);
      if p.sha(ChecksumMessage(o.headerBytes, authKey, key)) != o.checksum then Err(InvalidPad)
      else Ok(XorSeq(input, key))
  }

  /** The encrypting pass. */
  function EncryptPass(p: Primitives, v: Views, o: OpenedPad, authKey: seq<byte>): Result<seq<byte>, Error>
    requires o.Valid()
  {
    match EncryptBody(p, v.second, v.padSecond, o, authKey)
    case Err(e) => Err(e)
    case Ok(c) => Ok(EnvelopeFile(p, EnvelopeHeader(o.header.id, o.header.capacity), authKey, c))
  }

  datatype OpenedEnvelope = OpenedEnvelope(headerBytes: seq<byte>, header: EnvelopeHeader, pad: OpenedPad, authKey: seq<byte>) {
    predicate Valid()
    {
      && header.Valid() && pad.Valid() && |headerBytes| == ENVELOPE_HEADER_LEN && |authKey| == AUTH_KEY_LEN
      && header.plaintextLen == pad.header.capacity && header.id == pad.header.id
      && pad.header.role == Receiver && !pad.header.consumed
    }
  }

  /** The header of the encrypted file and the length it announces. */
  function OpenEnvelopeHeader(view: seq<byte>): (r: Result<(seq<byte>, EnvelopeHeader), Error>)
    ensures r.Ok? ==> |r.value.0| == ENVELOPE_HEADER_LEN && r.value.1.Valid()
  {
    if |view| < ENVELOPE_HEADER_LEN then Err(InvalidEnvelope)
    else
      var bytes := view[..ENVELOPE_HEADER_LEN];
      match ParseEnvelopeHeader(bytes)
      case Err(e) => Err(e)
      case Ok(e) =>
        if ENVELOPE_FIXED_LEN + e.plaintextLen >= U64_END || |view| != ENVELOPE_FIXED_LEN + e.plaintextLen
        then Err(InvalidEnvelope)
        else Ok((bytes, e))
  }

  /** The first pass of decryption: every check that comes before anything is written. */
  function DecryptChecks(p: Primitives, v: Views): (r: Result<OpenedEnvelope, Error>)
    ensures r.Ok? ==> r.value.Valid()
  {
    match OpenEnvelopeHeader(v.header)
    case Err(x) => Err(x)
    case Ok((eb, e)) => match OpenPad(p, v.padHeader, v.padBody)
      case Err(x) => Err(x)
      case Ok(o) => match RequireFreshRole(o.header, Receiver)
        case Err(x) => Err(x)
        case Ok(_) =>
          if e.id != o.header.id then Err(WrongPad)
          else if e.plaintextLen != o.header.capacity then Err(LengthMismatch)
          else match AuthKey(v.padKey)
            case Err(x) => Err(x)
            case Ok(k) => match Authenticated(p, v.first, eb, e, k)
              case Err(x) => Err(x)
              case Ok(_) => Ok(OpenedEnvelope(eb, e, o, k))
  }

  /** The second pass: decrypt, then check the tag and the pad actually used. */
  function DecryptBody(p: Primitives, input: seq<byte>, pad: seq<byte>, o: OpenedEnvelope): Result<seq<byte>, Error>
    requires o.Valid()
  {
    var n := o.header.plaintextLen;
    var end := ENVELOPE_HEADER_LEN + n;
    if !HasRegion(input, ENVELOPE_HEADER_LEN, n) || !HasRegion(pad, PAD_BYTES_OFFSET, n) then Err(Io)
    else if |input| < end + TAG_LEN then Err(InvalidEnvelope)
    else
      var c, key := input[ENVELOPE_HEADER_LEN..end], Region(pad, PAD_BYTES_OFFSET, n);
      if p.mac(o.authKey, EnvelopeMessage(o.headerBytes, c)) != input[end..end + TAG_LEN] then Err(AuthenticationFailed)
      else if p.sha(ChecksumMessage(o.pad.headerBytes, o.authKey, key)) != o.pad.checksum then Err(InvalidPad)
      else Ok(XorSeq(c, key))
  }

  function DecryptPass(p: Primitives, v: Views, o: OpenedEnvelope): Result<seq<byte>, Error>
    requires o.Valid()
  {
    DecryptBody(p, v.second, v.padSecond, o)
  }

  /** The key and the pad bytes that were checksummed when the pad was opened. */
  function ValidatedKey(v: Views): seq<byte>
  {
    if |v.padBody| < PAD_BYTES_OFFSET then [] else v.padBody[PAD_HEADER_LEN..PAD_BYTES_OFFSET]
  }

  function ValidatedPad(v: Views, n: nat): seq<byte>
  {
    if |v.padBody| < PAD_BYTES_OFFSET + n then [] else v.padBody[PAD_BYTES_OFFSET..PAD_BYTES_OFFSET + n]
  }

  /** The pad bytes that the last pass read. */
  function UsedPad(v: Views, n: nat): seq<byte>
  {
    if HasRegion(v.padSecond, PAD_BYTES_OFFSET, n) then Region(v.padSecond, PAD_BYTES_OFFSET, n) else []
  }

  /** Two different messages with one digest: the only way past the pad checks with other pad bytes. */
  ghost predicate Collide(p: Primitives, x: seq<byte>, y: seq<byte>)
  {
    x != y && p.sha(x) == p.sha(y)
  }

  /** The two messages that the pad checksum compares in one run: at opening, and of what was used. */
  ghost predicate ChecksumFooled(p: Primitives, v: Views, o: OpenedPad, authKey: seq<byte>)
    requires o.Valid()
  {
    Collide(p, ChecksumMessage(o.headerBytes, ValidatedKey(v), ValidatedPad(v, o.header.capacity)),
            ChecksumMessage(o.headerBytes, authKey, UsedPad(v, o.header.capacity)))
  }

  /** Unless it was fooled, the checksum forces the key and the used pad to be the validated ones. */
  lemma PadIsValidated(p: Primitives, v: Views, o: OpenedPad, authKey: seq<byte>)
    requires o.Valid() && |authKey| == AUTH_KEY_LEN && OpenPad(p, v.padHeader, v.padBody) == Ok(o)
    requires p.sha(ChecksumMessage(o.headerBytes, authKey, UsedPad(v, o.header.capacity))) == o.checksum
    ensures |v.padBody| == PAD_FIXED_LEN + o.header.capacity
    ensures ChecksumFooled(p, v, o, authKey)
      || (authKey == ValidatedKey(v) && UsedPad(v, o.header.capacity) == ValidatedPad(v, o.header.capacity))
  {
    hide ParsePadHeader, ChecksumMessage;
    var n := o.header.capacity;
    ChecksumMessageCovers(o.headerBytes, ValidatedKey(v), ValidatedPad(v, n), o.headerBytes, authKey, UsedPad(v, n));
  }

  /** `m` is ciphertext of the second view, under a valid tag, XOR the pad bytes validated at opening, under the
      key validated with them. */
  ghost predicate SoundPlaintext(p: Primitives, v: Views, o: OpenedEnvelope, m: seq<byte>)
    requires o.Valid()
  {
    var n := o.header.plaintextLen;
    && |v.padBody| == PAD_FIXED_LEN + n && |v.second| >= ENVELOPE_HEADER_LEN + n + TAG_LEN
    && o.authKey == ValidatedKey(v)
    && Authenticated(p, v.second, o.headerBytes, o.header, ValidatedKey(v)).Ok?
    && m == XorSeq(v.second[ENVELOPE_HEADER_LEN..ENVELOPE_HEADER_LEN + n], ValidatedPad(v, n))
  }

  /** Two-pass decryption is sound whatever the files do between passes: a plaintext that comes out is the XOR of
      ciphertext bytes carrying a valid tag with the very pad bytes validated when the pad was opened; or else
      the run has found two messages with one digest. */
  lemma TwoPassSound(p: Primitives, v: Views, o: OpenedEnvelope, m: seq<byte>)
    requires DecryptChecks(p, v) == Ok(o) && DecryptPass(p, v, o) == Ok(m)
    ensures SoundPlaintext(p, v, o, m) || ChecksumFooled(p, v, o.pad, o.authKey)
    // Either way, what was decrypted carries a valid tag.
    ensures Authenticated(p, v.second, o.headerBytes, o.header, o.authKey).Ok?
  {
    hide ParsePadHeader, ParseEnvelopeHeader, EnvelopeMessage, ChecksumMessage, XorSeq, RequireFreshRole, OpenPad;
    PadIsValidated(p, v, o.pad, o.authKey);
  }

  /** `e` is the envelope of the whole second view under exactly the validated key and pad. */
  ghost predicate SoundEnvelope(p: Primitives, v: Views, o: OpenedPad, e: seq<byte>)
    requires o.Valid()
  {
    var n := o.header.capacity;
    && |v.second| == n && |v.padBody| == PAD_FIXED_LEN + n
    && e == EnvelopeFile(p, EnvelopeHeader(o.header.id, n), ValidatedKey(v), XorSeq(v.second, ValidatedPad(v, n)))
  }

  /** Likewise encryption only ever uses the pad bytes it validated, even if the file changes meanwhile. */
  lemma EncryptUsesValidatedPad(p: Primitives, v: Views, o: OpenedPad, authKey: seq<byte>, e: seq<byte>)
    requires |authKey| == AUTH_KEY_LEN && EncryptChecks(p, v) == Ok(o) && EncryptPass(p, v, o, authKey) == Ok(e)
    ensures SoundEnvelope(p, v, o, e) || ChecksumFooled(p, v, o, authKey)
  {
    hide ParsePadHeader, ChecksumMessage, EnvelopeFile, RequireFreshRole, OpenPad, XorSeq;
    PadIsValidated(p, v, o, authKey);
  }

  /** The views of a run over files nobody else changes; the last pad pass sees the mark. */
  function SteadyViews(input: seq<byte>, pad: seq<byte>): Views
  {
    Views(input, input, input, pad, pad, pad, Marked(pad))
  }

  lemma MarkedBody(pad: seq<byte>)
    requires |pad| >= PAD_BYTES_OFFSET
    ensures |Marked(pad)| == |pad| && Marked(pad)[PAD_HEADER_LEN..] == pad[PAD_HEADER_LEN..]
    ensures Marked(pad)[PAD_BYTES_OFFSET..] == pad[PAD_BYTES_OFFSET..]
  {
  }

  /** Encrypting a plaintext of exactly the capacity with a fresh sender pad gives its envelope. */
  lemma EncryptSteady(p: Primitives, id: seq<byte>, authKey: seq<byte>, pad: seq<byte>, m: seq<byte>)
    requires Lawful(p) && |authKey| == AUTH_KEY_LEN && |pad| == |m| && PAD_FIXED_LEN + |m| < U64_END
    requires PadHeader(id, |m|, Sender, false).Valid()
    ensures var h := PadHeader(id, |m|, Sender, false);
            var v := SteadyViews(m, PadFile(p, h, authKey, pad));
            && AuthKey(v.padKey) == Ok(authKey)
            && EncryptChecks(p, v).Ok? && EncryptChecks(p, v).value.header == h
            && EncryptPass(p, v, EncryptChecks(p, v).value, authKey)
               == Ok(EnvelopeFile(p, EnvelopeHeader(id, |m|), authKey, XorSeq(m, pad)))
  {
    hide PadHeaderBytes, ChecksumMessage, EnvelopeFile;
    var h := PadHeader(id, |m|, Sender, false);
    var file := PadFile(p, h, authKey, pad);
    var v := SteadyViews(m, file);
    PadFileInspects(p, h, authKey, pad);
    MarkedBody(file);
    assert v.padSecond[PAD_BYTES_OFFSET..PAD_BYTES_OFFSET + |m|]
        == v.padSecond[PAD_BYTES_OFFSET..][..|m|] == file[PAD_BYTES_OFFSET..][..|m|] == pad;
    assert EncryptChecks(p, v).Ok?;
    assert file[PAD_BYTES_OFFSET + |m|..] == p.sha(ChecksumMessage(PadHeaderBytes(h), authKey, pad));
  }

  /** Decrypting that envelope with the fresh receiver copy gives the plaintext back. */
  lemma DecryptSteady(p: Primitives, id: seq<byte>, authKey: seq<byte>, pad: seq<byte>, m: seq<byte>)
    requires Lawful(p) && |authKey| == AUTH_KEY_LEN && |pad| == |m| && PAD_FIXED_LEN + |m| < U64_END
    requires PadHeader(id, |m|, Receiver, false).Valid()
    ensures var h := PadHeader(id, |m|, Receiver, false);
            var e := EnvelopeFile(p, EnvelopeHeader(id, |m|), authKey, XorSeq(m, pad));
            var v := SteadyViews(e, PadFile(p, h, authKey, pad));
            && DecryptChecks(p, v).Ok? && DecryptChecks(p, v).value.header.id == id
            && DecryptPass(p, v, DecryptChecks(p, v).value) == Ok(m)
  {
    hide PadHeaderBytes, EnvelopeHeaderBytes, ChecksumMessage, EnvelopeMessage, ParsePadHeader, ParseEnvelopeHeader, XorSeq;
    var h, eh := PadHeader(id, |m|, Receiver, false), EnvelopeHeader(id, |m|);
    var file, c := PadFile(p, h, authKey, pad), XorSeq(m, pad);
    var e := EnvelopeFile(p, eh, authKey, c);
    var v := SteadyViews(e, file);
    var end := ENVELOPE_HEADER_LEN + |m|;
    PadFileInspects(p, h, authKey, pad);
    MarkedBody(file);
    EnvelopeHeaderCodec(EnvelopeHeaderBytes(eh), eh);
    assert e[..ENVELOPE_HEADER_LEN] == EnvelopeHeaderBytes(eh) && e[ENVELOPE_HEADER_LEN..end] == c;
    assert e[end..end + TAG_LEN] == e[end..] == p.mac(authKey, EnvelopeMessage(EnvelopeHeaderBytes(eh), c));
    assert file[PAD_BYTES_OFFSET + |m|..] == p.sha(ChecksumMessage(PadHeaderBytes(h), authKey, pad));
    assert OpenPad(p, v.padHeader, v.padBody) == Ok(OpenedPad(PadHeaderBytes(h), h, file[PAD_BYTES_OFFSET + |m|..]));
    assert Authenticated(p, e, EnvelopeHeaderBytes(eh), eh, authKey).Ok?;
    assert DecryptChecks(p, v).Ok?;
    assert v.padSecond[PAD_BYTES_OFFSET..PAD_BYTES_OFFSET + |m|]
        == v.padSecond[PAD_BYTES_OFFSET..][..|m|] == file[PAD_BYTES_OFFSET..][..|m|] == pad;
    XorSeqInvolution(m, pad);
  }
}
