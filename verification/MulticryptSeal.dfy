/** `multicrypt`'s sealed containers: one AEAD call, or a checked stream and an HMAC over header and ciphertext. */
module MulticryptSeal {
  import opened Bytes
  import opened Streams
  import opened Multicrypt

  /** `b"MCRYPT-FILE-v1\0"` and `b"MCRYPT-AUTH-v1\0"`. */
  const KDF_DOMAIN: seq<byte> := [77, 67, 82, 89, 80, 84, 45, 70, 73, 76, 69, 45, 118, 49, 0]
  const AUTH_DOMAIN: seq<byte> := [77, 67, 82, 89, 80, 84, 45, 65, 85, 84, 72, 45, 118, 49, 0]
  /** `b"ENC"` and `b"MAC"`. */
  const ENC: seq<byte> := [69, 78, 67]
  const MAC: seq<byte> := [77, 65, 67]

  datatype Primitives = Primitives(
    keyId: (Algorithm, seq<byte>) -> seq<byte>,
    expand: (seq<byte>, seq<byte>, seq<byte>) -> seq<byte>,
    seal: (Algorithm, seq<byte>, seq<byte>, seq<byte>, seq<byte>) -> (seq<byte>, seq<byte>),
    unseal: (Algorithm, seq<byte>, seq<byte>, seq<byte>, seq<byte>, seq<byte>) -> Option<seq<byte>>,
    keystream: (Algorithm, seq<byte>, seq<byte>, nat) -> seq<byte>,
    hmac: (seq<byte>, seq<byte>) -> seq<byte>)

  ghost predicate Lawful(p: Primitives)
  {
    && (forall a, k :: |p.keyId(a, k)| == KEY_ID_LEN)
    && (forall a, k, n, ad, m :: |p.seal(a, k, n, ad, m).0| == |m| && |p.seal(a, k, n, ad, m).1| == TagLen(a))
    && (forall a, k, n, ad, m, c, t :: p.unseal(a, k, n, ad, c, t) == Some(m) <==> p.seal(a, k, n, ad, m) == (c, t))
    && (forall a, k, n, len :: |p.keystream(a, k, n, len)| == len)
    && (forall k, s :: |p.hmac(k, s)| == 64)
  }

  /** These assumptions can be met. */
  lemma LawfulPrimitives() returns (p: Primitives)
    ensures Lawful(p)
  {
    p := Primitives((_, _) => Zeros(KEY_ID_LEN), (_, _, _) => [], (a, _, _, _, m) => (m, Zeros(TagLen(a))),
                    (a, _, _, _, c, t) => if t == Zeros(TagLen(a)) then Some(c) else None,
                    (_, _, _, len) => Zeros(len), (_, _) => Zeros(64));
  }

  function KdfInfo(a: Algorithm, purpose: seq<byte>): seq<byte> { KDF_DOMAIN + BE(Id(a), 2) + [0] + purpose }

  /** Suites and purposes have their own key-derivation inputs. */
  lemma KdfInfoInjective(a: Algorithm, x: seq<byte>, b: Algorithm, y: seq<byte>)
    ensures KdfInfo(a, x) == KdfInfo(b, y) <==> a == b && x == y
  {
    hide BE, FromBE, Id, FromId;
    if KdfInfo(a, x) == KdfInfo(b, y) {
      Widths();
      IdsAreSmall(a);
      IdsAreSmall(b);
      assert KdfInfo(a, x)[15..17] == BE(Id(a), 2) && KdfInfo(b, y)[15..17] == BE(Id(b), 2);
      FromBEOfBE(Id(a), 2);
      FromBEOfBE(Id(b), 2);
      IdIsBijective(Id(a), a);
      IdIsBijective(Id(a), b);
      assert KdfInfo(a, x)[18..] == x && KdfInfo(b, y)[18..] == y;
    }
  }

  lemma IdsAreSmall(a: Algorithm)
    ensures Id(a) < U16_END
  {
  }

  /** The block length that limits the counter, where there is one. */
  function CounterBlock(a: Algorithm): nat { if a.Serpent256CtrHmacSha512? then 16 else 128 }

  function StreamAllowed(a: Algorithm, nonce: seq<byte>, len: nat): Result<(), Error>
  {
    if a.RabbitHmacSha512? then Ok(()) else EnsureCtrCapacity(nonce, len, CounterBlock(a))
  }

  /** `apply_stream` as a function. */
  function Stream(p: Primitives, a: Algorithm, key: seq<byte>, nonce: seq<byte>, data: seq<byte>): Result<seq<byte>, Error>
    requires |p.keystream(a, key, nonce, |data|)| == |data|
  {
    match StreamAllowed(a, nonce, |data|)
    case Err(e) => Err(e)
    case Ok(_) => Ok(XorSeq(data, p.keystream(a, key, nonce, |data|)))
  }

  function AuthMessage(header: seq<byte>, c: seq<byte>): seq<byte> { AUTH_DOMAIN + header + c }

  function EncryptPayload(p: Primitives, a: Algorithm, m: seq<byte>, key: seq<byte>, macKey: seq<byte>, nonce: seq<byte>,
                          header: seq<byte>): Result<(seq<byte>, seq<byte>), Error>
    requires Lawful(p)
  {
    if !IsStream(a) then Ok(p.seal(a, key, nonce, header, m))
    else match Stream(p, a, key, nonce, m)
      case Err(e) => Err(e)
      case Ok(c) => Ok((c, p.hmac(macKey, AuthMessage(header, c))))
  }

  /** Verify first, decrypt after. */
  function DecryptPayload(p: Primitives, a: Algorithm, c: seq<byte>, t: seq<byte>, key: seq<byte>, macKey: seq<byte>,
                          nonce: seq<byte>, header: seq<byte>): Result<seq<byte>, Error>
    requires Lawful(p)
  {
    if !IsStream(a) then
      match p.unseal(a, key, nonce, header, c, t)
      case None => Err(AuthenticationFailed)
      case Some(m) => Ok(m)
    else if p.hmac(macKey, AuthMessage(header, c)) != t then Err(AuthenticationFailed)
    else Stream(p, a, key, nonce, c)
  }

  /** Under one key, nonce and header, opening is exactly the inverse of sealing. */
  lemma PayloadInverse(p: Primitives, a: Algorithm, m: seq<byte>, c: seq<byte>, t: seq<byte>, key: seq<byte>, macKey: seq<byte>,
                       nonce: seq<byte>, header: seq<byte>)
    requires Lawful(p)
    ensures DecryptPayload(p, a, c, t, key, macKey, nonce, header) == Ok(m)
      <==> EncryptPayload(p, a, m, key, macKey, nonce, header) == Ok((c, t))
    ensures EncryptPayload(p, a, m, key, macKey, nonce, header) == Ok((c, t)) ==> |c| == |m| && |t| == TagLen(a)
  {
    hide XorSeq, EnsureCtrCapacity;
    if IsStream(a) {
      if |c| == |m| {
        var k := p.keystream(a, key, nonce, |m|);
        XorSeqInvolution(m, k);
        XorSeqInvolution(c, k);
      }
    }
  }

  /** `seal_with_material`. */
  function Seal(p: Primitives, a: Algorithm, m: seq<byte>, master: seq<byte>, salt: seq<byte>, nonce: seq<byte>)
    : Result<seq<byte>, Error>
    requires Lawful(p) && |salt| == SALT_LEN
  {
    if |nonce| != NonceLen(a) then Err(Crypto)
    else match BuildHeader(a, |m|, p.keyId(a, master), salt, nonce)
      case Err(e) => Err(e)
      case Ok(header) =>
        match EncryptPayload(p, a, m, p.expand(master, salt, KdfInfo(a, ENC)), p.expand(master, salt, KdfInfo(a, MAC)), nonce, header)
        case Err(e) => Err(e)
        case Ok((c, t)) =>
          if |header| + |c| + |t| >= U64_END then Err(InputTooLarge) else Ok(header + c + t)
  }

  /** `open`. */
  function Open(p: Primitives, requested: Algorithm, s: seq<byte>, master: seq<byte>): Result<seq<byte>, Error>
    requires Lawful(p)
  {
    match Parse(s, requested)
    case Err(e) => Err(e)
    case Ok(c) =>
      if c.keyId != p.keyId(c.algorithm, master) then Err(AuthenticationFailed)
      else DecryptPayload(p, c.algorithm, c.ciphertext, c.tag, p.expand(master, c.salt, KdfInfo(c.algorithm, ENC)),
                          p.expand(master, c.salt, KdfInfo(c.algorithm, MAC)), c.nonce, c.header)
  }

  /** Round trip, and exactly when sealing succeeds: a nonce of the suite's length, a total length in 64 bits, and
      for the CTR suites a counter that does not wrap. */
  lemma OpenOfSeal(p: Primitives, a: Algorithm, m: seq<byte>, master: seq<byte>, salt: seq<byte>, nonce: seq<byte>)
    requires Lawful(p) && |salt| == SALT_LEN
    ensures Seal(p, a, m, master, salt, nonce).Ok? <==>
      && |nonce| == NonceLen(a) && BASE_HEADER_LEN + |nonce| + |m| + TagLen(a) < U64_END
      && (IsStream(a) ==> StreamAllowed(a, nonce, |m|).Ok?)
    ensures Seal(p, a, m, master, salt, nonce).Ok? ==> Open(p, a, Seal(p, a, m, master, salt, nonce).value, master) == Ok(m)
  {
    hide Lawful, Parse, EncryptPayload, DecryptPayload, StreamAllowed, BaseHeader;
    var key, macKey := p.expand(master, salt, KdfInfo(a, ENC)), p.expand(master, salt, KdfInfo(a, MAC));
    KeyIdLength(p, a, master);
    if |nonce| == NonceLen(a) && |m| < U64_END {
      var header := BuildHeader(a, |m|, p.keyId(a, master), salt, nonce).value;
      PayloadSeals(p, a, m, key, macKey, nonce, header);
      var r := EncryptPayload(p, a, m, key, macKey, nonce, header);
      if r.Ok? {
        var (c, t) := r.value;
        PayloadInverse(p, a, m, c, t, key, macKey, nonce, header);
        if |header| + |c| + |t| < U64_END { ParseOfBuild(a, p.keyId(a, master), salt, nonce, c, t); }
      }
    }
  }

  lemma KeyIdLength(p: Primitives, a: Algorithm, master: seq<byte>)
    requires Lawful(p)
    ensures |p.keyId(a, master)| == KEY_ID_LEN
  {
  }

  lemma PayloadSeals(p: Primitives, a: Algorithm, m: seq<byte>, key: seq<byte>, macKey: seq<byte>, nonce: seq<byte>, header: seq<byte>)
    requires Lawful(p)
    ensures EncryptPayload(p, a, m, key, macKey, nonce, header).Ok? <==> (IsStream(a) ==> StreamAllowed(a, nonce, |m|).Ok?)
  {
  }

  /** Canonicity: a container that opens is the sealing of what it yields, under the salt and nonce it carries. */
  lemma OpenedIsSealed(p: Primitives, a: Algorithm, s: seq<byte>, master: seq<byte>)
    requires Lawful(p) && Open(p, a, s, master).Ok?
    ensures Parse(s, a).Ok? && |Parse(s, a).value.salt| == SALT_LEN
    ensures Seal(p, a, Open(p, a, s, master).value, master, Parse(s, a).value.salt, Parse(s, a).value.nonce) == Ok(s)
  {
    hide Lawful, Parse, EncryptPayload, DecryptPayload, BaseHeader;
    var c := Parse(s, a).value;
    ParsedIsBuilt(s, a);
    KeyIdLength(p, a, master);
    PayloadInverse(p, a, Open(p, a, s, master).value, c.ciphertext, c.tag, p.expand(master, c.salt, KdfInfo(a, ENC)),
                   p.expand(master, c.salt, KdfInfo(a, MAC)), c.nonce, c.header);
  }

  /** `apply_stream` in place. */
  method ApplyStream(p: Primitives, a: Algorithm, key: seq<byte>, nonce: seq<byte>, buffer: array<byte>) returns (r: Result<(), Error>)
    requires Lawful(p) && IsStream(a)
    modifies buffer
    ensures match Stream(p, a, key, nonce, old(buffer[..]))
            case Ok(out) => r == Ok(()) && buffer[..] == out
            case Err(e) => r == Err(e) && buffer[..] == old(buffer[..])
  {
    hide XorSeq, EnsureCtrCapacity;
    var allowed := StreamAllowed(a, nonce, buffer.Length);
    if allowed.Err? { return allowed; }
    var keystream := p.keystream(a, key, nonce, buffer.Length);
    assert buffer[..] == buffer[0..0 + |keystream|];
    XorInto(buffer, 0, keystream);
    assert buffer[..] == buffer[0..0 + |keystream|];
    return Ok(());
  }

  /** `compute_hmac`: the MAC object absorbs domain, header and ciphertext in turn. */
  method ComputeHmac(p: Primitives, macKey: seq<byte>, header: seq<byte>, ciphertext: seq<byte>) returns (tag: seq<byte>)
    ensures tag == p.hmac(macKey, AuthMessage(header, ciphertext))
  {
    var mac := new Hasher();
    mac.Update(AUTH_DOMAIN);
    mac.Update(header);
    mac.Update(ciphertext);
    assert mac.absorbed == AuthMessage(header, ciphertext);
    tag := mac.Finalize(s => p.hmac(macKey, s));
  }

  /** The stream suites: encrypt a copy in place, then authenticate it with its header. */
  method SealStream(p: Primitives, a: Algorithm, m: seq<byte>, key: seq<byte>, macKey: seq<byte>, nonce: seq<byte>, header: seq<byte>)
    returns (r: Result<(seq<byte>, seq<byte>), Error>)
    requires Lawful(p) && IsStream(a)
    ensures r == EncryptPayload(p, a, m, key, macKey, nonce, header)
  {
    hide Stream, XorSeq;
    var buffer := new byte[|m|];
    CopyInto(buffer, 0, m);
    assert buffer[..] == buffer[0..0 + |m|] == m;
    var applied := ApplyStream(p, a, key, nonce, buffer);
    if applied.Err? { return Err(applied.error); }
    var tag := ComputeHmac(p, macKey, header, buffer[..]);
    return Ok((buffer[..], tag));
  }

  method OpenStream(p: Primitives, a: Algorithm, c: seq<byte>, tag: seq<byte>, key: seq<byte>, macKey: seq<byte>, nonce: seq<byte>,
                    header: seq<byte>) returns (r: Result<seq<byte>, Error>)
    requires Lawful(p) && IsStream(a)
    ensures r == DecryptPayload(p, a, c, tag, key, macKey, nonce, header)
  {
    hide Stream, XorSeq;
    var expected := ComputeHmac(p, macKey, header, c);
    if expected != tag { return Err(AuthenticationFailed); }
    var buffer := new byte[|c|];
    CopyInto(buffer, 0, c);
    assert buffer[..] == buffer[0..0 + |c|] == c;
    var applied := ApplyStream(p, a, key, nonce, buffer);
    if applied.Err? { return Err(applied.error); }
    return Ok(buffer[..]);
  }

  /** What the tag of a stream suite covers: with the header length fixed by the suite, header and ciphertext. */
  lemma AuthMessageInjective(h1: seq<byte>, c1: seq<byte>, h2: seq<byte>, c2: seq<byte>)
    requires |h1| == |h2|
    ensures AuthMessage(h1, c1) == AuthMessage(h2, c2) <==> h1 == h2 && c1 == c2
  {
    var x, y := AuthMessage(h1, c1), AuthMessage(h2, c2);
    assert x[15..15 + |h1|] == h1 && x[15 + |h1|..] == c1;
    assert y[15..15 + |h1|] == h2 && y[15 + |h1|..] == c2;
  }
}
