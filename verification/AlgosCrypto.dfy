/** Sealing and opening one record: dispatch between native AEADs and encrypt-then-HMAC. */
module AlgosCrypto {
  import opened Bytes
  import opened Streams
  import opened AlgosSuites

  datatype Error =
    | InvalidFormat | Authentication | Crypto | FileTooLarge | InputChanged | SuiteMismatch | Io

  const CHUNK_SIZE := 0x1_0000

  /** The library primitives, as functions. */
  datatype Primitives = Primitives(
    aeadSeal: (Suite, seq<byte>, seq<byte>, seq<byte>, seq<byte>) -> (seq<byte>, seq<byte>),
    aeadOpen: (Suite, seq<byte>, seq<byte>, seq<byte>, seq<byte>, seq<byte>) -> Option<seq<byte>>,
    keystreamByte: (Suite, seq<byte>, seq<byte>, nat) -> byte,
    exhausted: (Suite, seq<byte>, seq<byte>, nat) -> bool,
    hmac: (seq<byte>, seq<byte>) -> seq<byte>,
    expand: (seq<byte>, seq<byte>, nat) -> seq<byte>,
    argon2: (seq<byte>, seq<byte>) -> seq<byte>)

  /** What is assumed of them: deterministic AEADs whose `open` inverts `seal` and accepts nothing
      else for the plaintext it returns, keystreams that last for one
      chunk, and 32-byte MACs. */
  ghost predicate Lawful(p: Primitives)
  {
    && (forall s, k, n, a, m :: AeadLaw(p, s, k, n, a, m))
    && (forall s, k, n, a, c, t :: AeadCanonical(p, s, k, n, a, c, t))
    && (forall s, k, n, len: nat | len <= CHUNK_SIZE :: !p.exhausted(s, k, n, len))
    && (forall k, m :: |p.hmac(k, m)| == 32)
  }

  ghost predicate AeadLaw(p: Primitives, s: Suite, k: seq<byte>, n: seq<byte>, a: seq<byte>, m: seq<byte>)
  {
    var (c, t) := p.aeadSeal(s, k, n, a, m);
    |c| == |m| && |t| == 16 && p.aeadOpen(s, k, n, a, c, t) == Some(m)
  }

  ghost predicate AeadCanonical(p: Primitives, s: Suite, k: seq<byte>, n: seq<byte>, a: seq<byte>,
                                c: seq<byte>, t: seq<byte>)
  {
    p.aeadOpen(s, k, n, a, c, t).Some? ==> p.aeadSeal(s, k, n, a, p.aeadOpen(s, k, n, a, c, t).value) == (c, t)
  }

  /** These assumptions can be met. */
  lemma LawfulPrimitives() returns (p: Primitives)
    ensures Lawful(p)
  {
    p := Primitives((_, _, _, _, m) => (m, Zeros(16)), (_, _, _, _, c, t) => if t == Zeros(16) then Some(c) else None,
                    (_, _, _, _) => 0, (_, _, _, _) => false, (_, _) => Zeros(32), (_, _, _) => [], (_, _) => []);
  }

  function Keystream(p: Primitives, s: Suite, key: seq<byte>, nonce: seq<byte>, len: nat): (ks: seq<byte>)
    ensures |ks| == len
  {
    seq<byte>(len, i requires 0 <= i < len => p.keystreamByte(s, key, nonce, i))
  }

  /** `b"algos/envelope/v1/hmac"`. */
  const HMAC_DOMAIN: seq<byte> :=
    [97, 108, 103, 111, 115, 47, 101, 110, 118, 101, 108, 111, 112, 101, 47, 118, 49, 47, 104, 109, 97, 99]

  function HmacMessage(nonce: seq<byte>, aad: seq<byte>, ciphertext: seq<byte>): seq<byte>
    requires |nonce| < 256
  {
    HMAC_DOMAIN + aad + [|nonce|] + nonce + ciphertext
  }

  /** With associated data of one length, the authenticated message determines all its parts. */
  lemma HmacMessageInjective(n1: seq<byte>, a1: seq<byte>, c1: seq<byte>, n2: seq<byte>, a2: seq<byte>, c2: seq<byte>)
    requires |n1| < 256 && |n2| < 256 && |a1| == |a2|
    ensures HmacMessage(n1, a1, c1) == HmacMessage(n2, a2, c2) <==> (n1, a1, c1) == (n2, a2, c2)
  {
    var m1, m2 := HmacMessage(n1, a1, c1), HmacMessage(n2, a2, c2);
    var d, a := |HMAC_DOMAIN|, |HMAC_DOMAIN| + |a1|;
    if m1 == m2 {
      assert a1 == m1[d..a] == m2[d..a] == a2;
      assert |n1| == m1[a] == m2[a] == |n2|;
      assert n1 == m1[a + 1..a + 1 + |n1|] == m2[a + 1..a + 1 + |n1|] == n2;
      assert c1 == m1[a + 1 + |n1|..] == m2[a + 1 + |n1|..] == c2;
    }
  }

  /** A remark on the layout, not on a run: the length of the associated data is not in the message, so that it is
      the callers' one fixed length (`RecordAad`) that makes it injective. With unequal lengths, the length byte of
      the nonce can be read as data. */
  lemma HmacMessageNeedsFixedAad()
    ensures HmacMessage([], [], [0]) == HmacMessage([], [0], [])
  {
    assert HmacMessage([], [], [0]) == HMAC_DOMAIN + [0, 0];
    assert HmacMessage([], [0], []) == HMAC_DOMAIN + [0, 0];
  }

  /** Ciphertext and tag of one record. */
  function Sealed(p: Primitives, s: Suite, key: seq<byte>, macKey: Option<seq<byte>>,
                  nonce: seq<byte>, aad: seq<byte>, m: seq<byte>): (r: Result<(seq<byte>, seq<byte>), Error>)
    requires |nonce| < 256
  {
    if IsNativeAead(s) then Ok(p.aeadSeal(s, key, nonce, aad, m))
    else if p.exhausted(s, key, nonce, |m|) then Err(FileTooLarge)
    else if macKey.None? then Err(Crypto)
    else
      var c := XorSeq(m, Keystream(p, s, key, nonce, |m|));
      Ok((c, p.hmac(macKey.value, HmacMessage(nonce, aad, c))))
  }

  /** Plaintext of one record, if its tag is right. */
  function Opened(p: Primitives, s: Suite, key: seq<byte>, macKey: Option<seq<byte>>,
                  nonce: seq<byte>, aad: seq<byte>, c: seq<byte>, tag: seq<byte>): (r: Result<seq<byte>, Error>)
    requires |nonce| < 256
  {
    if IsNativeAead(s) then
      match p.aeadOpen(s, key, nonce, aad, c, tag)
      case None => Err(Authentication)
      case Some(m) => Ok(m)
    else if macKey.None? then Err(Crypto)
    else if tag != p.hmac(macKey.value, HmacMessage(nonce, aad, c)) then Err(Authentication)
    else if p.exhausted(s, key, nonce, |c|) then Err(FileTooLarge)
    else Ok(XorSeq(c, Keystream(p, s, key, nonce, |c|)))
  }

  /** For every suite, sealing a chunk succeeds, keeps its length, and is undone by opening. */
  lemma OpenedOfSealed(p: Primitives, s: Suite, key: seq<byte>, macKey: Option<seq<byte>>,
                       nonce: seq<byte>, aad: seq<byte>, m: seq<byte>)
    requires Lawful(p) && |nonce| < 256 && |m| <= CHUNK_SIZE
    requires IsNativeAead(s) || macKey.Some?
    ensures Sealed(p, s, key, macKey, nonce, aad, m).Ok?
    ensures var (c, t) := Sealed(p, s, key, macKey, nonce, aad, m).value;
            |c| == |m| && |t| == TagLen(s) && Opened(p, s, key, macKey, nonce, aad, c, t) == Ok(m)
  {
    if IsNativeAead(s) {
      assert AeadLaw(p, s, key, nonce, aad, m);
    } else {
      XorSeqInvolution(m, Keystream(p, s, key, nonce, |m|));
    }
  }

  /** Conversely a ciphertext and tag that open are the ones sealing produces. */
  lemma SealedOfOpened(p: Primitives, s: Suite, key: seq<byte>, macKey: Option<seq<byte>>,
                       nonce: seq<byte>, aad: seq<byte>, c: seq<byte>, t: seq<byte>)
    requires Lawful(p) && |nonce| < 256
    requires Opened(p, s, key, macKey, nonce, aad, c, t).Ok?
    ensures var m := Opened(p, s, key, macKey, nonce, aad, c, t).value;
            |m| == |c| && Sealed(p, s, key, macKey, nonce, aad, m) == Ok((c, t))
  {
    if IsNativeAead(s) {
      assert AeadCanonical(p, s, key, nonce, aad, c, t);
      assert AeadLaw(p, s, key, nonce, aad, p.aeadOpen(s, key, nonce, aad, c, t).value);
    } else {
      XorSeqInvolution(c, Keystream(p, s, key, nonce, |c|));
    }
  }

  method ComputeHmac(p: Primitives, key: seq<byte>, nonce: seq<byte>, aad: seq<byte>, ciphertext: seq<byte>)
    returns (tag: seq<byte>)
    requires |nonce| < 256
    ensures tag == p.hmac(key, HmacMessage(nonce, aad, ciphertext))
  {
    var mac := new Hasher();
    mac.Update(HMAC_DOMAIN);
    mac.Update(aad);
    mac.Update([|nonce|]);
    mac.Update(nonce);
    mac.Update(ciphertext);
    assert mac.absorbed == HmacMessage(nonce, aad, ciphertext);
    tag := mac.Finalize(m => p.hmac(key, m));
  }

  method ApplyUnauthenticated(p: Primitives, s: Suite, key: seq<byte>, nonce: seq<byte>, data: array<byte>)
    returns (ok: bool)
    modifies data
    ensures ok == !p.exhausted(s, key, nonce, data.Length)
    ensures data[..] == if ok then XorSeq(old(data[..]), Keystream(p, s, key, nonce, data.Length)) else old(data[..])
  {
    if p.exhausted(s, key, nonce, data.Length) { return false; }
    var ks := Keystream(p, s, key, nonce, data.Length);
    assert data[..] == data[0..0 + |ks|];
    XorInto(data, 0, ks);
    assert data[..] == data[0..0 + |ks|];
    return true;
  }

  /** Encrypts the buffer in place and returns the tag. */
  method Seal(p: Primitives, s: Suite, key: seq<byte>, macKey: Option<seq<byte>>,
              nonce: seq<byte>, aad: seq<byte>, data: array<byte>) returns (r: Result<seq<byte>, Error>)
    requires Lawful(p) && |nonce| < 256
    modifies data
    ensures match Sealed(p, s, key, macKey, nonce, aad, old(data[..]))
            case Ok((c, t)) => r == Ok(t) && data[..] == c
            case Err(e) => r == Err(e)
  {
    if IsNativeAead(s) {
      assert AeadLaw(p, s, key, nonce, aad, data[..]);
      var (c, t) := p.aeadSeal(s, key, nonce, aad, data[..]);
      CopyInto(data, 0, c);
      assert data[..] == data[0..0 + |c|];
      return Ok(t);
    }
    var ok := ApplyUnauthenticated(p, s, key, nonce, data);
    if !ok { return Err(FileTooLarge); }
    if macKey.None? { return Err(Crypto); }
    var tag := ComputeHmac(p, macKey.value, nonce, aad, data[..]);
    return Ok(tag);
  }

  /** Verifies the tag and decrypts the buffer in place. */
  method Open(p: Primitives, s: Suite, key: seq<byte>, macKey: Option<seq<byte>>,
              nonce: seq<byte>, aad: seq<byte>, data: array<byte>, tag: seq<byte>) returns (r: Result<(), Error>)
    requires Lawful(p) && |nonce| < 256
    modifies data
    ensures match Opened(p, s, key, macKey, nonce, aad, old(data[..]), tag)
            case Ok(m) => r == Ok(()) && data[..] == m
            case Err(e) => r == Err(e)
  {
    if IsNativeAead(s) {
      var m := p.aeadOpen(s, key, nonce, aad, data[..], tag);
      if m.None? { return Err(Authentication); }
      SealedOfOpened(p, s, key, macKey, nonce, aad, data[..], tag);
      CopyInto(data, 0, m.value);
      assert data[..] == data[0..0 + |m.value|];
      return Ok(());
    }
    if macKey.None? { return Err(Crypto); }
    var expected := ComputeHmac(p, macKey.value, nonce, aad, data[..]);
    if tag != expected { return Err(Authentication); }
    var ok := ApplyUnauthenticated(p, s, key, nonce, data);
    if !ok { return Err(FileTooLarge); }
    return Ok(());
  }
}
