/** What an arbitrary byte string can make `algos` write, when no record in it is a forgery. */
module AlgosAttacker {
  import opened Bytes
  import opened AlgosSuites
  import opened AlgosKdf
  import opened AlgosCrypto
  import opened AlgosFormat
  import opened AlgosEnvelope

  /** A file some honest user encrypted under the password. */
  datatype HonestFile = HonestFile(h: Header, m: seq<byte>) {
    predicate Valid()
    {
      h.Valid() && |m| == h.plaintextLen
    }

    /** Header of record `k`; the last one is the final record. */
    function RecordAt(k: nat): (r: RecordHeader)
      requires Valid() && k <= h.DataRecordCount()
      ensures r.Valid()
    {
      CountFits(h);
      if k * CHUNK_SIZE < |m| then DataRecord(k, Min(|m| - k * CHUNK_SIZE, CHUNK_SIZE))
      else FinalRecord(h.DataRecordCount())
    }

    /** Plaintext of record `k`. */
    function ChunkAt(k: nat): (c: seq<byte>)
      requires Valid() && k <= h.DataRecordCount()
      ensures |c| <= CHUNK_SIZE
    {
      if k * CHUNK_SIZE < |m|
      then m[k * CHUNK_SIZE..k * CHUNK_SIZE + Min(|m| - k * CHUNK_SIZE, CHUNK_SIZE)]
      else []
    }
  }

  /** Any number of files; random salts and seeds never repeat, so headers are distinct. */
  ghost predicate HonestSet(files: set<HonestFile>)
  {
    && (forall f :: f in files ==> f.Valid())
    && (forall f, g :: f in files && g in files && f.h == g.h ==> f == g)
  }

  /** Record `k` of `f` was sealed under exactly this key, nonce and associated data, giving `(c, t)`. */
  ghost predicate SealedBy(p: Primitives, password: seq<byte>, f: HonestFile, k: nat, key: seq<byte>,
                           nonce: seq<byte>, aad: seq<byte>, c: seq<byte>, t: seq<byte>)
    requires f.Valid() && k <= f.h.DataRecordCount()
  {
    var r, master := f.RecordAt(k), p.argon2(password, f.h.salt);
    && key == RecordKey(p, master, f.h.suite, r.index)
    && nonce == Nonce(f.h, r.index)
    && aad == RecordAad(HeaderBytes(f.h), RecordBytes(r))
    && SealOf(p, f.h, master, r, f.ChunkAt(k)) == Ok((c, t))
  }

  ghost predicate HonestlySealed(p: Primitives, password: seq<byte>, files: set<HonestFile>, key: seq<byte>,
                                 nonce: seq<byte>, aad: seq<byte>, c: seq<byte>, t: seq<byte>)
    requires HonestSet(files)
  {
    exists f, k: nat :: f in files && k <= f.h.DataRecordCount() && SealedBy(p, password, f, k, key, nonce, aad, c, t)
  }

  /** If the bytes at `i` are a record that opens under the header `h`, then it was honestly sealed. */
  ghost predicate AuthenticAt(p: Primitives, password: seq<byte>, files: set<HonestFile>, h: Header, s: seq<byte>, i: nat)
    requires HonestSet(files) && h.Valid() && i + RECORD_HEADER_LEN <= |s|
  {
    var decoded := DecodeRecord(s[i..i + RECORD_HEADER_LEN]);
    decoded.Ok? ==>
      var r, master := decoded.value, p.argon2(password, h.salt);
      var body := i + RECORD_HEADER_LEN + r.plaintextLen;
      var end := body + TagLen(h.suite);
      end <= |s| && OpenOf(p, h, master, r, s[i + RECORD_HEADER_LEN..body], s[body..end]).Ok? ==>
        HonestlySealed(p, password, files, RecordKey(p, master, h.suite, r.index), Nonce(h, r.index),
                       RecordAad(HeaderBytes(h), RecordBytes(r)), s[i + RECORD_HEADER_LEN..body], s[body..end])
  }

  /** No position of `s` holds a forged record. */
  ghost predicate NoForgery(p: Primitives, password: seq<byte>, files: set<HonestFile>, h: Header, s: seq<byte>)
    requires HonestSet(files) && h.Valid()
  {
    forall i: nat | i + RECORD_HEADER_LEN <= |s| :: AuthenticAt(p, password, files, h, s, i)
  }

  /** The same for whatever header `s` itself announces. */
  ghost predicate Unforged(p: Primitives, password: seq<byte>, files: set<HonestFile>, s: seq<byte>)
    requires HonestSet(files)
  {
    |s| >= HEADER_LEN && DecodeHeader(s[..HEADER_LEN]).Ok? ==>
      NoForgery(p, password, files, DecodeHeader(s[..HEADER_LEN]).value, s)
  }

  lemma HeaderBytesInjective(g: Header, h: Header)
    requires g.Valid() && h.Valid() && HeaderBytes(g) == HeaderBytes(h)
    ensures g == h
  {
    HeaderCodec(HeaderBytes(h), g);
    HeaderCodec(HeaderBytes(h), h);
  }

  lemma AadInjective(h1: seq<byte>, r1: seq<byte>, h2: seq<byte>, r2: seq<byte>)
    requires |h1| == |h2| && RecordAad(h1, r1) == RecordAad(h2, r2)
    ensures h1 == h2 && r1 == r2
  {
    var d := |AAD_DOMAIN|;
    assert h1 == RecordAad(h1, r1)[d..d + |h1|] && h2 == RecordAad(h2, r2)[d..d + |h1|];
    assert r1 == RecordAad(h1, r1)[d + |h1|..] && r2 == RecordAad(h2, r2)[d + |h1|..];
  }

  /** A record of the stream that opens is the record of the same number of the file with the same header. */
  lemma OpenedIsHonestChunk(p: Primitives, password: seq<byte>, files: set<HonestFile>, h: Header, s: seq<byte>, i: nat,
                            r: RecordHeader) returns (f: HonestFile, k: nat)
    requires Lawful(p) && HonestSet(files) && h.Valid() && NoForgery(p, password, files, h, s)
    requires i + RECORD_HEADER_LEN + r.plaintextLen + TagLen(h.suite) <= |s|
    requires DecodeRecord(s[i..i + RECORD_HEADER_LEN]) == Ok(r)
    requires var body := i + RECORD_HEADER_LEN + r.plaintextLen;
             OpenOf(p, h, p.argon2(password, h.salt), r, s[i + RECORD_HEADER_LEN..body], s[body..body + TagLen(h.suite)]).Ok?
    ensures f in files && f.h == h && k <= h.DataRecordCount() && f.RecordAt(k) == r
    ensures var body := i + RECORD_HEADER_LEN + r.plaintextLen;
            OpenOf(p, h, p.argon2(password, h.salt), r, s[i + RECORD_HEADER_LEN..body], s[body..body + TagLen(h.suite)])
              == Ok(f.ChunkAt(k))
  {
    hide Lawful, HeaderBytes, RecordBytes, DecodeRecord, OpenOf, SealOf, RecordAad, RecordKey, DecodeHeader;
    var master := p.argon2(password, h.salt);
    var body := i + RECORD_HEADER_LEN + r.plaintextLen;
    var c, t := s[i + RECORD_HEADER_LEN..body], s[body..body + TagLen(h.suite)];
    assert AuthenticAt(p, password, files, h, s, i);
    f, k :| f in files && k <= f.h.DataRecordCount()
         && SealedBy(p, password, f, k, RecordKey(p, master, h.suite, r.index), Nonce(h, r.index),
                     RecordAad(HeaderBytes(h), RecordBytes(r)), c, t);
    AadInjective(HeaderBytes(h), RecordBytes(r), HeaderBytes(f.h), RecordBytes(f.RecordAt(k)));
    HeaderBytesInjective(h, f.h);
    RecordBytesInjective(f.RecordAt(k), r);
    OpenOfSeal(p, h, master, r, f.ChunkAt(k));
  }

  lemma RecordBytesInjective(q: RecordHeader, r: RecordHeader)
    requires q.Valid() && r.Valid() && RecordBytes(q) == RecordBytes(r)
    requires q.flags == 0 || q.flags == FINAL_FLAG
    ensures q == r
  {
    RecordCodec(RecordBytes(q), q);
    RecordCodec(RecordBytes(q), r);
    assert DecodeRecord(RecordBytes(q)) == Ok(q);
    assert RecordBytes(q)[12] == q.flags && RecordBytes(r)[12] == r.flags;
  }

  /** As the code calls it, the MAC covers everything: file header, record header, nonce and ciphertext. */
  lemma RecordMacCovers(g: Header, q: RecordHeader, n1: seq<byte>, c1: seq<byte>,
                        h: Header, r: RecordHeader, n2: seq<byte>, c2: seq<byte>)
    requires g.Valid() && h.Valid() && q.Valid() && r.Valid() && |n1| < 256 && |n2| < 256
    requires q.flags == 0 || q.flags == FINAL_FLAG
    ensures HmacMessage(n1, RecordAad(HeaderBytes(g), RecordBytes(q)), c1)
         == HmacMessage(n2, RecordAad(HeaderBytes(h), RecordBytes(r)), c2)
         <==> g == h && q == r && n1 == n2 && c1 == c2
  {
    hide HeaderBytes, RecordBytes, HmacMessage, RecordAad;
    var a, b := RecordAad(HeaderBytes(g), RecordBytes(q)), RecordAad(HeaderBytes(h), RecordBytes(r));
    assert |a| == |b| by { AadLength(HeaderBytes(g), RecordBytes(q)); AadLength(HeaderBytes(h), RecordBytes(r)); }
    HmacMessageInjective(n1, a, c1, n2, b, c2);
    if a == b {
      AadInjective(HeaderBytes(g), RecordBytes(q), HeaderBytes(h), RecordBytes(r));
      HeaderBytesInjective(g, h);
      RecordBytesInjective(q, r);
    }
  }

  lemma AadLength(header: seq<byte>, record: seq<byte>)
    ensures |RecordAad(header, record)| == |AAD_DOMAIN| + |header| + |record|
  {
  }

  /** `w` consists of whole leading chunks of `m`, or is all of it. */
  predicate AlignedPrefix(w: seq<byte>, m: seq<byte>)
  {
    w <= m && (|w| % CHUNK_SIZE == 0 || |w| == |m|)
  }

  lemma AlignedStep(first: seq<byte>, w: seq<byte>, m: seq<byte>)
    requires |first| == Min(|m|, CHUNK_SIZE) && first <= m
    requires AlignedPrefix(w, m[|first|..])
    ensures AlignedPrefix(first + w, m)
  {
    assert m == first + m[|first|..];
  }

  lemma AlignedEmpty(m: seq<byte>)
    ensures AlignedPrefix([], m)
  {
  }

  /** From record `index` on, what is written is an aligned prefix of what is left of the honest file. */
  lemma {:induction false} RecordsYieldPrefix(p: Primitives, password: seq<byte>, files: set<HonestFile>, f: HonestFile,
                                              s: seq<byte>, pos: nat, index: nat)
    requires Lawful(p) && HonestSet(files) && f in files && NoForgery(p, password, files, f.h, s)
    requires pos <= |s| && index <= f.h.DataRecordCount()
    ensures var left := f.m[Min(index * CHUNK_SIZE, |f.m|)..];
            AlignedPrefix(OpenRecords(p, f.h, p.argon2(password, f.h.salt), s[pos..], index, |left|).written, left)
    decreases f.h.DataRecordCount() - index
  {
    hide Lawful, HeaderBytes, RecordBytes, DecodeRecord, OpenOf, NoForgery, AlignedPrefix;
    AlignedEmpty(f.m[Min(index * CHUNK_SIZE, |f.m|)..]);
    var h, master := f.h, p.argon2(password, f.h.salt);
    var left := f.m[Min(index * CHUNK_SIZE, |f.m|)..];
    var input := s[pos..];
    var o := OpenRecords(p, h, master, input, index, |left|);
    if o.written != [] {
      var n := Min(|left|, CHUNK_SIZE);
      var body := RECORD_HEADER_LEN + n;
      var end := body + TagLen(h.suite);
      var r := DecodeRecord(input[..RECORD_HEADER_LEN]).value;
      assert input[..RECORD_HEADER_LEN] == s[pos..pos + RECORD_HEADER_LEN];
      assert input[RECORD_HEADER_LEN..body] == s[pos + RECORD_HEADER_LEN..pos + body];
      assert input[body..end] == s[pos + body..pos + end] && input[end..] == s[pos + end..];
      var g, k := OpenedIsHonestChunk(p, password, files, h, s, pos, r);
      assert g == f;
      assert k == index;
      assert f.ChunkAt(index) == left[..n];
      NextChunk(f, index);
      RecordsYieldPrefix(p, password, files, f, s, pos + end, index + 1);
      AlignedStep(left[..n], OpenRecords(p, h, master, input[end..], index + 1, |left| - n).written, left);
    }
  }

  lemma NextChunk(f: HonestFile, index: nat)
    requires f.Valid() && index * CHUNK_SIZE < |f.m|
    ensures index + 1 <= f.h.DataRecordCount()
    ensures var left := f.m[Min(index * CHUNK_SIZE, |f.m|)..];
            f.m[Min((index + 1) * CHUNK_SIZE, |f.m|)..] == left[Min(|left|, CHUNK_SIZE)..]
  {
  }

  /** Under a header no honest file has, not even the first record opens. */
  lemma UnknownHeaderYieldsNothing(p: Primitives, password: seq<byte>, files: set<HonestFile>, h: Header, s: seq<byte>,
                                   pos: nat)
    requires Lawful(p) && HonestSet(files) && h.Valid() && NoForgery(p, password, files, h, s) && pos <= |s|
    requires forall f :: f in files ==> f.h != h
    ensures var o := OpenRecords(p, h, p.argon2(password, h.salt), s[pos..], 0, h.plaintextLen);
            o.result.Err? && o.written == []
  {
    hide Lawful, HeaderBytes, RecordBytes, DecodeRecord, OpenOf, NoForgery;
    var master, input := p.argon2(password, h.salt), s[pos..];
    var o := OpenRecords(p, h, master, input, 0, h.plaintextLen);
    var n := Min(h.plaintextLen, CHUNK_SIZE);
    var body := RECORD_HEADER_LEN + n;
    var end := body + TagLen(h.suite);
    if |input| >= end && DecodeRecord(input[..RECORD_HEADER_LEN]).Ok? {
      var r := DecodeRecord(input[..RECORD_HEADER_LEN]).value;
      assert input[..RECORD_HEADER_LEN] == s[pos..pos + RECORD_HEADER_LEN];
      assert input[RECORD_HEADER_LEN..body] == s[pos + RECORD_HEADER_LEN..pos + body];
      assert input[body..end] == s[pos + body..pos + end];
      assert n == 0 ==> input[RECORD_HEADER_LEN..body] == [];
      if r.plaintextLen == n && OpenOf(p, h, master, r, input[RECORD_HEADER_LEN..body], input[body..end]).Ok? {
        var f, k := OpenedIsHonestChunk(p, password, files, h, s, pos, r);
      }
    }
  }

  ghost predicate IsFile(p: Primitives, password: seq<byte>, f: HonestFile, s: seq<byte>)
    requires Lawful(p) && f.Valid()
  {
    s == EncryptedFile(p, f.h, p.argon2(password, f.h.salt), f.m)
  }

  /** Any byte string either is exactly one honest file and yields its plaintext, or is refused having
      written only leading chunks of one honest plaintext. Reordering, duplicating, splicing, truncating
      and appending records are all covered: none of them gives an honest file. */
  lemma AttackerTheorem(p: Primitives, expected: Suite, password: seq<byte>, files: set<HonestFile>, s: seq<byte>)
    requires Lawful(p) && HonestSet(files) && Unforged(p, password, files, s)
    ensures var o := DecryptFile(p, expected, password, s);
            && (o.result.Ok? ==> exists f ::
                  f in files && f.h.suite == expected && IsFile(p, password, f, s) && o.written == f.m)
            && (o.written == [] || exists f :: f in files && AlignedPrefix(o.written, f.m))
  {
    hide Lawful, HeaderBytes, RecordBytes, DecodeRecord, OpenOf, NoForgery, OpenRecords, DecodeHeader;
    var o := DecryptFile(p, expected, password, s);
    if |s| >= HEADER_LEN && DecodeHeader(s[..HEADER_LEN]).Ok? {
      var h := DecodeHeader(s[..HEADER_LEN]).value;
      if f :| f in files && f.h == h {
        RecordsYieldPrefix(p, password, files, f, s, HEADER_LEN, 0);
        assert f.m[Min(0 * CHUNK_SIZE, |f.m|)..] == f.m;
        if o.result.Ok? {
          CountFits(h);
          OpenedIsRecords(p, h, p.argon2(password, h.salt), s[HEADER_LEN..], 0, h.plaintextLen);
          HeaderCodec(s[..HEADER_LEN], h);
          assert o.written == f.m;
          assert s == s[..HEADER_LEN] + s[HEADER_LEN..];
          assert IsFile(p, password, f, s);
        }
      } else {
        UnknownHeaderYieldsNothing(p, password, files, h, s, HEADER_LEN);
      }
    }
  }
}
