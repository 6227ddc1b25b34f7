/** Key-derivation inputs and per-record nonces of `algos`. */
module AlgosKdf {
  import opened Bytes
  import opened AlgosSuites

  /** `b"enc"` and `b"mac"`. */
  const ENC: seq<byte> := [101, 110, 99]
  const MAC: seq<byte> := [109, 97, 99]

  /** What HKDF-Expand is given for the encryption key of one record. */
  function RecordInfo(s: Suite, index: nat): (info: seq<byte>)
    ensures |info| == 13
  {
    ENC + LE(Id(s), 2) + LE(index, 8)
  }

  /** What HKDF-Expand is given for the MAC key of a file. */
  function MacInfo(s: Suite): (info: seq<byte>)
    ensures |info| == 5
  {
    MAC + LE(Id(s), 2)
  }

  datatype Purpose = RecordPurpose(suite: Suite, index: nat) | MacPurpose(suite: Suite)

  function Info(p: Purpose): seq<byte>
  {
    match p
    case RecordPurpose(s, i) => RecordInfo(s, i)
    case MacPurpose(s) => MacInfo(s)
  }

  /** Keys for different purposes, suites or record indices never share an HKDF input. */
  lemma InfoInjective(p: Purpose, q: Purpose)
    requires p.RecordPurpose? ==> p.index < U64_END
    requires q.RecordPurpose? ==> q.index < U64_END
    ensures Info(p) == Info(q) <==> p == q
  {
    if Info(p) == Info(q) {
      Widths();
      assert |Info(p)| == |Info(q)|;
      assert LE(Id(p.suite), 2) == Info(p)[3..5] == Info(q)[3..5] == LE(Id(q.suite), 2);
      LEInjective(Id(p.suite), Id(q.suite), 2);
      IdentifierIsBijective(p.suite, Id(p.suite));
      IdentifierIsBijective(q.suite, Id(q.suite));
      if p.RecordPurpose? {
        assert LE(p.index, 8) == Info(p)[5..13] == Info(q)[5..13] == LE(q.index, 8);
        LEInjective(p.index, q.index, 8);
      }
    }
  }

  /** The nonce of record `index`: the index is folded into the last eight bytes of the seed. */
  function RecordNonce(seed: seq<byte>, nonceLen: nat, index: nat): (r: Option<seq<byte>>)
    requires |seed| == 24
    ensures r.Some? <==> 8 <= nonceLen <= 24 || nonceLen == 32
    ensures r.Some? ==> |r.value| == nonceLen
  {
    if 8 <= nonceLen <= 24 then
      Some(seed[..nonceLen - 8] + XorSeq(seed[nonceLen - 8..nonceLen], LE(index, 8)))
    else if nonceLen == 32 then Some(seed + LE(index, 8))
    else None
  }

  /** For every registered suite the nonce exists, has the suite's length, and determines the index. */
  lemma NonceUnique(s: Suite, seed: seq<byte>, i: nat, j: nat)
    requires |seed| == 24 && i < U64_END && j < U64_END
    ensures RecordNonce(seed, NonceLen(s), i).Some?
    ensures |RecordNonce(seed, NonceLen(s), i).value| == NonceLen(s)
    ensures RecordNonce(seed, NonceLen(s), i) == RecordNonce(seed, NonceLen(s), j) <==> i == j
  {
    var n := NonceLen(s);
    var a, b := RecordNonce(seed, n, i).value, RecordNonce(seed, n, j).value;
    if a == b {
      Widths();
      assert a[n - 8..] == b[n - 8..];
      if n <= 24 {
        assert a[n - 8..] == XorSeq(seed[n - 8..n], LE(i, 8));
        assert b[n - 8..] == XorSeq(seed[n - 8..n], LE(j, 8));
        XorSeqInjective(seed[n - 8..n], LE(i, 8), LE(j, 8));
      } else {
        assert a[n - 8..] == LE(i, 8) && b[n - 8..] == LE(j, 8);
      }
      LEInjective(i, j, 8);
    }
  }

  /** `record_nonce`: copy the seed, then XOR the index bytes into its tail in place. */
  method ComputeRecordNonce(seed: seq<byte>, nonceLen: nat, index: nat) returns (r: Option<seq<byte>>)
    requires |seed| == 24
    ensures r == RecordNonce(seed, nonceLen, index)
  {
    var indexBytes := LE(index, 8);
    if 8 <= nonceLen <= 24 {
      var nonce := new byte[nonceLen];
      CopyInto(nonce, 0, seed[..nonceLen]);
      assert nonce[..] == nonce[0..nonceLen] == seed[..nonceLen];
      XorInto(nonce, nonceLen - 8, indexBytes);
      assert nonce[..] == nonce[..nonceLen - 8] + nonce[nonceLen - 8..nonceLen - 8 + 8];
      assert seed[..nonceLen][nonceLen - 8..nonceLen] == seed[nonceLen - 8..nonceLen];
      assert seed[..nonceLen][..nonceLen - 8] == seed[..nonceLen - 8];
      r := Some(nonce[..]);
    } else if nonceLen == 32 {
      r := Some(seed + indexBytes);
    } else {
      r := None;
    }
  }
}
