/** `ezcrypt`'s hashing streams and read-back loops, under arbitrary short reads and short writes. */
module EzReadback {
  import opened Bytes
  import opened Streams

  const IO_BUFFER_SIZE := 256 * 1024

  /** `HashingReader`: hashes exactly what it hands on. */
  class HashingReader {
    const inner: Handle
    const hasher: Hasher

    constructor (inner: Handle)
      requires inner.Valid() && inner.pos == 0
      ensures Valid() && this.inner == inner && fresh(hasher)
    {
      this.inner := inner;
      hasher := new Hasher();
      new;
      assert inner.data[..0] == [];
    }

    /** However the reads were cut, the hash has absorbed the input so far. */
    ghost predicate Valid()
      reads this, inner, hasher
    {
      inner.Valid() && hasher.absorbed == inner.data[..inner.pos]
    }

    method Read(buffer: array<byte>, wanted: nat) returns (count: nat)
      requires Valid() && wanted <= buffer.Length
      modifies inner`pos, inner`calls, hasher, buffer
      ensures Valid() && count <= wanted && inner.pos == old(inner.pos) + count
      ensures count == 0 <==> wanted == 0 || old(inner.pos) == |inner.data|
      ensures buffer[..count] == inner.data[old(inner.pos)..inner.pos]
    {
      ghost var from := inner.pos;
      count := inner.Read(buffer, wanted);
      hasher.Update(buffer[..count]);
      assert inner.data[..from] + inner.data[from..inner.pos] == inner.data[..inner.pos];
    }
  }

  /** `HashingWriter` over a sink that may take less than it is offered. */
  class HashingWriter {
    var written: seq<byte>
    const hasher: Hasher
    const pace: nat -> nat
    var calls: nat

    constructor (pace: nat -> nat)
      ensures Valid() && written == [] && fresh(hasher) && this.pace == pace
    {
      written, this.pace, calls := [], pace, 0;
      hasher := new Hasher();
    }

    ghost predicate Valid()
      reads this, hasher
    {
      hasher.absorbed == written
    }

    method Write(bytes: seq<byte>) returns (count: nat)
      requires Valid()
      modifies this`written, this`calls, hasher
      ensures Valid() && count <= |bytes| && (count == 0 <==> bytes == [])
      ensures written == old(written) + bytes[..count]
    {
      count := Min(|bytes|, 1 + pace(calls));
      calls := calls + 1;
      written := written + bytes[..count];
      hasher.Update(bytes[..count]);
    }

    /** `write_all`: as many calls as it takes. */
    method WriteAll(bytes: seq<byte>)
      requires Valid()
      modifies this`written, this`calls, hasher
      ensures Valid() && written == old(written) + bytes
    {
      var done := 0;
      while done < |bytes|
        invariant 0 <= done <= |bytes| && Valid() && written == old(written) + bytes[..done]
      {
        ghost var before := written;
        var count := Write(bytes[done..]);
        assert bytes[..done] + bytes[done..][..count] == bytes[..done + count];
        done := done + count;
      }
    }
  }

  /** Reads a whole input of known length through the hashing reader. */
  method ReadThrough(reader: HashingReader, len: nat) returns (seen: Option<seq<byte>>)
    requires reader.Valid() && reader.inner.pos == 0
    modifies reader.inner`pos, reader.inner`calls, reader.hasher
    ensures reader.Valid()
    ensures seen == if |reader.inner.data| == len then Some(reader.inner.data) else None
    ensures seen.Some? ==> reader.hasher.absorbed == seen.value
  {
    var data: seq<byte> := [];
    var buffer := new byte[IO_BUFFER_SIZE];
    var remaining := len;
    while remaining != 0
      invariant 0 <= remaining <= len && reader.Valid() && reader.inner.pos == len - remaining
      invariant data == reader.inner.data[..reader.inner.pos]
      decreases remaining
    {
      ghost var from := reader.inner.pos;
      var count := reader.Read(buffer, Min(remaining, buffer.Length));
      if count == 0 { return None; }
      assert reader.inner.data[..from] + reader.inner.data[from..from + count] == reader.inner.data[..from + count];
      data := data + buffer[..count];
      remaining := remaining - count;
    }
    var extra := reader.Read(buffer, 1);
    if extra != 0 { return None; }
    assert reader.inner.data[..len] == reader.inner.data;
    return Some(data);
  }

  /** `verify_readback` and `verify_source_readback`: however the reads come, the file passes exactly when its
      length and the digest of its whole contents are the expected ones. */
  method VerifyReadback(hash: seq<byte> -> seq<byte>, file: Handle, actualLen: nat, expectedLen: nat, digest: seq<byte>)
    returns (ok: bool)
    requires file.Valid() && file.pos == 0 && actualLen == |file.data|
    modifies file`pos, file`calls
    ensures ok <==> |file.data| == expectedLen && hash(file.data) == digest
  {
    if actualLen != expectedLen { return false; }
    var hasher := new Hasher();
    var buffer := new byte[IO_BUFFER_SIZE];
    var remaining := expectedLen;
    while remaining != 0
      invariant 0 <= remaining <= expectedLen && file.Valid() && file.pos == expectedLen - remaining
      invariant hasher.absorbed == file.data[..file.pos]
      decreases remaining
    {
      ghost var from := file.pos;
      var count := file.Read(buffer, Min(remaining, buffer.Length));
      if count == 0 { return false; }
      hasher.Update(buffer[..count]);
      assert file.data[..from] + file.data[from..from + count] == file.data[..from + count];
      remaining := remaining - count;
    }
    var extra := file.Read(buffer, 1);
    var found := hasher.Finalize(hash);
    assert file.data[..expectedLen] == file.data;
    return extra == 0 && found == digest;
  }
}
