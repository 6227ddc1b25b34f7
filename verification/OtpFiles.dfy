/** `otp` on files: pair creation, encryption and two-pass decryption, with faults and with files that
    may change under the program between any two of its reading passes. */
module OtpFiles {
  import opened Bytes
  import opened Streams
  import opened OtpFormat

  /** The passes in which a file is read from some position to some later one. */
  datatype Pass = InputHeader | InputFirst | InputSecond | PadHeaderPass | PadBody | PadKey | PadSecond

  /** The calls that can fail. */
  datatype Step =
    | CreateTemp(path: string) | SyncTemp(path: string) | Persist(path: string) | SyncParent(path: string)
    | ReserveCreate | ReservePersist | MarkWrite | MarkSync

  /** A file after one byte has been written at the state offset (a short file is extended). */
  function Marked(file: seq<byte>): seq<byte>
  {
    if |file| > PAD_STATE_OFFSET then file[PAD_STATE_OFFSET := 1]
    else file + Zeros(PAD_STATE_OFFSET - |file|) + [1]
  }

  /** What a process does to ledger, pad and temporary output, in the order in which it happens. */
  datatype Event =
    | EntryMade(id: seq<byte>, role: Role) | EntrySynced(id: seq<byte>, role: Role)
    | MarkMade(path: string) | MarkSynced(path: string)
    | Wrote(bytes: seq<byte>)

  /** Both barriers, made and synced. */
  function Barriers(id: seq<byte>, role: Role, pad: string): (t: seq<Event>)
    ensures |t| == 4
  {
    [EntryMade(id, role), EntrySynced(id, role), MarkMade(pad), MarkSynced(pad)]
  }

  /** A run that stops on its way through the barriers, or passes all of them and only then writes. */
  ghost predicate Trail(id: seq<byte>, role: Role, pad: string, t: seq<Event>)
  {
    || t <= Barriers(id, role, pad)
    || (Barriers(id, role, pad) <= t && forall i :: 4 <= i < |t| ==> t[i].Wrote?)
  }

  /** All bytes that were written. */
  ghost function Written(t: seq<Event>): seq<byte>
  {
    if t == [] then []
    else Written(t[..|t| - 1]) + if t[|t| - 1].Wrote? then t[|t| - 1].bytes else []
  }

  /** From one log to the next there were only writes, and these make up what a file has grown by. */
  ghost predicate Grew(before: seq<Event>, after: seq<Event>, was: seq<byte>, out: seq<byte>)
  {
    && before <= after && (forall i :: |before| <= i < |after| ==> after[i].Wrote?)
    && out == was + Written(after[|before|..])
  }

  lemma {:induction false} WrittenConcat(s: seq<Event>, t: seq<Event>)
    ensures Written(s + t) == Written(s) + Written(t)
  {
    if t == [] {
      assert s + t == s;
    } else {
      assert (s + t)[..|s + t| - 1] == s + t[..|t| - 1];
      WrittenConcat(s, t[..|t| - 1]);
    }
  }

  lemma GrewNothing(t: seq<Event>, s: seq<byte>)
    ensures Grew(t, t, s, s)
  {
  }

  lemma GrewOnce(t: seq<Event>, s: seq<byte>, more: seq<byte>)
    ensures Grew(t, t + [Wrote(more)], s, s + more)
  {
    var one := (t + [Wrote(more)])[|t|..];
    assert one == [Wrote(more)] && one[..0] == [];
  }

  lemma GrewOn(a: seq<Event>, b: seq<Event>, c: seq<Event>, x: seq<byte>, y: seq<byte>, z: seq<byte>)
    requires Grew(a, b, x, y) && Grew(b, c, y, z)
    ensures Grew(a, c, x, z)
  {
    assert c[|a|..] == b[|a|..] + c[|b|..];
    WrittenConcat(b[|a|..], c[|b|..]);
  }

  lemma {:induction false} NothingWritten(t: seq<Event>)
    requires forall i :: 0 <= i < |t| ==> !t[i].Wrote?
    ensures Written(t) == []
  {
    if t != [] { NothingWritten(t[..|t| - 1]); }
  }

  lemma StoppedTrail(id: seq<byte>, role: Role, pad: string, t: seq<Event>)
    requires t <= Barriers(id, role, pad)
    ensures Trail(id, role, pad, t)
  {
  }

  /** Passing the barriers and then only writing is a trail, and the writes are all there is in the file. */
  lemma TrailOfWrites(id: seq<byte>, role: Role, pad: string, before: seq<Event>, at: seq<Event>, after: seq<Event>, out: seq<byte>)
    requires at == before + Barriers(id, role, pad) && Grew(at, after, [], out)
    ensures before <= after && Barriers(id, role, pad) <= after[|before|..]
    ensures Trail(id, role, pad, after[|before|..]) && Written(after[|before|..]) == out
  {
    var t := after[|before|..];
    assert t == Barriers(id, role, pad) + after[|at|..];
    NothingWritten(Barriers(id, role, pad));
    WrittenConcat(Barriers(id, role, pad), after[|at|..]);
  }

  /** A temporary output file; every write to it is on record. */
  class TempFile {
    var out: seq<byte>
    const disk: Disk

    constructor (disk: Disk)
      ensures out == [] && this.disk == disk
    {
      out, this.disk := [], disk;
    }

    /** `write_all`: every byte is written, or a prefix is and the call fails. */
    method WriteAll(s: seq<byte>) returns (ok: bool)
      modifies this`out, disk`events
      ensures ok ==> out == old(out) + s
      ensures disk.capacity.None? ==> ok
      ensures Grew(old(disk.events), disk.events, old(out), out)
    {
      var fits := disk.capacity.None? || |out| + |s| <= disk.capacity.value;
      var part := if fits then s
                  else if |out| < disk.capacity.value then s[..disk.capacity.value - |out|] else [];
      GrewOnce(disk.events, out, part);
      out := out + part;
      disk.events := disk.events + [Wrote(part)];
      return fits;
    }
  }

  /** The files and the usage ledger as one process sees them. */
  class Disk {
    var files: map<string, seq<byte>>
    var ledger: set<(seq<byte>, Role)>
    /** What somebody else puts into a file just before a pass over it. */
    const tamper: map<Pass, seq<byte>>
    const readFaults: map<Pass, nat>
    const faults: set<Step>
    const capacity: Option<nat>
    /** Paths this process has written, and every state of the files it has gone through. */
    ghost var touched: set<string>
    ghost var history: seq<map<string, seq<byte>>>
    ghost var events: seq<Event>

    constructor (files: map<string, seq<byte>>, ledger: set<(seq<byte>, Role)>, tamper: map<Pass, seq<byte>>,
                 readFaults: map<Pass, nat>, faults: set<Step>, capacity: Option<nat>)
      ensures this.files == files && this.ledger == ledger && this.tamper == tamper && this.readFaults == readFaults
      ensures this.faults == faults && this.capacity == capacity && touched == {} && history == [] && events == []
    {
      this.files, this.ledger, this.tamper, this.readFaults := files, ledger, tamper, readFaults;
      this.faults, this.capacity, touched, history, events := faults, capacity, {}, [], [];
    }

    ghost predicate Quiet()
    {
      tamper == map[] && readFaults == map[] && faults == {} && capacity == None
    }

    /** Opens a pass: the file may just have been replaced by arbitrary contents. */
    method Look(path: string, pass: Pass) returns (reader: Reader, ghost seen: seq<byte>)
      requires path in files
      modifies this`files
      ensures fresh(reader) && reader.Valid() && reader.pos == 0 && reader.data == seen
      ensures pass !in tamper ==> seen == old(files)[path] && files == old(files)
      ensures pass in tamper ==> seen == tamper[pass] && files == old(files)[path := seen]
      ensures pass !in readFaults ==> reader.fault == None
    {
      if pass in tamper { files := files[path := tamper[pass]]; }
      seen := files[path];
      reader := new Reader(files[path], if pass in readFaults then Some(readFaults[pass]) else None);
    }

    /** `OutputTransaction::new`. */
    method BeginOutput(path: string) returns (r: Result<TempFile, Error>)
      ensures r.Ok? ==> fresh(r.value) && r.value.out == [] && r.value.disk == this && path !in files
      ensures r.Err? <==> path in files || CreateTemp(path) in faults
      ensures r.Err? ==> r.error == if path in files then OutputExists else Io
    {
      if path in files { return Err(OutputExists); }
      if CreateTemp(path) in faults { return Err(Io); }
      var temp := new TempFile(this);
      return Ok(temp);
    }

    /** `OutputTransaction::sync`. */
    method Sync(path: string) returns (r: Result<(), Error>)
      ensures r == if SyncTemp(path) in faults then Err(Io) else Ok(())
    {
      return if SyncTemp(path) in faults then Err(Io) else Ok(());
    }

    /** `OutputTransaction::commit`: installs without replacing, exactly if nothing is there and the rename works. */
    method Commit(temp: TempFile, path: string) returns (r: Result<(), Error>)
      modifies this`files, this`touched, this`history
      ensures var installed := path !in old(files) && Persist(path) !in faults;
              && files == (if installed then old(files)[path := temp.out] else old(files))
              && touched == old(touched) + (if installed then {path} else {})
              && history == old(history) + (if installed then [files] else [])
      ensures r == if path in old(files) then Err(OutputExists)
                   else if Persist(path) in faults then Err(Io)
                   else if SyncParent(path) in faults then Err(PublishedButNotDurable) else Ok(())
    {
      if path in files { return Err(OutputExists); }
      if Persist(path) in faults { return Err(Io); }
      files := files[path := temp.out];
      touched, history := touched + {path}, history + [files];
      if SyncParent(path) in faults { return Err(PublishedButNotDurable); }
      return Ok(());
    }

    /** `reserve_usage`: a create-once entry; a failure after creation leaves the entry in place. */
    method ReserveUsage(id: seq<byte>, role: Role) returns (r: Result<(), Error>)
      modifies this`ledger, this`events
      ensures ledger == old(ledger) + if ReserveCreate in faults then {} else {(id, role)}
      ensures events == old(events)
        + (if r.Ok? then [EntryMade(id, role), EntrySynced(id, role)]
           else if ledger == old(ledger) then [] else [EntryMade(id, role)])
      ensures r == if (id, role) in old(ledger) then Err(PadAlreadyUsed)
                   else if ReserveCreate in faults || ReservePersist in faults then Err(Io) else Ok(())
    {
      if (id, role) in ledger { return Err(PadAlreadyUsed); }
      if ReserveCreate in faults { return Err(Io); }
      ledger := ledger + {(id, role)};
      events := events + [EntryMade(id, role)];
      if ReservePersist in faults {
        assert (id, role) in ledger;
        return Err(Io);
      }
      events := events + [EntrySynced(id, role)];
      return Ok(());
    }

    /** `mark_pad_consumed`: one byte at offset 17. */
    method MarkPadConsumed(path: string) returns (r: Result<(), Error>)
      requires path in files
      modifies this`files, this`touched, this`history, this`events
      ensures files == if MarkWrite in faults then old(files) else old(files)[path := Marked(old(files)[path])]
      ensures touched == old(touched) + if MarkWrite in faults then {} else {path}
      ensures history == old(history) + if MarkWrite in faults then [] else [files]
      ensures events == old(events)
        + (if r.Ok? then [MarkMade(path), MarkSynced(path)] else if MarkWrite in faults then [] else [MarkMade(path)])
      ensures r == if MarkWrite in faults || MarkSync in faults then Err(Io) else Ok(())
    {
      if MarkWrite in faults { return Err(Io); }
      files := files[path := Marked(files[path])];
      touched, history := touched + {path}, history + [files];
      events := events + [MarkMade(path)];
      if MarkSync in faults { return Err(Io); }
      events := events + [MarkSynced(path)];
      return Ok(());
    }
  }

  /** Hash the next `count` bytes in buffers of at most 64 KiB. */
  method HashRegion(reader: Reader, hasher: Hasher, count: nat) returns (r: Result<(), ReadError>)
    requires reader.Valid()
    modifies reader`pos, hasher
    ensures reader.Valid()
    ensures r.Ok? ==> reader.pos == old(reader.pos) + count
    ensures r.Ok? ==> hasher.absorbed == old(hasher.absorbed) + reader.data[old(reader.pos)..reader.pos]
    ensures reader.fault.None? ==> (r.Ok? <==> old(reader.pos) + count <= |reader.data|)
    ensures reader.fault.None? && r.Err? ==> r.error == UnexpectedEof
  {
    var remaining := count;
    ghost var start, before := reader.pos, hasher.absorbed;
    while remaining > 0
      invariant 0 <= remaining <= count && reader.Valid() && reader.pos == start + (count - remaining)
      invariant hasher.absorbed == before + reader.data[start..reader.pos]
    {
      var amount := Min(remaining, IO_BUFFER_SIZE);
      var buffer := new byte[amount];
      ghost var at := reader.pos;
      r := reader.ReadExact(buffer);
      if r.Err? { return; }
      assert reader.data[start..reader.pos] == reader.data[start..at] + reader.data[at..reader.pos];
      hasher.Update(buffer[..]);
      remaining := remaining - amount;
    }
    return Ok(());
  }

  /** One buffer: read both, XOR the key into the data in place, write it; the MAC absorbs the ciphertext,
      which is the input when decrypting and the output when encrypting. */
  method XorChunk(input: Reader, pad: Reader, output: TempFile, amount: nat, mac: Hasher, padDigest: Hasher, encrypting: bool)
    returns (r: Result<(), Error>)
    requires input.Valid() && pad.Valid() && input != pad && mac != padDigest
    modifies input`pos, pad`pos, output`out, output.disk`events, mac, padDigest
    ensures input.Valid() && pad.Valid()
    ensures r.Ok? ==> input.pos == old(input.pos) + amount && pad.pos == old(pad.pos) + amount
    ensures r.Ok? ==>
      var plain, key := input.data[old(input.pos)..input.pos], pad.data[old(pad.pos)..pad.pos];
      && output.out == old(output.out) + XorSeq(plain, key)
      && padDigest.absorbed == old(padDigest.absorbed) + key
      && mac.absorbed == old(mac.absorbed) + if encrypting then XorSeq(plain, key) else plain
    ensures Grew(old(output.disk.events), output.disk.events, old(output.out), output.out)
    ensures r.Err? ==> r.error == Io
    ensures input.fault.None? && pad.fault.None? && output.disk.capacity.None? ==>
      (r.Ok? <==> old(input.pos) + amount <= |input.data| && old(pad.pos) + amount <= |pad.data|)
  {
    GrewNothing(output.disk.events, output.out);
    var data := new byte[amount];
    var keyBytes := new byte[amount];
    var filled := input.ReadExact(data);
    if filled.Err? { return Err(Io); }
    filled := pad.ReadExact(keyBytes);
    if filled.Err? { return Err(Io); }
    var key := keyBytes[..];
    if !encrypting { mac.Update(data[..]); }
    padDigest.Update(key);
    assert data[..] == data[0..0 + |key|];
    XorInto(data, 0, key);
    assert data[..] == data[0..0 + |key|];
    var ok := output.WriteAll(data[..]);
    if !ok { return Err(Io); }
    if encrypting { mac.Update(data[..]); }
    return Ok(());
  }

  lemma SliceStep(s: seq<byte>, a: nat, b: nat, c: nat)
    requires a <= b <= c <= |s|
    ensures s[a..b] + s[b..c] == s[a..c]
  {
  }

  lemma Extend(before: seq<byte>, a: seq<byte>, mid: seq<byte>, b: seq<byte>, after: seq<byte>)
    requires mid == before + a && after == mid + b
    ensures after == before + (a + b)
  {
  }

  /** XOR the next `count` input bytes with the next `count` pad bytes into the output, 64 KiB at a time. */
  method XorRegion(input: Reader, pad: Reader, output: TempFile, count: nat, mac: Hasher, padDigest: Hasher, encrypting: bool)
    returns (r: Result<(), Error>)
    requires input.Valid() && pad.Valid() && input != pad && mac != padDigest
    modifies input`pos, pad`pos, output`out, output.disk`events, mac, padDigest
    ensures input.Valid() && pad.Valid()
    ensures r.Ok? ==> input.pos == old(input.pos) + count && pad.pos == old(pad.pos) + count
    ensures r.Ok? ==>
      var plain, key := input.data[old(input.pos)..input.pos], pad.data[old(pad.pos)..pad.pos];
      && output.out == old(output.out) + XorSeq(plain, key)
      && padDigest.absorbed == old(padDigest.absorbed) + key
      && mac.absorbed == old(mac.absorbed) + if encrypting then XorSeq(plain, key) else plain
    ensures Grew(old(output.disk.events), output.disk.events, old(output.out), output.out)
    ensures r.Err? ==> r.error == Io
    ensures input.fault.None? && pad.fault.None? && output.disk.capacity.None? ==>
      (r.Ok? <==> old(input.pos) + count <= |input.data| && old(pad.pos) + count <= |pad.data|)
  {
    hide XorSeq, Grew;
    GrewNothing(output.disk.events, output.out);
    var remaining := count;
    ghost var i0, p0 := input.pos, pad.pos;
    ghost var plain, key := input.data[i0..i0], pad.data[p0..p0];
    while remaining > 0
      invariant 0 <= remaining <= count && input.Valid() && pad.Valid()
      invariant input.pos == i0 + (count - remaining) && pad.pos == p0 + (count - remaining)
      invariant plain == input.data[i0..input.pos] && key == pad.data[p0..pad.pos]
      invariant Grew(old(output.disk.events), output.disk.events, old(output.out), output.out)
      invariant output.out == old(output.out) + XorSeq(plain, key)
      invariant padDigest.absorbed == old(padDigest.absorbed) + key
      invariant mac.absorbed == old(mac.absorbed) + if encrypting then XorSeq(plain, key) else plain
    {
      var amount := Min(remaining, IO_BUFFER_SIZE);
      ghost var i1, p1, out1, mac1, dig1 := input.pos, pad.pos, output.out, mac.absorbed, padDigest.absorbed;
      ghost var log1 := output.disk.events;
      r := XorChunk(input, pad, output, amount, mac, padDigest, encrypting);
      GrewOn(old(output.disk.events), log1, output.disk.events, old(output.out), out1, output.out);
      if r.Err? { return; }
      ghost var d, k := input.data[i1..input.pos], pad.data[p1..pad.pos];
      SliceStep(input.data, i0, i1, input.pos);
      SliceStep(pad.data, p0, p1, pad.pos);
      XorSeqConcat(plain, d, key, k);
      Extend(old(output.out), XorSeq(plain, key), out1, XorSeq(d, k), output.out);
      Extend(old(padDigest.absorbed), key, dig1, k, padDigest.absorbed);
      if encrypting {
        Extend(old(mac.absorbed), XorSeq(plain, key), mac1, XorSeq(d, k), mac.absorbed);
      } else {
        Extend(old(mac.absorbed), plain, mac1, d, mac.absorbed);
      }
      plain, key := plain + d, key + k;
      remaining := remaining - amount;
    }
    return Ok(());
  }

  /** `validate_pad`: length, then the checksum over header, key and pad. */
  method ValidatePad(p: Primitives, reader: Reader, headerBytes: seq<byte>, h: PadHeader) returns (r: Result<seq<byte>, Error>)
    requires Lawful(p) && |headerBytes| == PAD_HEADER_LEN && h.Valid()
    requires reader.Valid() && reader.pos == 0
    modifies reader`pos
    ensures r.Ok? ==> r == ValidatedChecksum(p, reader.data, headerBytes, h)
    ensures reader.fault.None? ==> r == ValidatedChecksum(p, reader.data, headerBytes, h)
  {
    hide Normalized;
    var end := PAD_BYTES_OFFSET + h.capacity;
    if PAD_FIXED_LEN + h.capacity >= U64_END || |reader.data| != PAD_FIXED_LEN + h.capacity { return Err(InvalidPad); }
    var digest := new Hasher();
    digest.Update(PAD_CHECKSUM_DOMAIN);
    digest.Update(Normalized(headerBytes));
    reader.Seek(PAD_HEADER_LEN);
    var hashed := HashRegion(reader, digest, AUTH_KEY_LEN + h.capacity);
    if hashed.Err? { return Err(Io); }
    assert reader.data[PAD_HEADER_LEN..end] == reader.data[PAD_HEADER_LEN..PAD_BYTES_OFFSET] + reader.data[PAD_BYTES_OFFSET..end];
    assert digest.absorbed
        == ChecksumMessage(headerBytes, reader.data[PAD_HEADER_LEN..PAD_BYTES_OFFSET], reader.data[PAD_BYTES_OFFSET..end]);
    var stored := new byte[CHECKSUM_LEN];
    var filled := reader.ReadExact(stored);
    if filled.Err? { return Err(Io); }
    assert stored[..] == reader.data[end..];
    var calculated := digest.Finalize(s => p.sha(s));
    if calculated != stored[..] { return Err(InvalidPad); }
    return Ok(stored[..]);
  }

  /** Reads the tag that comes next and compares it with what the MAC has absorbed. */
  method CheckTag(p: Primitives, reader: Reader, mac: Hasher, authKey: seq<byte>) returns (r: Result<(), Error>)
    requires reader.Valid()
    modifies reader`pos
    ensures reader.Valid()
    ensures r.Ok? ==>
      && r == Ok(()) && reader.pos == old(reader.pos) + TAG_LEN
      && p.mac(authKey, mac.absorbed) == reader.data[old(reader.pos)..reader.pos]
    ensures reader.fault.None? ==>
      r == if |reader.data| < old(reader.pos) + TAG_LEN then Err(InvalidEnvelope)
           else if p.mac(authKey, mac.absorbed) != reader.data[old(reader.pos)..old(reader.pos) + TAG_LEN]
           then Err(AuthenticationFailed) else Ok(())
  {
    var tag := new byte[TAG_LEN];
    var filled := reader.ReadExact(tag);
    if filled.Err? { return Err(if filled.error == UnexpectedEof then InvalidEnvelope else Io); }
    var expected := mac.Finalize(s => p.mac(authKey, s));
    return if expected == tag[..] then Ok(()) else Err(AuthenticationFailed);
  }

  /** `authenticate_envelope`: the whole ciphertext is authenticated before anything is reserved. */
  method AuthenticateEnvelope(p: Primitives, reader: Reader, headerBytes: seq<byte>, h: EnvelopeHeader, authKey: seq<byte>)
    returns (r: Result<(), Error>)
    requires h.Valid() && reader.Valid() && reader.pos == 0
    modifies reader`pos
    ensures r.Ok? || reader.fault.None? ==> r == Authenticated(p, reader.data, headerBytes, h, authKey)
  {
    reader.Seek(ENVELOPE_HEADER_LEN);
    var mac := new Hasher();
    mac.Update(ENVELOPE_AUTH_DOMAIN);
    mac.Update(headerBytes);
    var hashed := HashRegion(reader, mac, h.plaintextLen);
    if hashed.Err? { return Err(if hashed.error == UnexpectedEof then InvalidEnvelope else Io); }
    ghost var end := ENVELOPE_HEADER_LEN + h.plaintextLen;
    assert |reader.data| >= end ==> mac.absorbed == EnvelopeMessage(headerBytes, reader.data[ENVELOPE_HEADER_LEN..end]);
    r := CheckTag(p, reader, mac, authKey);
  }

  /** What the first pass decides about one view of the encrypted file. */
  function Authenticated(p: Primitives, file: seq<byte>, headerBytes: seq<byte>, h: EnvelopeHeader, authKey: seq<byte>)
    : Result<(), Error>
    requires h.Valid()
  {
    var end := ENVELOPE_HEADER_LEN + h.plaintextLen;
    if |file| < end + TAG_LEN then Err(InvalidEnvelope)
    else if p.mac(authKey, EnvelopeMessage(headerBytes, file[ENVELOPE_HEADER_LEN..end])) != file[end..end + TAG_LEN]
    then Err(AuthenticationFailed)
    else Ok(())
  }
}
