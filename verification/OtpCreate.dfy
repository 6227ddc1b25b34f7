/** Creating a pad pair, and the whole life of a message from pad creation to decryption. */
module OtpCreate {
  import opened Bytes
  import opened Streams
  import opened OtpFormat
  import opened OtpFiles
  import opened OtpRuns
  import opened OtpPrograms

  method WriteBoth(a: TempFile, b: TempFile, s: seq<byte>, t: seq<byte>) returns (ok: bool)
    requires a != b
    modifies a`out, b`out, a.disk`events, b.disk`events
    ensures ok ==> a.out == old(a.out) + s && b.out == old(b.out) + t
    ensures a.disk.capacity.None? && b.disk.capacity.None? ==> ok
  {
    ok := a.WriteAll(s);
    if ok { ok := b.WriteAll(t); }
  }

  /** The pad loop: the same random bytes go to both files and both checksums, 64 KiB at a time. */
  method FillPads(random: Reader, sender: TempFile, receiver: TempFile, senderDigest: Hasher, receiverDigest: Hasher, count: nat)
    returns (r: Result<(), Error>)
    requires random.Valid() && sender != receiver && senderDigest != receiverDigest
    modifies random`pos, sender`out, receiver`out, sender.disk`events, receiver.disk`events, senderDigest, receiverDigest
    ensures random.Valid()
    ensures r.Ok? ==>
      && random.pos == old(random.pos) + count
      && var pad := random.data[old(random.pos)..random.pos];
         && sender.out == old(sender.out) + pad && receiver.out == old(receiver.out) + pad
         && senderDigest.absorbed == old(senderDigest.absorbed) + pad
         && receiverDigest.absorbed == old(receiverDigest.absorbed) + pad
    ensures r.Err? ==> r.error == Random || r.error == Io
    ensures random.fault.None? && sender.disk.capacity.None? && receiver.disk.capacity.None? ==>
      r == if old(random.pos) + count <= |random.data| then Ok(()) else Err(Random)
  {
    var remaining := count;
    ghost var at := random.pos;
    while remaining > 0
      invariant 0 <= remaining <= count && random.Valid() && random.pos == at + (count - remaining)
      invariant sender.out == old(sender.out) + random.data[at..random.pos]
      invariant receiver.out == old(receiver.out) + random.data[at..random.pos]
      invariant senderDigest.absorbed == old(senderDigest.absorbed) + random.data[at..random.pos]
      invariant receiverDigest.absorbed == old(receiverDigest.absorbed) + random.data[at..random.pos]
    {
      var amount := Min(remaining, IO_BUFFER_SIZE);
      var buffer := new byte[amount];
      ghost var before := random.pos;
      var filled := random.ReadExact(buffer);
      if filled.Err? { return Err(Random); }
      SliceStep(random.data, at, before, random.pos);
      var ok := WriteBoth(sender, receiver, buffer[..], buffer[..]);
      if !ok { return Err(Io); }
      senderDigest.Update(buffer[..]);
      receiverDigest.Update(buffer[..]);
      remaining := remaining - amount;
    }
    return Ok(());
  }

  /** The two files of a pair: one identifier, one key, one pad, two roles. */
  function PairFile(p: Primitives, role: Role, id: seq<byte>, authKey: seq<byte>, pad: seq<byte>): seq<byte>
    requires PadHeader(id, |pad|, role, false).Valid() && |authKey| == AUTH_KEY_LEN
  {
    PadFile(p, PadHeader(id, |pad|, role, false), authKey, pad)
  }

  /** Whether the random source can make a pair of this capacity. */
  predicate Suffices(random: seq<byte>, capacity: nat)
  {
    |random| >= KEY_ID_LEN + AUTH_KEY_LEN + capacity && !AllZero(random[..KEY_ID_LEN])
  }

  function IdOf(random: seq<byte>): seq<byte>
    requires |random| >= KEY_ID_LEN
  {
    random[..KEY_ID_LEN]
  }

  function KeyOf(random: seq<byte>): (k: seq<byte>)
    requires |random| >= KEY_ID_LEN + AUTH_KEY_LEN
    ensures |k| == AUTH_KEY_LEN
  {
    random[KEY_ID_LEN..KEY_ID_LEN + AUTH_KEY_LEN]
  }

  function PadOf(random: seq<byte>, capacity: nat): (s: seq<byte>)
    requires |random| >= KEY_ID_LEN + AUTH_KEY_LEN + capacity
    ensures |s| == capacity
  {
    random[KEY_ID_LEN + AUTH_KEY_LEN..KEY_ID_LEN + AUTH_KEY_LEN + capacity]
  }

  /** Everything a pad file holds after its header. */
  function PadTail(p: Primitives, headerBytes: seq<byte>, authKey: seq<byte>, pad: seq<byte>): seq<byte>
    requires |headerBytes| == PAD_HEADER_LEN
  {
    authKey + pad + p.sha(ChecksumMessage(headerBytes, authKey, pad))
  }

  /** Key, pad and checksum of both files. */
  method WriteTails(p: Primitives, capacity: nat, sender: TempFile, receiver: TempFile, random: Reader,
                    senderBytes: seq<byte>, receiverBytes: seq<byte>) returns (r: Result<(), Error>)
    requires sender != receiver && random.Valid() && random.pos == KEY_ID_LEN
    requires |senderBytes| == |receiverBytes| == PAD_HEADER_LEN
    modifies random`pos, sender`out, receiver`out, sender.disk`events, receiver.disk`events
    ensures r.Ok? ==>
      && |random.data| >= KEY_ID_LEN + AUTH_KEY_LEN + capacity
      && sender.out == old(sender.out) + PadTail(p, senderBytes, KeyOf(random.data), PadOf(random.data, capacity))
      && receiver.out == old(receiver.out) + PadTail(p, receiverBytes, KeyOf(random.data), PadOf(random.data, capacity))
    ensures r.Err? ==> r.error == Random || r.error == Io
    ensures random.fault.None? && sender.disk.capacity.None? && receiver.disk.capacity.None? ==>
      r == if |random.data| >= KEY_ID_LEN + AUTH_KEY_LEN + capacity then Ok(()) else Err(Random)
  {
    hide ChecksumMessage;
    var buffer := new byte[AUTH_KEY_LEN];
    var filled := random.ReadExact(buffer);
    if filled.Err? { return Err(Random); }
    var key := buffer[..];
    var ok := WriteBoth(sender, receiver, key, key);
    if !ok { return Err(Io); }
    // A new header's state byte is already zero, so hashing it raw or normalized is the same.
    var senderDigest := BeginPadChecksum(senderBytes, key);
    var receiverDigest := BeginPadChecksum(receiverBytes, key);
    r := FillPads(random, sender, receiver, senderDigest, receiverDigest, capacity);
    if r.Err? { return; }
    ghost var pad := PadOf(random.data, capacity);
    MessagesGrow([], [], senderBytes, key, pad);
    MessagesGrow([], [], receiverBytes, key, pad);
    var senderSum := senderDigest.Finalize(s => p.sha(s));
    var receiverSum := receiverDigest.Finalize(s => p.sha(s));
    ok := WriteBoth(sender, receiver, senderSum, receiverSum);
    if !ok { return Err(Io); }
    assert key == KeyOf(random.data);
    Tail(old(sender.out), key, pad, senderSum, sender.out);
    Tail(old(receiver.out), key, pad, receiverSum, receiver.out);
    return Ok(());
  }

  lemma Tail(before: seq<byte>, key: seq<byte>, pad: seq<byte>, sum: seq<byte>, after: seq<byte>)
    requires after == before + key + pad + sum
    ensures after == before + (key + pad + sum)
  {
  }

  /** Writes both temporary files completely. */
  method WritePair(p: Primitives, capacity: nat, sender: TempFile, receiver: TempFile, random: Reader) returns (r: Result<(), Error>)
    requires Lawful(p) && PAD_FIXED_LEN + capacity < U64_END && sender != receiver
    requires sender.out == [] && receiver.out == [] && random.Valid() && random.pos == 0
    modifies random`pos, sender`out, receiver`out, sender.disk`events, receiver.disk`events
    ensures r.Ok? ==>
      && Suffices(random.data, capacity)
      && sender.out == PairFile(p, Sender, IdOf(random.data), KeyOf(random.data), PadOf(random.data, capacity))
      && receiver.out == PairFile(p, Receiver, IdOf(random.data), KeyOf(random.data), PadOf(random.data, capacity))
    ensures r.Err? ==> r.error == Random || r.error == Io
    ensures random.fault.None? && sender.disk.capacity.None? && receiver.disk.capacity.None? ==>
      r == if Suffices(random.data, capacity) then Ok(()) else Err(Random)
  {
    hide PadHeaderBytes, ChecksumMessage, KeyOf, PadOf;
    var buffer := new byte[KEY_ID_LEN];
    var filled := random.ReadExact(buffer);
    if filled.Err? { return Err(Random); }
    var id := buffer[..];
    if AllZero(id) { return Err(Random); }
    var senderBytes := PadHeaderBytes(PadHeader(id, capacity, Sender, false));
    var receiverBytes := PadHeaderBytes(PadHeader(id, capacity, Receiver, false));
    var ok := WriteBoth(sender, receiver, senderBytes, receiverBytes);
    if !ok { return Err(Io); }
    r := WriteTails(p, capacity, sender, receiver, random, senderBytes, receiverBytes);
    if r.Err? { return; }
    ghost var key, pad := KeyOf(random.data), PadOf(random.data, capacity);
    Assemble(senderBytes, key, pad, p.sha(ChecksumMessage(senderBytes, key, pad)), sender.out);
    Assemble(receiverBytes, key, pad, p.sha(ChecksumMessage(receiverBytes, key, pad)), receiver.out);
  }

  lemma Assemble(header: seq<byte>, key: seq<byte>, pad: seq<byte>, sum: seq<byte>, whole: seq<byte>)
    requires whole == [] + header + (key + pad + sum)
    ensures whole == header + key + pad + sum
  {
  }

  /** The files with the receiver copy of this run added, and with both copies. */
  function ReceiverAdded(p: Primitives, files: map<string, seq<byte>>, receiverPath: string, random: seq<byte>, capacity: nat)
    : map<string, seq<byte>>
    requires Suffices(random, capacity) && PAD_FIXED_LEN + capacity < U64_END
  {
    files[receiverPath := PairFile(p, Receiver, IdOf(random), KeyOf(random), PadOf(random, capacity))]
  }

  function BothAdded(p: Primitives, files: map<string, seq<byte>>, senderPath: string, receiverPath: string,
                     random: seq<byte>, capacity: nat): map<string, seq<byte>>
    requires Suffices(random, capacity) && PAD_FIXED_LEN + capacity < U64_END
  {
    ReceiverAdded(p, files, receiverPath, random, capacity)
      [senderPath := PairFile(p, Sender, IdOf(random), KeyOf(random), PadOf(random, capacity))]
  }

  /** How publishing two complete temporaries ends: the receiver's calls decide before the sender's. */
  function PublishResult(faults: set<Step>, senderPath: string, receiverPath: string): Result<(), Error>
  {
    if SyncTemp(senderPath) in faults || SyncTemp(receiverPath) in faults || Persist(receiverPath) in faults then Err(Io)
    else if SyncParent(receiverPath) in faults then Err(PublishedButNotDurable)
    else if Persist(senderPath) in faults || SyncParent(senderPath) in faults then Err(PartialPadPair)
    else Ok(())
  }

  /** Syncs both temporaries and installs them, the receiver first. */
  method PublishPair(d: Disk, sender: TempFile, receiver: TempFile, senderPath: string, receiverPath: string)
    returns (r: Result<(), Error>)
    requires senderPath != receiverPath && senderPath !in d.files && receiverPath !in d.files
    modifies d`files, d`touched, d`history
    ensures r == PublishResult(d.faults, senderPath, receiverPath)
    ensures var one := old(d.files)[receiverPath := receiver.out];
            var both := one[senderPath := sender.out];
            && d.files == (if r.Ok? then both
                           else if r.error == Io then old(d.files)
                           else if r.error == PublishedButNotDurable || Persist(senderPath) in d.faults then one else both)
            && d.history == old(d.history) + (if d.files == old(d.files) then [] else if d.files == one then [one] else [one, both])
  {
    r := d.Sync(senderPath);
    if r.Err? { return; }
    r := d.Sync(receiverPath);
    if r.Err? { return; }
    r := d.Commit(receiver, receiverPath);
    assert receiverPath in old(d.files)[receiverPath := receiver.out];
    if r.Err? { return; }
    assert senderPath in d.files[senderPath := sender.out];
    r := d.Commit(sender, senderPath);
    if r.Err? { return Err(PartialPadPair); }
  }

  /** `create_pad_pair_with_rng`: the receiver copy is published before the sender copy. */
  method CreatePadPair(p: Primitives, d: Disk, capacity: nat, senderPath: string, receiverPath: string, random: Reader)
    returns (r: Result<(), Error>)
    requires Lawful(p) && random.Valid() && random.pos == 0
    modifies d`files, d`touched, d`history, d`events, random`pos
    ensures r.Ok? || r == Err(PartialPadPair) || r == Err(PublishedButNotDurable) ==>
      && Suffices(random.data, capacity) && PAD_FIXED_LEN + capacity < U64_END
      && senderPath !in old(d.files) && receiverPath !in old(d.files) && senderPath != receiverPath
    // What each result says about the files. A partial pair lacks the sender exactly if it could not be renamed.
    ensures r.Ok? ==> d.files == BothAdded(p, old(d.files), senderPath, receiverPath, random.data, capacity)
    ensures r == Err(PartialPadPair) ==>
      d.files == if Persist(senderPath) in d.faults then ReceiverAdded(p, old(d.files), receiverPath, random.data, capacity)
                 else BothAdded(p, old(d.files), senderPath, receiverPath, random.data, capacity)
    ensures r == Err(PublishedButNotDurable) ==>
      d.files == ReceiverAdded(p, old(d.files), receiverPath, random.data, capacity)
    ensures r.Err? && r.error != PartialPadPair && r.error != PublishedButNotDurable ==> d.files == old(d.files)
    ensures d.files != old(d.files) ==> r == PublishResult(d.faults, senderPath, receiverPath)
    // In every state this run puts the files into, a new sender pad has its receiver beside it.
    ensures old(d.history) <= d.history
    ensures forall i :: |old(d.history)| <= i < |d.history| ==>
      && receiverPath in d.history[i]
      && (senderPath in d.history[i] && senderPath !in old(d.files) ==>
            && Suffices(random.data, capacity) && PAD_FIXED_LEN + capacity < U64_END
            && d.history[i][receiverPath]
                 == PairFile(p, Receiver, IdOf(random.data), KeyOf(random.data), PadOf(random.data, capacity)))
    ensures d.Quiet() && random.fault.None? ==>
      r == if PAD_FIXED_LEN + capacity >= U64_END then Err(InvalidPad)
           else if senderPath == receiverPath then Err(SameFile)
           else if senderPath in old(d.files) || receiverPath in old(d.files) then Err(OutputExists)
           else if !Suffices(random.data, capacity) then Err(Random)
           else Ok(())
    // With failures in publishing only.
    ensures
      && random.fault.None? && d.capacity.None? && Suffices(random.data, capacity) && PAD_FIXED_LEN + capacity < U64_END
      && senderPath != receiverPath && senderPath !in old(d.files) && receiverPath !in old(d.files)
      && d.faults !! {CreateTemp(senderPath), CreateTemp(receiverPath)}
      ==> r == PublishResult(d.faults, senderPath, receiverPath)
  {
    hide PairFile, Suffices, IdOf, KeyOf, PadOf;
    if PAD_FIXED_LEN + capacity >= U64_END { return Err(InvalidPad); }
    if senderPath == receiverPath { return Err(SameFile); }
    var sender := d.BeginOutput(senderPath);
    if sender.Err? { return Err(sender.error); }
    var receiver := d.BeginOutput(receiverPath);
    if receiver.Err? { return Err(receiver.error); }
    r := WritePair(p, capacity, sender.value, receiver.value, random);
    if r.Err? { return; }
    r := PublishPair(d, sender.value, receiver.value, senderPath, receiverPath);
  }

  /** A partial pair in either state: without the sender copy, or with both copies in place. */
  method PartialPair(p: Primitives, random: seq<byte>, capacity: nat, complete: bool) returns (r: Result<(), Error>, d: Disk)
    requires Lawful(p) && Suffices(random, capacity) && PAD_FIXED_LEN + capacity < U64_END
    ensures r == Err(PartialPadPair)
    ensures d.files == if complete then BothAdded(p, map[], "sender", "receiver", random, capacity)
                       else ReceiverAdded(p, map[], "receiver", random, capacity)
    ensures "receiver" in d.files && ("sender" in d.files <==> complete)
  {
    hide PairFile, Suffices, IdOf, KeyOf, PadOf;
    d := new Disk(map[], {}, map[], map[], {if complete then SyncParent("sender") else Persist("sender")}, None);
    var source := new Reader(random, None);
    r := CreatePadPair(p, d, capacity, "sender", "receiver", source);
  }

  lemma PairSteady(p: Primitives, random: seq<byte>, m: seq<byte>)
    requires Lawful(p) && PAD_FIXED_LEN + |m| < U64_END && Suffices(random, |m|)
    ensures var id, key, pad := IdOf(random), KeyOf(random), PadOf(random, |m|);
            var e := EnvelopeFile(p, EnvelopeHeader(id, |m|), key, XorSeq(m, pad));
            && (var v := SteadyViews(m, PairFile(p, Sender, id, key, pad));
                && AuthKey(v.padKey) == Ok(key) && EncryptChecks(p, v).Ok? && EncryptChecks(p, v).value.header.id == id
                && EncryptPass(p, v, EncryptChecks(p, v).value, key) == Ok(e))
            && (var v := SteadyViews(e, PairFile(p, Receiver, id, key, pad));
                && DecryptChecks(p, v).Ok? && DecryptChecks(p, v).value.header.id == id
                && DecryptPass(p, v, DecryptChecks(p, v).value) == Ok(m))
  {
    hide PadFile, EnvelopeFile, EncryptChecks, EncryptPass, DecryptChecks, DecryptPass;
    var id, key, pad := IdOf(random), KeyOf(random), PadOf(random, |m|);
    EncryptSteady(p, id, key, pad, m);
    DecryptSteady(p, id, key, pad, m);
  }

  /** What the two commands do to files that hold a fresh pair and a message of its length. */
  lemma OutcomesSteady(p: Primitives, random: seq<byte>, m: seq<byte>, files: map<string, seq<byte>>, ledger: set<(seq<byte>, Role)>)
    requires Lawful(p) && PAD_FIXED_LEN + |m| < U64_END && Suffices(random, |m|)
    ensures var id, key, pad := IdOf(random), KeyOf(random), PadOf(random, |m|);
            var e := EnvelopeFile(p, EnvelopeHeader(id, |m|), key, XorSeq(m, pad));
            && ("plain" in files && files["plain"] == m && "sender" in files && files["sender"] == PairFile(p, Sender, id, key, pad)
                && "cipher" !in files && (id, Sender) !in ledger ==>
                  && EncryptChecks(p, SteadyViews(m, files["sender"])).Ok?
                  && EncryptChecks(p, SteadyViews(m, files["sender"])).value.header.id == id
                  && EncryptOutcome(p, files, ledger, "plain", "sender", "cipher") == Ok(e))
            && ("cipher" in files && files["cipher"] == e && "receiver" in files
                && files["receiver"] == PairFile(p, Receiver, id, key, pad) && "opened" !in files
                && (id, Receiver) !in ledger ==>
                  DecryptOutcome(p, files, ledger, "cipher", "receiver", "opened") == Ok(m))
  {
    hide PairFile, IdOf, KeyOf, PadOf, EncryptChecks, EncryptPass, DecryptChecks, DecryptPass, SteadyViews, AuthKey, EnvelopeFile, XorSeq;
    PairSteady(p, random, m);
  }

  /** End to end: for every message as long as the pad, the receiver copy recovers what the sender copy encrypted. */
  method MessageLife(p: Primitives, d: Disk, random: Reader, m: seq<byte>) returns (r: Result<seq<byte>, Error>)
    requires Lawful(p) && d.Quiet() && random.Valid() && random.pos == 0 && random.fault.None?
    requires d.files == map["plain" := m] && d.ledger == {}
    requires PAD_FIXED_LEN + |m| < U64_END && Suffices(random.data, |m|)
    modifies d, random`pos
    ensures r == Ok(m)
  {
    hide PairFile, IdOf, KeyOf, PadOf, Suffices, EncryptChecks, SteadyViews, Marked, EnvelopeFile, XorSeq, EncryptOutcome,
      DecryptOutcome, DecryptChecks, EncryptPass, DecryptPass, AuthKey, SoundEnvelope, SoundPlaintext, ChecksumFooled, Trail,
      Barriers, Written;
    var created := CreatePadPair(p, d, |m|, "sender", "receiver", random);
    OutcomesSteady(p, random.data, m, d.files, d.ledger);
    ghost var views;
    var done;
    done, views := EncryptFileWithState(p, d, "plain", "sender", "cipher");
    OutcomesSteady(p, random.data, m, d.files, d.ledger);
    done, views := DecryptFileWithState(p, d, "cipher", "receiver", "opened");
    return Ok(d.files["opened"]);
  }
}
