/** The `otp` commands step by step, over files that may change and calls that may fail. */
module OtpPrograms {
  import opened Bytes
  import opened Streams
  import opened OtpFormat
  import opened OtpFiles
  import opened OtpRuns

  /** Everything before the barriers: the checks, the output, the key. */
  function EncryptOpens(p: Primitives, v: Views, outputExists: bool): (r: Result<(OpenedPad, seq<byte>), Error>)
    ensures r.Ok? ==> EncryptChecks(p, v) == Ok(r.value.0) && AuthKey(v.padKey) == Ok(r.value.1) && !outputExists
  {
    match EncryptChecks(p, v)
    case Err(e) => Err(e)
    case Ok(o) =>
      if outputExists then Err(OutputExists)
      else match AuthKey(v.padKey)
        case Err(e) => Err(e)
        case Ok(k) => Ok((o, k))
  }

  /** What a quiet run (no faults, no interference) of encryption amounts to. */
  function EncryptOutcome(p: Primitives, files: map<string, seq<byte>>, ledger: set<(seq<byte>, Role)>,
                          input: string, pad: string, output: string): Result<seq<byte>, Error>
  {
    if input !in files || pad !in files then Err(Io)
    else if input == pad then Err(SameFile)
    else
      var v := SteadyViews(files[input], files[pad]);
      match EncryptOpens(p, v, output in files)
      case Err(e) => Err(e)
      case Ok((o, k)) => if (o.header.id, Sender) in ledger then Err(PadAlreadyUsed) else EncryptPass(p, v, o, k)
  }

  function DecryptOutcome(p: Primitives, files: map<string, seq<byte>>, ledger: set<(seq<byte>, Role)>,
                          input: string, pad: string, output: string): Result<seq<byte>, Error>
  {
    if input !in files || pad !in files then Err(Io)
    else if input == pad then Err(SameFile)
    else
      var v := SteadyViews(files[input], files[pad]);
      match DecryptChecks(p, v)
      case Err(e) => Err(e)
      case Ok(o) =>
        if output in files then Err(OutputExists)
        else if (o.header.id, Receiver) in ledger then Err(PadAlreadyUsed)
        else DecryptPass(p, v, o)
  }

  /** Opens the pad: header, then the checksum over everything it covers. */
  method ReadPad(p: Primitives, d: Disk, path: string, ghost v: Views) returns (r: Result<OpenedPad, Error>, ghost v': Views)
    requires Lawful(p) && path in d.files
    modifies d`files
    ensures d.files.Keys == old(d.files.Keys)
    ensures forall q :: q in d.files && q != path ==> d.files[q] == old(d.files)[q]
    ensures v' == v.(padHeader := v'.padHeader, padBody := v'.padBody)
    ensures r.Ok? ==> r == OpenPad(p, v'.padHeader, v'.padBody)
    ensures d.Quiet() ==> d.files == old(d.files) && v'.padHeader == old(d.files)[path] == v'.padBody && r == OpenPad(p, v'.padHeader, v'.padBody)
  {
    hide ValidatedChecksum, ParsePadHeader;
    v' := v.(padBody := d.files[path]);
    var header, seen := d.Look(path, PadHeaderPass);
    v' := v'.(padHeader := seen);
    var bytes := new byte[PAD_HEADER_LEN];
    var filled := header.ReadExact(bytes);
    if filled.Err? { return Err(if filled.error == UnexpectedEof then InvalidPad else Io), v'; }
    assert bytes[..] == seen[..PAD_HEADER_LEN];
    var parsed := ParsePadHeader(bytes[..]);
    if parsed.Err? { return Err(parsed.error), v'; }
    var body, bodySeen := d.Look(path, PadBody);
    v' := v'.(padBody := bodySeen);
    var checksum := ValidatePad(p, body, bytes[..], parsed.value);
    if checksum.Err? { return Err(checksum.error), v'; }
    return Ok(OpenedPad(bytes[..], parsed.value, checksum.value)), v';
  }

  method ReadAuthKey(d: Disk, path: string, ghost v: Views) returns (r: Result<seq<byte>, Error>, ghost v': Views)
    requires path in d.files
    modifies d`files
    ensures d.files.Keys == old(d.files.Keys)
    ensures forall q :: q in d.files && q != path ==> d.files[q] == old(d.files)[q]
    ensures v' == v.(padKey := v'.padKey)
    ensures r.Ok? ==> r == AuthKey(v'.padKey)
    ensures d.Quiet() ==> d.files == old(d.files) && v'.padKey == old(d.files)[path] && r == AuthKey(v'.padKey)
  {
    var reader, seen := d.Look(path, PadKey);
    v' := v.(padKey := seen);
    reader.Seek(PAD_HEADER_LEN);
    var key := new byte[AUTH_KEY_LEN];
    var filled := reader.ReadExact(key);
    if filled.Err? { return Err(Io), v'; }
    return Ok(key[..]), v';
  }

  method BeginMac(headerBytes: seq<byte>) returns (mac: Hasher)
    ensures fresh(mac) && mac.absorbed == EnvelopeMessage(headerBytes, [])
  {
    mac := new Hasher();
    mac.Update(ENVELOPE_AUTH_DOMAIN);
    mac.Update(headerBytes);
  }

  method BeginPadChecksum(headerBytes: seq<byte>, authKey: seq<byte>) returns (digest: Hasher)
    requires |headerBytes| == PAD_HEADER_LEN
    ensures fresh(digest) && digest.absorbed == ChecksumMessage(headerBytes, authKey, [])
  {
    digest := new Hasher();
    digest.Update(PAD_CHECKSUM_DOMAIN);
    digest.Update(Normalized(headerBytes));
    digest.Update(authKey);
  }

  lemma MessagesGrow(envelope: seq<byte>, c: seq<byte>, header: seq<byte>, authKey: seq<byte>, key: seq<byte>)
    requires |header| == PAD_HEADER_LEN
    ensures EnvelopeMessage(envelope, []) + c == EnvelopeMessage(envelope, c)
    ensures ChecksumMessage(header, authKey, []) + key == ChecksumMessage(header, authKey, key)
  {
  }

  /** The XOR loop of encryption with the checks that follow it; returns the tag. */
  method EncryptChunks(p: Primitives, input: Reader, pad: Reader, temp: TempFile, o: OpenedPad, authKey: seq<byte>,
                       headerBytes: seq<byte>) returns (r: Result<seq<byte>, Error>)
    requires o.Valid() && input.Valid() && pad.Valid() && input != pad && input.pos == 0 && pad.pos == 0
    modifies input`pos, pad`pos, temp`out, temp.disk`events
    ensures Grew(old(temp.disk.events), temp.disk.events, old(temp.out), temp.out)
    ensures r.Ok? ==> EncryptBody(p, input.data, pad.data, o, authKey).Ok?
    ensures r.Ok? ==>
      var c := EncryptBody(p, input.data, pad.data, o, authKey).value;
      temp.out == old(temp.out) + c && r.value == p.mac(authKey, EnvelopeMessage(headerBytes, c))
    ensures input.fault.None? && pad.fault.None? && temp.disk.capacity.None? ==>
      match EncryptBody(p, input.data, pad.data, o, authKey)
      case Ok(_) => r.Ok?
      case Err(e) => r == Err(e)
  {
    hide EnvelopeMessage, ChecksumMessage, ParsePadHeader, XorSeq, Grew;
    var n := o.header.capacity;
    pad.Seek(PAD_BYTES_OFFSET);
    var mac := BeginMac(headerBytes);
    var digest := BeginPadChecksum(o.headerBytes, authKey);
    ghost var padStart := pad.pos;
    var xored := XorRegion(input, pad, temp, n, mac, digest, true);
    if xored.Err? { return Err(Io); }
    var extra := input.Probe();
    if extra.Err? { return Err(Io); }
    if extra.value { return Err(LengthMismatch); }
    ghost var key := Region(pad.data, PAD_BYTES_OFFSET, n);
    assert pad.data[padStart..padStart + n] == key;
    assert input.data[0..n] == input.data;
    MessagesGrow(headerBytes, XorSeq(input.data, key), o.headerBytes, authKey, key);
    var calculated := digest.Finalize(s => p.sha(s));
    if calculated != o.checksum { return Err(InvalidPad); }
    var tag := mac.Finalize(s => p.mac(authKey, s));
    return Ok(tag);
  }

  /** Header, ciphertext and tag, from opened files. */
  method WriteParts(p: Primitives, input: Reader, pad: Reader, temp: TempFile, o: OpenedPad, authKey: seq<byte>)
    returns (r: Result<(), Error>)
    requires o.Valid() && input.Valid() && pad.Valid() && input != pad && input.pos == 0 && pad.pos == 0 && temp.out == []
    modifies input`pos, pad`pos, temp`out, temp.disk`events
    ensures Grew(old(temp.disk.events), temp.disk.events, [], temp.out)
    ensures r.Ok? ==>
      var c := EncryptBody(p, input.data, pad.data, o, authKey);
      c.Ok? && temp.out == EnvelopeFile(p, EnvelopeHeader(o.header.id, o.header.capacity), authKey, c.value)
    ensures input.fault.None? && pad.fault.None? && temp.disk.capacity.None? ==>
      match EncryptBody(p, input.data, pad.data, o, authKey)
      case Ok(_) => r == Ok(())
      case Err(e) => r == Err(e)
  {
    hide EnvelopeHeaderBytes, EncryptBody, ParsePadHeader, Grew, EnvelopeMessage;
    var headerBytes := EnvelopeHeaderBytes(EnvelopeHeader(o.header.id, o.header.capacity));
    var ok := temp.WriteAll(headerBytes);
    if !ok { return Err(Io); }
    ghost var log1, out1 := temp.disk.events, temp.out;
    var tag := EncryptChunks(p, input, pad, temp, o, authKey, headerBytes);
    GrewOn(old(temp.disk.events), log1, temp.disk.events, [], out1, temp.out);
    if tag.Err? { return Err(tag.error); }
    ghost var log2, out2 := temp.disk.events, temp.out;
    ok := temp.WriteAll(tag.value);
    GrewOn(old(temp.disk.events), log2, temp.disk.events, [], out2, temp.out);
    return if ok then Ok(()) else Err(Io);
  }

  /** The pass of encryption that writes: both files are looked at afresh. */
  method WriteEnvelope(p: Primitives, d: Disk, inputPath: string, padPath: string, temp: TempFile, o: OpenedPad,
                       authKey: seq<byte>, ghost v: Views)
    returns (r: Result<(), Error>, ghost v': Views)
    requires o.Valid() && inputPath in d.files && padPath in d.files && inputPath != padPath
    requires temp.out == [] && temp.disk == d
    modifies d`files, d`events, temp`out
    ensures Grew(old(d.events), d.events, [], temp.out)
    ensures d.files.Keys == old(d.files.Keys)
    ensures v' == v.(second := v'.second, padSecond := v'.padSecond)
    ensures r.Ok? ==> EncryptPass(p, v', o, authKey) == Ok(temp.out)
    ensures d.Quiet() ==>
      && d.files == old(d.files)
      && v'.second == old(d.files)[inputPath] && v'.padSecond == old(d.files)[padPath]
      && match EncryptPass(p, v', o, authKey)
         case Ok(_) => r == Ok(())
         case Err(e) => r == Err(e)
  {
    hide EncryptBody, EnvelopeFile, ParsePadHeader, Grew;
    var input, inputSeen := d.Look(inputPath, InputSecond);
    var pad, padSeen := d.Look(padPath, PadSecond);
    v' := v.(second := inputSeen, padSecond := padSeen);
    r := WriteParts(p, input, pad, temp, o, authKey);
  }

  /** `decrypt_file_region` with its MAC and pad digest. */
  method DecryptRegion(input: Reader, pad: Reader, temp: TempFile, o: OpenedEnvelope)
    returns (r: Result<(), Error>, mac: Hasher, digest: Hasher)
    requires o.Valid() && input.Valid() && pad.Valid() && input != pad && input.pos == 0 && pad.pos == 0 && temp.out == []
    modifies input`pos, pad`pos, temp`out, temp.disk`events
    ensures input.Valid() && fresh(mac) && fresh(digest)
    ensures Grew(old(temp.disk.events), temp.disk.events, [], temp.out)
    ensures r.Ok? ==>
      var n := o.header.plaintextLen;
      && HasRegion(input.data, ENVELOPE_HEADER_LEN, n) && HasRegion(pad.data, PAD_BYTES_OFFSET, n)
      && input.pos == Min(ENVELOPE_HEADER_LEN, |input.data|) + n
      && var c, key := Region(input.data, ENVELOPE_HEADER_LEN, n), Region(pad.data, PAD_BYTES_OFFSET, n);
         && temp.out == XorSeq(c, key) && mac.absorbed == EnvelopeMessage(o.headerBytes, c)
         && digest.absorbed == ChecksumMessage(o.pad.headerBytes, o.authKey, key)
    ensures r.Err? ==> r.error == Io
    ensures input.fault.None? && pad.fault.None? && temp.disk.capacity.None? ==>
      (r.Ok? <==> HasRegion(input.data, ENVELOPE_HEADER_LEN, o.header.plaintextLen)
                  && HasRegion(pad.data, PAD_BYTES_OFFSET, o.header.plaintextLen))
  {
    hide EnvelopeMessage, ChecksumMessage, ParsePadHeader, XorSeq, Grew;
    var n := o.header.plaintextLen;
    input.Seek(ENVELOPE_HEADER_LEN);
    pad.Seek(PAD_BYTES_OFFSET);
    mac := BeginMac(o.headerBytes);
    digest := BeginPadChecksum(o.pad.headerBytes, o.authKey);
    ghost var start, padStart := input.pos, pad.pos;
    r := XorRegion(input, pad, temp, n, mac, digest, false);
    if r.Err? { return; }
    ghost var c, key := Region(input.data, ENVELOPE_HEADER_LEN, n), Region(pad.data, PAD_BYTES_OFFSET, n);
    assert pad.data[padStart..padStart + n] == key && input.data[start..start + n] == c;
    MessagesGrow(o.headerBytes, c, o.pad.headerBytes, o.authKey, key);
  }

  /** The second pass of decryption over already opened files. */
  method DecryptChunks(p: Primitives, input: Reader, pad: Reader, temp: TempFile, o: OpenedEnvelope)
    returns (r: Result<(), Error>)
    requires Lawful(p) && o.Valid() && input.Valid() && pad.Valid() && input != pad && input.pos == 0 && pad.pos == 0
    requires temp.out == []
    modifies input`pos, pad`pos, temp`out, temp.disk`events
    ensures Grew(old(temp.disk.events), temp.disk.events, [], temp.out)
    ensures r.Ok? ==> DecryptBody(p, input.data, pad.data, o) == Ok(temp.out)
    ensures input.fault.None? && pad.fault.None? && temp.disk.capacity.None? ==>
      match DecryptBody(p, input.data, pad.data, o)
      case Ok(_) => r == Ok(())
      case Err(e) => r == Err(e)
  {
    hide EnvelopeMessage, ChecksumMessage, ParsePadHeader, XorSeq, Grew;
    var mac, digest;
    r, mac, digest := DecryptRegion(input, pad, temp, o);
    if r.Err? { return; }
    ghost var end := ENVELOPE_HEADER_LEN + o.header.plaintextLen;
    assert |input.data| >= end ==>
      input.data[ENVELOPE_HEADER_LEN..end] == Region(input.data, ENVELOPE_HEADER_LEN, o.header.plaintextLen);
    r := CheckTag(p, input, mac, o.authKey);
    if r.Err? { return; }
    var calculated := digest.Finalize(s => p.sha(s));
    if calculated != o.pad.checksum { return Err(InvalidPad); }
    return Ok(());
  }

  /** The part of encryption before the output is opened. */
  method EncryptFirstPass(p: Primitives, d: Disk, inputPath: string, padPath: string)
    returns (r: Result<OpenedPad, Error>, ghost v: Views)
    requires Lawful(p) && inputPath in d.files && padPath in d.files && inputPath != padPath
    modifies d`files
    ensures d.files.Keys == old(d.files.Keys)
    ensures r.Ok? ==> r == EncryptChecks(p, v)
    ensures d.Quiet() ==>
      && d.files == old(d.files)
      && r == EncryptChecks(p, SteadyViews(old(d.files)[inputPath], old(d.files)[padPath]))
  {
    hide OpenPad, ParsePadHeader;
    v := Views([], [], [], [], [], [], []);
    var input, inputSeen := d.Look(inputPath, InputHeader);
    v := v.(header := inputSeen, first := inputSeen);
    var pad;
    pad, v := ReadPad(p, d, padPath, v);
    if pad.Err? { return Err(pad.error), v; }
    var freshness := RequireFreshRole(pad.value.header, Sender);
    if freshness.Err? { return Err(freshness.error), v; }
    if pad.value.header.capacity != |input.data| { return Err(LengthMismatch), v; }
    return pad, v;
  }

  /** Both barriers, in their order. */
  method ReserveAndMark(d: Disk, id: seq<byte>, role: Role, padPath: string) returns (r: Result<(), Error>)
    requires padPath in d.files
    modifies d`files, d`ledger, d`touched, d`history, d`events
    ensures old(d.ledger) <= d.ledger <= old(d.ledger) + {(id, role)}
    ensures d.files == old(d.files) || d.files == old(d.files)[padPath := Marked(old(d.files)[padPath])]
    ensures d.touched <= old(d.touched) + {padPath}
    ensures old(d.events) <= d.events && d.events[|old(d.events)|..] <= Barriers(id, role, padPath)
    ensures r.Ok? ==>
      && (id, role) in d.ledger - old(d.ledger) && padPath in d.touched
      && d.files == old(d.files)[padPath := Marked(old(d.files)[padPath])]
      && d.events == old(d.events) + Barriers(id, role, padPath)
    ensures d.faults == {} ==> r == if (id, role) in old(d.ledger) then Err(PadAlreadyUsed) else Ok(())
  {
    hide Marked;
    r := d.ReserveUsage(id, role);
    if r.Err? { return; }
    r := d.MarkPadConsumed(padPath);
  }

  method SyncAndCommit(d: Disk, temp: TempFile, path: string) returns (r: Result<(), Error>)
    modifies d`files, d`touched, d`history
    ensures d.files == old(d.files) || (path !in old(d.files) && d.files == old(d.files)[path := temp.out])
    ensures d.touched == old(d.touched) + if d.files == old(d.files) then {} else {path}
    ensures r.Ok? ==> d.files != old(d.files)
    ensures d.faults == {} ==> r == if path in old(d.files) then Err(OutputExists) else Ok(())
  {
    r := d.Sync(path);
    if r.Err? { return; }
    r := d.Commit(temp, path);
    assert path !in old(d.files) ==> old(d.files)[path := temp.out] != old(d.files);
  }

  /** The closure at the end of encryption: the envelope is written, synced and installed. */
  method WriteAndCommit(p: Primitives, d: Disk, inputPath: string, padPath: string, outputPath: string, temp: TempFile,
                        o: OpenedPad, authKey: seq<byte>, ghost v: Views)
    returns (r: Result<(), Error>, ghost v': Views)
    requires o.Valid() && |authKey| == AUTH_KEY_LEN && EncryptChecks(p, v) == Ok(o)
    requires inputPath in d.files && padPath in d.files && inputPath != padPath
    requires temp.out == [] && temp.disk == d
    modifies d`files, d`touched, d`history, d`events, temp`out
    ensures v' == v.(second := v'.second, padSecond := v'.padSecond)
    ensures Grew(old(d.events), d.events, [], temp.out)
    ensures old(d.touched) <= d.touched <= old(d.touched) + {outputPath}
    ensures r.Ok? ==> outputPath in d.touched
    ensures d.touched != old(d.touched) || r.Ok? ==>
      && outputPath in d.files && outputPath !in old(d.files) && d.files[outputPath] == temp.out
      && EncryptPass(p, v', o, authKey) == Ok(temp.out)
      && (SoundEnvelope(p, v', o, temp.out) || ChecksumFooled(p, v', o, authKey))
    ensures d.Quiet() ==>
      && v'.second == old(d.files)[inputPath] && v'.padSecond == old(d.files)[padPath]
      && match EncryptPass(p, v', o, authKey)
         case Ok(e) => outputPath !in old(d.files) ==> r == Ok(()) && d.files == old(d.files)[outputPath := e]
         case Err(e) => r == Err(e)
  {
    hide EncryptChecks, EncryptPass, Grew, SoundEnvelope, ChecksumFooled;
    r, v' := WriteEnvelope(p, d, inputPath, padPath, temp, o, authKey, v);
    if r.Err? { return; }
    LaterViewsUnused(p, v, v');
    EncryptUsesValidatedPad(p, v', o, authKey, temp.out);
    r := SyncAndCommit(d, temp, outputPath);
  }

  /** Encryption up to the barriers. */
  method OpenForEncryption(p: Primitives, d: Disk, inputPath: string, padPath: string, outputPath: string)
    returns (r: Result<(OpenedPad, seq<byte>), Error>, temp: TempFile?, ghost v: Views)
    requires Lawful(p) && inputPath in d.files && padPath in d.files && inputPath != padPath
    modifies d`files
    ensures d.files.Keys == old(d.files.Keys)
    ensures r.Ok? ==> r == EncryptOpens(p, v, outputPath in d.files)
    ensures r.Ok? ==> temp != null && fresh(temp) && temp.out == [] && temp.disk == d
    ensures d.Quiet() ==>
      && d.files == old(d.files)
      && var steady := SteadyViews(old(d.files)[inputPath], old(d.files)[padPath]);
         r == EncryptOpens(p, steady, outputPath in old(d.files))
  {
    hide EncryptChecks, AuthKey, Marked;
    temp := null;
    var openedPad;
    openedPad, v := EncryptFirstPass(p, d, inputPath, padPath);
    if openedPad.Err? { return Err(openedPad.error), null, v; }
    var output := d.BeginOutput(outputPath);
    if output.Err? { return Err(output.error), null, v; }
    ghost var v1 := v;
    var key;
    key, v := ReadAuthKey(d, padPath, v);
    LaterViewsUnused(p, v1, v);
    if key.Err? { return Err(key.error), null, v; }
    return Ok((openedPad.value, key.value)), output.value, v;
  }

  /** `encrypt_file_with_state`: check everything, reserve, mark, and only then produce ciphertext. */
  method EncryptFileWithState(p: Primitives, d: Disk, inputPath: string, padPath: string, outputPath: string)
    returns (r: Result<(), Error>, ghost v: Views)
    requires Lawful(p)
    modifies d`files, d`ledger, d`touched, d`history, d`events
    // Nothing is reserved or written unless every check passed.
    ensures d.ledger != old(d.ledger) || d.touched != old(d.touched) ==> EncryptChecks(p, v).Ok?
    // Whatever fails, no byte is written to the temporary before both barriers have been made and synced.
    ensures old(d.events) <= d.events
    ensures d.events != old(d.events) ==>
      && EncryptChecks(p, v).Ok?
      && Trail(EncryptChecks(p, v).value.header.id, Sender, padPath, d.events[|old(d.events)|..])
    // An installed output is the envelope of this run, made after the reservation and the mark.
    ensures outputPath in d.touched - old(d.touched) ==>
      && EncryptChecks(p, v).Ok? && AuthKey(v.padKey).Ok?
      && outputPath in d.files && outputPath !in old(d.files)
      && EncryptPass(p, v, EncryptChecks(p, v).value, AuthKey(v.padKey).value) == Ok(d.files[outputPath])
      && (EncryptChecks(p, v).value.header.id, Sender) in d.ledger - old(d.ledger)
      && padPath in d.touched
      && Barriers(EncryptChecks(p, v).value.header.id, Sender, padPath) <= d.events[|old(d.events)|..]
      && d.files[outputPath] == Written(d.events[|old(d.events)|..])
      // It was made with exactly the pad bytes and the key validated at opening.
      && (SoundEnvelope(p, v, EncryptChecks(p, v).value, d.files[outputPath])
          || ChecksumFooled(p, v, EncryptChecks(p, v).value, AuthKey(v.padKey).value))
    ensures r.Ok? && outputPath !in old(d.touched) ==> outputPath in d.touched - old(d.touched)
    ensures d.Quiet() ==>
      match EncryptOutcome(p, old(d.files), old(d.ledger), inputPath, padPath, outputPath)
      case Ok(e) =>
        && r == Ok(())
        && d.files == old(d.files)[padPath := Marked(old(d.files)[padPath])][outputPath := e]
        && d.ledger == old(d.ledger)
             + {(EncryptChecks(p, SteadyViews(old(d.files)[inputPath], old(d.files)[padPath])).value.header.id, Sender)}
      case Err(e) => r == Err(e)
  {
    hide EncryptChecks, EncryptOpens, EncryptBody, EnvelopeFile, AuthKey, Marked, Grew, Trail, Barriers, Written,
      SoundEnvelope, ChecksumFooled;
    v := Views([], [], [], [], [], [], []);
    if inputPath !in d.files || padPath !in d.files { return Err(Io), v; }
    if inputPath == padPath { return Err(SameFile), v; }
    var start, temp;
    start, temp, v := OpenForEncryption(p, d, inputPath, padPath, outputPath);
    if start.Err? { return Err(start.error), v; }
    var (o, key) := start.value;
    ghost var v1 := v;
    var reserved := ReserveAndMark(d, o.header.id, Sender, padPath);
    StoppedTrail(o.header.id, Sender, padPath, d.events[|old(d.events)|..]);
    if reserved.Err? { return Err(reserved.error), v; }
    ghost var passed := d.events;
    r, v := WriteAndCommit(p, d, inputPath, padPath, outputPath, temp, o, key, v);
    LaterViewsUnused(p, v1, v);
    TrailOfWrites(o.header.id, Sender, padPath, old(d.events), passed, d.events, temp.out);
  }

  /** `read_envelope_header` and the length check. */
  method ReadEnvelopeHeader(d: Disk, path: string, ghost v: Views)
    returns (r: Result<(seq<byte>, EnvelopeHeader), Error>, ghost v': Views)
    requires path in d.files
    modifies d`files
    ensures d.files.Keys == old(d.files.Keys) && v' == v.(header := v'.header)
    ensures r.Ok? ==> r == OpenEnvelopeHeader(v'.header)
    ensures d.Quiet() ==> d.files == old(d.files) && v'.header == old(d.files)[path] && r == OpenEnvelopeHeader(v'.header)
  {
    hide ParseEnvelopeHeader;
    var input, seen := d.Look(path, InputHeader);
    v' := v.(header := seen);
    var bytes := new byte[ENVELOPE_HEADER_LEN];
    var filled := input.ReadExact(bytes);
    if filled.Err? { return Err(if filled.error == UnexpectedEof then InvalidEnvelope else Io), v'; }
    assert bytes[..] == seen[..ENVELOPE_HEADER_LEN];
    var parsed := ParseEnvelopeHeader(bytes[..]);
    if parsed.Err? { return Err(parsed.error), v'; }
    var len := parsed.value.plaintextLen;
    if ENVELOPE_FIXED_LEN + len >= U64_END || |input.data| != ENVELOPE_FIXED_LEN + len { return Err(InvalidEnvelope), v'; }
    return Ok((bytes[..], parsed.value)), v';
  }

  /** The part of decryption before the output is opened: the encrypted file is authenticated in full. */
  method DecryptFirstPass(p: Primitives, d: Disk, inputPath: string, padPath: string)
    returns (r: Result<OpenedEnvelope, Error>, ghost v: Views)
    requires Lawful(p) && inputPath in d.files && padPath in d.files && inputPath != padPath
    modifies d`files
    ensures d.files.Keys == old(d.files.Keys)
    ensures r.Ok? ==> r == DecryptChecks(p, v)
    ensures d.Quiet() ==>
      && d.files == old(d.files)
      && r == DecryptChecks(p, SteadyViews(old(d.files)[inputPath], old(d.files)[padPath]))
  {
    hide OpenPad, OpenEnvelopeHeader, Authenticated, AuthKey;
    v := Views([], [], [], [], [], [], []);
    var header;
    header, v := ReadEnvelopeHeader(d, inputPath, v);
    if header.Err? { return Err(header.error), v; }
    var (bytes, e) := header.value;
    var openedPad;
    openedPad, v := ReadPad(p, d, padPath, v);
    if openedPad.Err? { return Err(openedPad.error), v; }
    var o := openedPad.value;
    var freshness := RequireFreshRole(o.header, Receiver);
    if freshness.Err? { return Err(freshness.error), v; }
    if e.id != o.header.id { return Err(WrongPad), v; }
    if e.plaintextLen != o.header.capacity { return Err(LengthMismatch), v; }
    var key;
    key, v := ReadAuthKey(d, padPath, v);
    if key.Err? { return Err(key.error), v; }
    var again, firstSeen := d.Look(inputPath, InputFirst);
    v := v.(first := firstSeen);
    var authentic := AuthenticateEnvelope(p, again, bytes, e, key.value);
    if authentic.Err? { return Err(authentic.error), v; }
    return Ok(OpenedEnvelope(bytes, e, o, key.value)), v;
  }

  /** The second pass of decryption: both files are opened afresh. */
  method DecryptSecondPass(p: Primitives, d: Disk, inputPath: string, padPath: string, temp: TempFile, o: OpenedEnvelope,
                           ghost v: Views)
    returns (r: Result<(), Error>, ghost v': Views)
    requires Lawful(p) && o.Valid() && inputPath in d.files && padPath in d.files && inputPath != padPath
    requires temp.out == [] && temp.disk == d
    modifies d`files, d`events, temp`out
    ensures Grew(old(d.events), d.events, [], temp.out)
    ensures d.files.Keys == old(d.files.Keys)
    ensures v' == v.(second := v'.second, padSecond := v'.padSecond)
    ensures r.Ok? ==> DecryptPass(p, v', o) == Ok(temp.out)
    ensures d.Quiet() ==>
      && d.files == old(d.files)
      && v'.second == old(d.files)[inputPath] && v'.padSecond == old(d.files)[padPath]
      && match DecryptPass(p, v', o)
         case Ok(_) => r == Ok(())
         case Err(e) => r == Err(e)
  {
    hide DecryptBody, ParsePadHeader, ParseEnvelopeHeader, Grew;
    var input, inputSeen := d.Look(inputPath, InputSecond);
    var pad, padSeen := d.Look(padPath, PadSecond);
    v' := v.(second := inputSeen, padSecond := padSeen);
    r := DecryptChunks(p, input, pad, temp, o);
  }

  /** `decrypt_file_with_state`: authenticate, reserve, mark, decrypt, authenticate again, commit. */
  method DecryptFileWithState(p: Primitives, d: Disk, inputPath: string, padPath: string, outputPath: string)
    returns (r: Result<(), Error>, ghost v: Views)
    requires Lawful(p)
    modifies d`files, d`ledger, d`touched, d`history, d`events
    // A failure of the first pass leaves ledger and pad untouched.
    ensures d.ledger != old(d.ledger) || d.touched != old(d.touched) ==> DecryptChecks(p, v).Ok?
    // Whatever fails, no byte is written to the temporary before both barriers have been made and synced.
    ensures old(d.events) <= d.events
    ensures d.events != old(d.events) ==>
      && DecryptChecks(p, v).Ok?
      && Trail(DecryptChecks(p, v).value.header.id, Receiver, padPath, d.events[|old(d.events)|..])
    // An installed plaintext came out of a second pass that authenticated both its inputs.
    ensures outputPath in d.touched - old(d.touched) ==>
      && DecryptChecks(p, v).Ok?
      && outputPath in d.files && outputPath !in old(d.files)
      && DecryptPass(p, v, DecryptChecks(p, v).value) == Ok(d.files[outputPath])
      && (DecryptChecks(p, v).value.header.id, Receiver) in d.ledger - old(d.ledger)
      && padPath in d.touched
      && Barriers(DecryptChecks(p, v).value.header.id, Receiver, padPath) <= d.events[|old(d.events)|..]
      && d.files[outputPath] == Written(d.events[|old(d.events)|..])
      // It is authenticated ciphertext of the second pass XOR exactly the pad bytes validated at opening.
      && (SoundPlaintext(p, v, DecryptChecks(p, v).value, d.files[outputPath])
          || ChecksumFooled(p, v, DecryptChecks(p, v).value.pad, DecryptChecks(p, v).value.authKey))
    ensures r.Ok? && outputPath !in old(d.touched) ==> outputPath in d.touched - old(d.touched)
    ensures d.Quiet() ==>
      match DecryptOutcome(p, old(d.files), old(d.ledger), inputPath, padPath, outputPath)
      case Ok(m) =>
        && r == Ok(())
        && d.files == old(d.files)[padPath := Marked(old(d.files)[padPath])][outputPath := m]
        && d.ledger == old(d.ledger)
             + {(DecryptChecks(p, SteadyViews(old(d.files)[inputPath], old(d.files)[padPath])).value.header.id, Receiver)}
      case Err(e) => r == Err(e)
  {
    hide DecryptBody, DecryptChecks, Marked, Grew, Trail, Barriers, Written, SoundPlaintext, ChecksumFooled;
    v := Views([], [], [], [], [], [], []);
    if inputPath !in d.files || padPath !in d.files { return Err(Io), v; }
    if inputPath == padPath { return Err(SameFile), v; }
    var openedPad;
    openedPad, v := DecryptFirstPass(p, d, inputPath, padPath);
    if openedPad.Err? { return Err(openedPad.error), v; }
    var o := openedPad.value;
    var temp := d.BeginOutput(outputPath);
    if temp.Err? { return Err(temp.error), v; }
    var reserved := ReserveAndMark(d, o.header.id, Receiver, padPath);
    StoppedTrail(o.header.id, Receiver, padPath, d.events[|old(d.events)|..]);
    if reserved.Err? { return Err(reserved.error), v; }
    ghost var passed := d.events;
    ghost var v1 := v;
    var written;
    written, v := DecryptSecondPass(p, d, inputPath, padPath, temp.value, o, v);
    LaterViewsUnused(p, v1, v);
    TrailOfWrites(o.header.id, Receiver, padPath, old(d.events), passed, d.events, temp.value.out);
    if written.Err? { return Err(written.error), v; }
    TwoPassSound(p, v, o, temp.value.out);
    r := SyncAndCommit(d, temp.value, outputPath);
  }

  /** The first passes do not look at what the later ones will see. */
  lemma LaterViewsUnused(p: Primitives, v: Views, w: Views)
    requires w == v.(padKey := w.padKey, second := w.second, padSecond := w.padSecond)
    ensures EncryptChecks(p, v) == EncryptChecks(p, w)
    ensures v.padKey == w.padKey ==> DecryptChecks(p, v) == DecryptChecks(p, w)
  {
  }
}
