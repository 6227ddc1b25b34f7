/** The imperative form of `ezcrypt`'s replace transaction. */
module EzProgram {
  import opened Bytes
  import opened Streams
  import opened EzFiles
  import opened EzReadback
  import opened EzTransaction

  /** The volume: the file system, and what every call on it will do. */
  class Volume {
    const fates: nat -> Fate
    const pace: nat -> nat
    var fs: Fs
    var clock: nat
    ghost var trace: seq<Fs>

    constructor (fates: nat -> Fate, pace: nat -> nat, fs: Fs)
      ensures View() == World(fates, fs, [fs], 0)
    {
      this.fates, this.pace, this.fs, clock, trace := fates, pace, fs, 0, [fs];
    }

    ghost function View(): World
      reads this
    {
      World(fates, fs, trace, clock)
    }

    method Wait() returns (fate: Fate)
      modifies this
      ensures fate == Now(old(View())) && fs == Arrived(old(View())) && clock == old(clock) + 1
      ensures trace == old(trace) + [fs]
    {
      fate := fates(clock);
      var newcomers := fate.arrivals;
      fs := fs.(names := (map n | n in newcomers :: File(Other, newcomers[n], false, false, false)) + fs.names);
      clock := clock + 1;
      trace := trace + [fs];
    }

    method Enter(fs': Fs)
      modifies this
      ensures fs == fs' && clock == old(clock) && trace == old(trace) + [fs']
    {
      fs := fs';
      trace := trace + [fs'];
    }

    method LookupName(n: Name) returns (r: Outcome)
      modifies this
      ensures (r, View()) == Lookup(old(View()), n)
    {
      var fate := Wait();
      Enter(fs);
      assert old(trace) + [fs] + [fs] == old(trace) + [fs, fs];
      return if fate.verdict != Proceed then Outcome.Failed else if n in fs.names then Exists else Done;
    }

    method InspectHandle() returns (v: Verdict)
      modifies this
      ensures (v, View()) == Inspect(old(View()))
    {
      var fate := Wait();
      Enter(fs);
      assert old(trace) + [fs] + [fs] == old(trace) + [fs, fs];
      return fate.verdict;
    }

    method FillRandom(count: nat) returns (r: Option<seq<byte>>)
      modifies this
      ensures (r, View()) == GetRandom(old(View()), count)
    {
      var fate := Wait();
      Enter(fs);
      assert old(trace) + [fs] + [fs] == old(trace) + [fs, fs];
      return if fate.verdict != Proceed || |fate.random| < count then None else Some(fate.random[..count]);
    }

    method OpenNew(n: Name) returns (r: Outcome)
      modifies this
      ensures (r, View()) == CreateNew(old(View()), n)
    {
      var fate := Wait();
      ghost var at := fs;
      r := if fate.verdict != Proceed then Outcome.Failed else if n in fs.names then Exists else Done;
      Enter(if r.Done? then fs.(names := fs.names[n := File(Output, [], false, false, false)]) else fs);
      assert old(trace) + [at] + [fs] == old(trace) + [at, fs];
    }

    /** `mark_delete` and `clear_delete`. */
    method SetDisposition(n: Name, pending: bool) returns (ok: bool)
      modifies this
      ensures (ok, View()) == SetPending(old(View()), n, pending)
    {
      var fate := Wait();
      ghost var at := fs;
      ok := fate.handles;
      Enter(if ok && n in fs.names then fs.(names := fs.names[n := fs.names[n].(pending := pending)]) else fs);
      assert old(trace) + [at] + [fs] == old(trace) + [at, fs];
    }

    method CloseFile(n: Name) returns (ok: bool)
      modifies this
      ensures (ok, View()) == Close(old(View()), n)
    {
      var fate := Wait();
      ghost var at := fs;
      ok := fate.handles;
      Enter(if ok && n in fs.names && fs.names[n].pending
            then Fs(Without(fs.names, n), fs.vacated[n := fs.names[n]]) else fs);
      assert old(trace) + [at] + [fs] == old(trace) + [at, fs];
    }

    method Store(n: Name, bytes: seq<byte>) returns (ok: bool)
      modifies this
      ensures (ok, View()) == Write(old(View()), n, bytes)
    {
      var fate := Wait();
      ghost var at := fs;
      var stored := if fate.stored.Some? then fate.stored.value else bytes;
      ok := fate.verdict == Proceed;
      Enter(if n in fs.names then fs.(names := fs.names[n := fs.names[n].(bytes := stored, durable := false)]) else fs);
      assert old(trace) + [at] + [fs] == old(trace) + [at, fs];
    }

    method SyncAll(n: Name) returns (ok: bool)
      modifies this
      ensures (ok, View()) == SyncFile(old(View()), n)
    {
      var fate := Wait();
      ghost var at := fs;
      ok := fate.verdict == Proceed && n in fs.names;
      Enter(if ok then fs.(names := fs.names[n := fs.names[n].(durable := true, settled := true)]) else fs);
      assert old(trace) + [at] + [fs] == old(trace) + [at, fs];
    }

    method RenameByHandle(from: Name, to: Name) returns (r: Outcome)
      modifies this
      ensures (r, View()) == Rename(old(View()), from, to)
    {
      var fate := Wait();
      ghost var at := fs;
      r := if fate.verdict != Proceed || from !in fs.names then Outcome.Failed else if to in fs.names then Exists else Done;
      Enter(if r.Done? then Fs(Without(fs.names, from)[to := fs.names[from].(settled := false)],
                               fs.vacated[from := fs.names[from]]) else fs);
      assert old(trace) + [at] + [fs] == old(trace) + [at, fs];
    }

    /** What the open file holds. */
    function Bytes(n: Name): seq<byte>
      reads this
    {
      if n in fs.names then fs.names[n].bytes else []
    }
  }

  /** The temporary output: where it is, and whether it would be deleted on close. */
  class PendingOutput {
    const volume: Volume
    var path: Name
    var published: bool
    var deletePending: bool

    constructor (volume: Volume, path: Name)
      ensures this.volume == volume && this.path == path && !published && deletePending
    {
      this.volume, this.path, published, deletePending := volume, path, false, true;
    }

    /** `drop`: an unpublished output is deleted, best effort. */
    method Drop()
      modifies volume
      ensures volume.View() == if published then old(volume.View()) else Discard(old(volume.View()), path, deletePending)
    {
      if published { return; }
      if !deletePending { var _ := volume.SetDisposition(path, true); }
      var _ := volume.CloseFile(path);
    }

    /** `publish`; on failure the output is dropped as far as it had come. */
    method PublishAs(plan: Plan) returns (r: Result<(), Error>)
      requires !published && deletePending
      modifies this, volume
      ensures (r, volume.View()) == Publish(old(volume.View()), plan, old(path))
      ensures r.Ok? || r.error == PublishedButSourceRetained <==> published
      ensures published ==> path == plan.output
    {
      hide SetPending, Inspect, Rename, SyncFile, Close;
      var cleared := volume.SetDisposition(path, false);
      if !cleared { Drop(); return Err(Io); }
      deletePending := false;
      var ready := volume.InspectHandle();
      if !ready.Proceed? { Drop(); return Err(Io); }
      var renamed := volume.RenameByHandle(path, plan.output);
      if renamed.Exists? { Drop(); return Err(DestinationExists); }
      if renamed.Failed? { Drop(); return Err(Io); }
      published, path := true, plan.output;
      var durable := volume.SyncAll(path);
      if !durable {
        var _ := volume.CloseFile(path);
        return Err(PublishedButSourceRetained);
      }
      return Ok(());
    }
  }

  method EnsureDestinationAbsent(v: Volume, n: Name) returns (r: Result<(), Error>)
    modifies v
    ensures (r, v.View()) == EnsureAbsent(old(v.View()), n)
  {
    var found := v.LookupName(n);
    return match found case Done => Ok(()) case Exists => Err(DestinationExists) case Failed => Err(Io);
  }

  method Check(v: Volume, refusal: Error) returns (r: Result<(), Error>)
    modifies v
    ensures (r, v.View()) == Checked(old(v.View()), refusal)
  {
    var verdict := v.InspectHandle();
    return match verdict case Proceed => Ok(()) case Fail => Err(Io) case Refuse => Err(refusal);
  }

  method Sync(v: Volume, n: Name) returns (r: Result<(), Error>)
    modifies v
    ensures (r, v.View()) == Synced(old(v.View()), n)
  {
    var ok := v.SyncAll(n);
    return if ok then Ok(()) else Err(Io);
  }

  /** `PendingOutput::create`. */
  method CreateOutput(v: Volume) returns (r: Result<Name, Error>)
    modifies v
    ensures (r, v.View()) == CreatePending(old(v.View()), TEMP_ATTEMPTS)
  {
    hide GetRandom, CreateNew, SetPending, Inspect, Close;
    for i := 0 to TEMP_ATTEMPTS
      invariant CreatePending(old(v.View()), TEMP_ATTEMPTS) == CreatePending(v.View(), TEMP_ATTEMPTS - i)
    {
      var random := v.FillRandom(16);
      if random.None? { return Err(Randomness); }
      var temp := TempName(random.value);
      var made := v.OpenNew(temp);
      if made.Failed? { return Err(Io); }
      if made.Done? {
        var armed := v.SetDisposition(temp, true);
        if !armed {
          var _ := v.CloseFile(temp);
          return Err(Io);
        }
        var verdict := v.InspectHandle();
        if !verdict.Proceed? {
          var _ := v.CloseFile(temp);
          return Err(Io);
        }
        return Ok(temp);
      }
    }
    return Err(Io);
  }

  /** The streaming block: the source through the hashing reader, the output through the hashing writer. */
  method StreamThrough(v: Volume, plan: Plan, temp: Name) returns (r: Result<Streamed, Error>)
    modifies v
    ensures (r, v.View()) == Stream(old(v.View()), plan, temp)
  {
    hide Inspect, Write;
    var fate := v.fates(v.clock);
    var len := |v.Bytes(plan.input)|;
    var file := new Handle(if fate.delivered.Some? then fate.delivered.value else v.Bytes(plan.input), v.pace);
    var reader := new HashingReader(file);
    var writer := new HashingWriter(v.pace);
    var read := v.InspectHandle();
    if !read.Proceed? { return Err(Io); }
    var seen := ReadThrough(reader, len);
    if seen.None? { return Err(InputChanged); }
    var out := Transformed(plan, seen.value);
    if out.None? { return Err(Rejected); }
    writer.WriteAll(out.value);
    assert writer.written == out.value;
    var written := v.Store(temp, writer.written);
    if !written { return Err(Io); }
    var digest := writer.hasher.Finalize(plan.crypto.hash);
    var sourceDigest := reader.hasher.Finalize(plan.crypto.hash);
    return Ok(Streamed(|out.value|, digest, sourceDigest));
  }

  method VerifyStored(v: Volume, plan: Plan, n: Name, len: nat, digest: seq<byte>, refusal: Error) returns (r: Result<(), Error>)
    modifies v
    ensures (r, v.View()) == Verify(old(v.View()), plan, n, len, digest, refusal)
  {
    hide Inspect;
    var file := new Handle(v.Bytes(n), v.pace);
    var read := v.InspectHandle();
    if !read.Proceed? { return Err(Io); }
    var ok := VerifyReadback(plan.crypto.hash, file, |file.data|, len, digest);
    return if ok then Ok(()) else Err(refusal);
  }

  /** `verify_encrypted_output`: decrypts into a hashing sink. */
  method VerifyDecrypts(v: Volume, plan: Plan, temp: Name, len: nat, digest: seq<byte>) returns (r: Result<(), Error>)
    modifies v
    ensures (r, v.View()) == VerifyEncrypted(old(v.View()), plan, temp, len, digest)
  {
    hide Inspect;
    var stored := v.Bytes(temp);
    var read := v.InspectHandle();
    var text := plan.crypto.decrypt(stored);
    if !read.Proceed? || text.None? { return Err(VerificationFailed); }
    var sink := new HashingWriter(v.pace);
    sink.WriteAll(text.value);
    assert sink.written == text.value;
    var found := sink.hasher.Finalize(plan.crypto.hash);
    return if |text.value| == len && found == digest then Ok(()) else Err(VerificationFailed);
  }

  method ProduceOutput(v: Volume, plan: Plan, temp: Name) returns (r: Result<Streamed, Error>)
    modifies v
    ensures (r, v.View()) == Produce(old(v.View()), plan, temp)
  {
    hide Checked, Synced, Stream;
    var step := Check(v, Io);
    if step.Err? { return Err(step.error); }
    step := Sync(v, temp);
    if step.Err? { return Err(step.error); }
    r := StreamThrough(v, plan, temp);
    if r.Err? { return; }
    step := Sync(v, temp);
    if step.Err? { return Err(step.error); }
  }

  method ValidateOutput(v: Volume, plan: Plan, temp: Name, sourceLen: nat, s: Streamed) returns (r: Result<(), Error>)
    modifies v
    ensures (r, v.View()) == Validate(old(v.View()), plan, temp, sourceLen, s)
  {
    hide Verify, VerifyEncrypted, Checked, Synced;
    r := VerifyStored(v, plan, temp, s.len, s.digest, VerificationFailed);
    if r.Err? { return; }
    if plan.operation.Encrypt? {
      r := VerifyDecrypts(v, plan, temp, sourceLen, s.sourceDigest);
      if r.Err? { return; }
    }
    r := Check(v, Io);
    if r.Err? { return; }
    r := Sync(v, temp);
    if r.Err? { return; }
    r := VerifyStored(v, plan, plan.input, sourceLen, s.sourceDigest, InputChanged);
    if r.Err? { return; }
    r := Check(v, InputChanged);
  }

  /** `SourceFile::delete`. */
  method DeleteSourceFile(v: Volume, plan: Plan) returns (r: Result<(), Error>)
    modifies v
    ensures (r, v.View()) == DeleteSource(old(v.View()), plan)
  {
    hide Inspect, SetPending, Close;
    var same := v.InspectHandle();
    if !same.Proceed? {
      var _ := v.CloseFile(plan.input);
      return Err(CommittedButSourceRetained);
    }
    var marked := v.SetDisposition(plan.input, true);
    if !marked {
      var _ := v.CloseFile(plan.input);
      return Err(CommittedButSourceRetained);
    }
    var valid := v.InspectHandle();
    if !valid.Proceed? {
      var cancelled := v.SetDisposition(plan.input, false);
      var _ := v.CloseFile(plan.input);
      return Err(if cancelled then CommittedButSourceRetained else CommittedSourceRemovalUnconfirmed);
    }
    var closed := v.CloseFile(plan.input);
    return if closed then Ok(()) else Err(CommittedSourceRemovalUnconfirmed);
  }

  method OpenInput(v: Volume, plan: Plan) returns (r: Result<(), Error>)
    modifies v
    ensures (r, v.View()) == OpenSource(old(v.View()), plan)
  {
    hide EnsureAbsent, Checked;
    r := EnsureDestinationAbsent(v, plan.output);
    if r.Err? { return; }
    r := Check(v, Io);
    if r.Err? { return; }
    r := Check(v, Rejected);
    if r.Err? { return; }
    r := EnsureDestinationAbsent(v, plan.output);
  }

  /** `transform_plan`. */
  method TransformPlan(v: Volume, plan: Plan) returns (r: Result<(), Error>)
    modifies v
    ensures (r, v.View()) == Transform(old(v.View()), plan)
  {
    hide OpenSource, CreatePending, Produce, Validate, Publish, DeleteSource, Discard, Close;
    r := OpenInput(v, plan);
    if r.Err? { return; }
    var made := CreateOutput(v);
    if made.Err? { return Err(made.error); }
    var pending := new PendingOutput(v, made.value);
    var sourceLen := |v.Bytes(plan.input)|;
    var streamed := ProduceOutput(v, plan, pending.path);
    if streamed.Err? {
      pending.Drop();
      return Err(streamed.error);
    }
    r := ValidateOutput(v, plan, pending.path, sourceLen, streamed.value);
    if r.Err? {
      pending.Drop();
      return;
    }
    r := pending.PublishAs(plan);
    if r.Err? { return; }
    r := DeleteSourceFile(v, plan);
    var _ := v.CloseFile(plan.output);
  }

  /** A whole run: its result determines the disk, and no crash on the way can cost both files. */
  method TransformSafely(v: Volume, plan: Plan, ghost original: seq<byte>) returns (r: Result<(), Error>)
    requires DigestUnfooled(plan, original, v.View()) && NamesMissOutput(plan, v.fates) && Start(plan, original, v.View())
    modifies v
    ensures Explains(plan, original, r, TransformDrop(old(v.View()), plan), v.View())
    ensures forall i :: 0 <= i < |v.trace| ==> CrashSafe(plan, original, v.trace[i])
  {
    hide Transform, Explains, NamesMissOutput, Start, CrashSafe, DigestUnfooled;
    ghost var start := v.View();
    r := TransformPlan(v, plan);
    TransformExplained(plan, original, start);
    forall i: nat | i < |v.trace|
      ensures CrashSafe(plan, original, v.trace[i])
    {
      NeverNeither(plan, original, start, i);
    }
  }
}
