/** `ezcrypt`'s replace transaction: transform into a delete-pending temporary, read it back, publish it without
    replacing anything, and only then delete the source. */
module EzTransaction {
  import opened Bytes
  import opened EzFiles

  const TEMP_ATTEMPTS := 64

  datatype Error =
    | DestinationExists | Randomness | Rejected | InputChanged | VerificationFailed | Io
    | PublishedButSourceRetained | CommittedButSourceRetained | CommittedSourceRemovalUnconfirmed

  /** What streaming the source through the cipher computed along the way. */
  datatype Streamed = Streamed(len: nat, digest: seq<byte>, sourceDigest: seq<byte>)

  function TempName(random: seq<byte>): Name { ".ezcrypt-" + Hex(random) + ".tmp" }

  function EnsureAbsent(w: World, n: Name): (Result<(), Error>, World)
  {
    var (r, w1) := Lookup(w, n);
    (match r case Done => Ok(()) case Exists => Err(DestinationExists) case Failed => Err(Io), w1)
  }

  function Checked(w: World, refusal: Error): (Result<(), Error>, World)
  {
    var (v, w1) := Inspect(w);
    (match v case Proceed => Ok(()) case Fail => Err(Io) case Refuse => Err(refusal), w1)
  }

  /** `PendingOutput::create`. */
  function CreatePending(w: World, attempts: nat): (Result<Name, Error>, World)
    decreases attempts
  {
    if attempts == 0 then (Err(Io), w)
    else
      var (random, w1) := GetRandom(w, 16);
      if random.None? then (Err(Randomness), w1)
      else
        var temp := TempName(random.value);
        var (made, w2) := CreateNew(w1, temp);
        if made.Exists? then CreatePending(w2, attempts - 1)
        else if made.Failed? then (Err(Io), w2)
        else
          var (armed, w3) := SetPending(w2, temp, true);
          if !armed then (Err(Io), Close(w3, temp).1)
          else
            var (v, w4) := Inspect(w3);
            if v.Proceed? then (Ok(temp), w4) else (Err(Io), Close(w4, temp).1)
  }

  /** Dropping an output that was not published. */
  function Discard(w: World, temp: Name, armed: bool): World
  {
    Close(if armed then w else SetPending(w, temp, true).1, temp).1
  }

  function Contents(w: World, n: Name): seq<byte> { if n in w.fs.names then w.fs.names[n].bytes else [] }

  /** What a reading of the source at this moment delivers. */
  function Delivered(w: World, plan: Plan): seq<byte>
  {
    if Now(w).delivered.Some? then Now(w).delivered.value else Contents(w, plan.input)
  }

  function Transformed(plan: Plan, text: seq<byte>): Option<seq<byte>>
  {
    if plan.operation.Encrypt? then plan.crypto.encrypt(text) else plan.crypto.decrypt(text)
  }

  /** The transforming pass: what it reads may differ from what is stored, on either side. */
  function Stream(w: World, plan: Plan, temp: Name): (Result<Streamed, Error>, World)
  {
    var seen := Delivered(w, plan);
    var (read, w1) := Inspect(w);
    if !read.Proceed? then (Err(Io), w1)
    else if |seen| != |Contents(w, plan.input)| then (Err(InputChanged), w1)
    else
      var out := Transformed(plan, seen);
      if out.None? then (Err(Rejected), w1)
      else
        var (written, w2) := Write(w1, temp, out.value);
        if !written then (Err(Io), w2)
        else (Ok(Streamed(|out.value|, plan.crypto.hash(out.value), plan.crypto.hash(seen))), w2)
  }

  /** `verify_readback` and `verify_source_readback`: the stored file has this length and digest. */
  function Verify(w: World, plan: Plan, n: Name, len: nat, digest: seq<byte>, refusal: Error): (Result<(), Error>, World)
  {
    var (read, w1) := Inspect(w);
    var bytes := Contents(w, n);
    (if !read.Proceed? then Err(Io)
     else if |bytes| != len || plan.crypto.hash(bytes) != digest then Err(refusal)
     else Ok(()), w1)
  }

  /** `verify_encrypted_output`: the stored file decrypts to a text with this length and digest. */
  function VerifyEncrypted(w: World, plan: Plan, temp: Name, len: nat, digest: seq<byte>): (Result<(), Error>, World)
  {
    var (read, w1) := Inspect(w);
    var text := plan.crypto.decrypt(Contents(w, temp));
    (if read.Proceed? && text.Some? && |text.value| == len && plan.crypto.hash(text.value) == digest then Ok(())
     else Err(VerificationFailed), w1)
  }

  function Synced(w: World, n: Name): (Result<(), Error>, World)
  {
    var (ok, w1) := SyncFile(w, n);
    (if ok then Ok(()) else Err(Io), w1)
  }

  /** What the transforming pass reads. */
  function Seen(w: World, plan: Plan, temp: Name): seq<byte>
  {
    Delivered(Synced(Checked(w, Io).1, temp).1, plan)
  }

  /** Access controls, transformation and sync. */
  function Produce(w: World, plan: Plan, temp: Name): (Result<Streamed, Error>, World)
  {
    var (secured, w1) := Checked(w, Io);
    if secured.Err? then (Err(secured.error), w1)
    else
      var (cleared, w2) := Synced(w1, temp);
      if cleared.Err? then (Err(cleared.error), w2)
      else
        var (streamed, w3) := Stream(w2, plan, temp);
        if streamed.Err? then (streamed, w3)
        else
          var (flushed, w4) := Synced(w3, temp);
          if flushed.Err? then (Err(flushed.error), w4) else (streamed, w4)
  }

  /** The two looks at what was stored. */
  function VerifyOutput(w: World, plan: Plan, temp: Name, sourceLen: nat, s: Streamed): (Result<(), Error>, World)
  {
    var (stored, w1) := Verify(w, plan, temp, s.len, s.digest, VerificationFailed);
    if stored.Err? || plan.operation.Decrypt? then (stored, w1)
    else VerifyEncrypted(w1, plan, temp, sourceLen, s.sourceDigest)
  }

  /** Every check between producing the output and publishing it. */
  function Validate(w: World, plan: Plan, temp: Name, sourceLen: nat, s: Streamed): (Result<(), Error>, World)
  {
    var (stored, w1) := VerifyOutput(w, plan, temp, sourceLen, s);
    if stored.Err? then (stored, w1)
    else
      var (dated, w2) := Checked(w1, Io);
      if dated.Err? then (dated, w2)
      else
        var (flushed, w3) := Synced(w2, temp);
        if flushed.Err? then (flushed, w3)
        else
          var (same, w4) := Verify(w3, plan, plan.input, sourceLen, s.sourceDigest, InputChanged);
          if same.Err? then (same, w4) else Checked(w4, InputChanged)
  }

  /** `PendingOutput::publish`, with the drop that follows each failure. */
  function Publish(w: World, plan: Plan, temp: Name): (Result<(), Error>, World)
  {
    var (cleared, w1) := SetPending(w, temp, false);
    if !cleared then (Err(Io), Discard(w1, temp, true))
    else
      var (ready, w2) := Inspect(w1);
      if !ready.Proceed? then (Err(Io), Discard(w2, temp, false))
      else
        var (renamed, w3) := Rename(w2, temp, plan.output);
        match renamed
        case Exists => (Err(DestinationExists), Discard(w3, temp, false))
        case Failed => (Err(Io), Discard(w3, temp, false))
        case Done =>
          var (durable, w4) := SyncFile(w3, plan.output);
          if durable then (Ok(()), w4) else (Err(PublishedButSourceRetained), Close(w4, plan.output).1)
  }

  /** `SourceFile::delete`. */
  function DeleteSource(w: World, plan: Plan): (Result<(), Error>, World)
  {
    var (same, w1) := Inspect(w);
    if !same.Proceed? then (Err(CommittedButSourceRetained), Close(w1, plan.input).1)
    else
      var (marked, w2) := SetPending(w1, plan.input, true);
      if !marked then (Err(CommittedButSourceRetained), Close(w2, plan.input).1)
      else
        var (valid, w3) := Inspect(w2);
        if !valid.Proceed? then
          var (cancelled, w4) := SetPending(w3, plan.input, false);
          (Err(if cancelled then CommittedButSourceRetained else CommittedSourceRemovalUnconfirmed), Close(w4, plan.input).1)
        else
          var (closed, w4) := Close(w3, plan.input);
          (if closed then Ok(()) else Err(CommittedSourceRemovalUnconfirmed), w4)
  }

  /** Everything before publication; a failure discards the temporary. */
  function Prepare(w: World, plan: Plan): (Result<Name, Error>, World)
  {
    var (made, w1) := CreatePending(w, TEMP_ATTEMPTS);
    if made.Err? then (made, w1)
    else
      var sourceLen := |Contents(w1, plan.input)|;
      var (streamed, w2) := Produce(w1, plan, made.value);
      if streamed.Err? then (Err(streamed.error), Discard(w2, made.value, true))
      else
        var (valid, w3) := Validate(w2, plan, made.value, sourceLen, streamed.value);
        if valid.Err? then (Err(valid.error), Discard(w3, made.value, true)) else (made, w3)
  }

  /** The checks before the temporary is made: destination, parent directory, source, destination. */
  function OpenSource(w: World, plan: Plan): (Result<(), Error>, World)
  {
    var (absent, w1) := EnsureAbsent(w, plan.output);
    if absent.Err? then (absent, w1)
    else
      var (parent, w2) := Checked(w1, Io);
      if parent.Err? then (parent, w2)
      else
        var (source, w3) := Checked(w2, Rejected);
        if source.Err? then (source, w3) else EnsureAbsent(w3, plan.output)
  }

  /** `transform_plan`. */
  function Transform(w: World, plan: Plan): (Result<(), Error>, World)
  {
    var (checked, w1) := OpenSource(w, plan);
    if checked.Err? then (checked, w1)
    else
      var (prepared, w2) := Prepare(w1, plan);
      if prepared.Err? then (Err(prepared.error), w2)
      else
        var (published, w3) := Publish(w2, plan, prepared.value);
        if published.Err? then (published, w3)
        else
          var (deleted, w4) := DeleteSource(w3, plan);
          (deleted, Close(w4, plan.output).1)
  }

  // --- How a temporary is given up -------------------------------------------------------------------------

  /** A run that publishes nothing has made no temporary, or could not arm it, or closes it armed, or arms it again
      and closes it, in the next one or two calls. */
  datatype Drop = NoTemporary | Unarmed | Closed(at: World) | Rearmed(at: World)

  /** It stays exactly if one of these calls fails. */
  predicate Stays(d: Drop)
  {
    match d
    case NoTemporary => false
    case Unarmed => true
    case Closed(at) => !at.fates(at.clock).handles
    case Rearmed(at) => !at.fates(at.clock).handles || !at.fates(at.clock + 1).handles
  }

  function DropOf(w: World, armed: bool): Drop { if armed then Closed(w) else Rearmed(w) }

  function CreateDrop(w: World, attempts: nat): Drop
    decreases attempts
  {
    if attempts == 0 then NoTemporary
    else
      var (random, w1) := GetRandom(w, 16);
      if random.None? then NoTemporary
      else
        var temp := TempName(random.value);
        var (made, w2) := CreateNew(w1, temp);
        if made.Exists? then CreateDrop(w2, attempts - 1)
        else if made.Failed? then NoTemporary
        else
          var (armed, w3) := SetPending(w2, temp, true);
          if armed then Closed(Inspect(w3).1) else Unarmed
  }

  function PrepareDrop(w: World, plan: Plan): Drop
  {
    var (made, w1) := CreatePending(w, TEMP_ATTEMPTS);
    if made.Err? then CreateDrop(w, TEMP_ATTEMPTS)
    else
      var (streamed, w2) := Produce(w1, plan, made.value);
      if streamed.Err? then Closed(w2)
      else Closed(Validate(w2, plan, made.value, |Contents(w1, plan.input)|, streamed.value).1)
  }

  function PublishDrop(w: World, plan: Plan, temp: Name): Drop
  {
    var (cleared, w1) := SetPending(w, temp, false);
    if !cleared then Closed(w1)
    else
      var (ready, w2) := Inspect(w1);
      if !ready.Proceed? then Rearmed(w2) else Rearmed(Rename(w2, temp, plan.output).1)
  }

  /** How the run of `plan` gives up its temporary, if it publishes nothing. */
  function TransformDrop(w: World, plan: Plan): Drop
  {
    var (checked, w1) := OpenSource(w, plan);
    if checked.Err? then NoTemporary
    else
      var (prepared, w2) := Prepare(w1, plan);
      if prepared.Err? then PrepareDrop(w1, plan) else PublishDrop(w2, plan, prepared.value)
  }

  // --- Before publication ----------------------------------------------------------------------------------

  /** Nothing is published, the source is intact, every past state was safe; only `temp` is an output file. */
  ghost predicate Before(plan: Plan, original: seq<byte>, w: World, temp: Option<Name>)
  {
    && plan.input != plan.output && Untouched(plan, original, w.fs) && AllSafe(plan, original, w)
    && (forall n :: n in w.fs.names && w.fs.names[n].kind == Output ==> temp == Some(n))
    && (temp.Some? ==> temp.value != plan.input && temp.value != plan.output
                       && temp.value in w.fs.names && w.fs.names[temp.value].kind == Output)
  }

  ghost predicate Armed(w: World, temp: Name) { temp in w.fs.names && w.fs.names[temp].pending }

  lemma SafeAfter(plan: Plan, original: seq<byte>, w: World, w': World)
    requires plan.input != plan.output && AllSafe(plan, original, w)
    requires w'.trace == w.trace + [Arrived(w), w'.fs]
    requires Phase(plan, original, Arrived(w)) && Phase(plan, original, w'.fs)
    ensures AllSafe(plan, original, w')
  {
    hide Phase, CrashSafe;
    PhaseIsSafe(plan, original, Arrived(w));
    PhaseIsSafe(plan, original, w'.fs);
  }

  /** A call that concerns neither the source nor the output name keeps both. */
  lemma StepBefore(plan: Plan, original: seq<byte>, w: World, w': World, n: Name)
    requires plan.input != plan.output && Untouched(plan, original, w.fs) && AllSafe(plan, original, w)
    requires Step(w, w', n) && ((n != plan.input && n != plan.output) || w'.fs == Arrived(w))
    ensures Untouched(plan, original, w'.fs) && AllSafe(plan, original, w')
  {
    hide AllSafe;
    ArrivalsOnlyAdd(w, plan.input);
    ArrivalsOnlyAdd(w, plan.output);
    SafeAfter(plan, original, w, w');
  }

  lemma IdleBefore(plan: Plan, original: seq<byte>, w: World, temp: Option<Name>)
    requires Before(plan, original, w, temp)
    ensures Before(plan, original, Idle(w), temp)
    ensures temp.Some? ==> Idle(w).fs.names[temp.value] == w.fs.names[temp.value]
  {
    hide AllSafe;
    StepBefore(plan, original, w, Idle(w), plan.input);
    assert forall n :: n in w.fs.names ==> Idle(w).fs.names[n] == w.fs.names[n];
  }

  /** Calls on the temporary itself. */
  lemma TempCalls(plan: Plan, original: seq<byte>, w: World, temp: Name, pending: bool, bytes: seq<byte>)
    requires Before(plan, original, w, Some(temp))
    ensures Before(plan, original, SetPending(w, temp, pending).1, Some(temp))
    ensures Before(plan, original, SyncFile(w, temp).1, Some(temp))
    ensures Before(plan, original, Write(w, temp, bytes).1, Some(temp))
  {
    hide AllSafe;
    StepBefore(plan, original, w, SetPending(w, temp, pending).1, temp);
    StepBefore(plan, original, w, SyncFile(w, temp).1, temp);
    StepBefore(plan, original, w, Write(w, temp, bytes).1, temp);
  }

  lemma CloseTemp(plan: Plan, original: seq<byte>, w: World, temp: Name)
    requires Before(plan, original, w, Some(temp))
    ensures var w' := Close(w, temp).1;
            if Now(w).handles && Armed(w, temp) then Before(plan, original, w', None) else Before(plan, original, w', Some(temp))
  {
    hide AllSafe;
    StepBefore(plan, original, w, Close(w, temp).1, temp);
  }

  /** The end of a run that published nothing, with its temporary staying behind or not. */
  ghost predicate Failed(plan: Plan, original: seq<byte>, w: World, stays: bool)
  {
    if stays then exists temp: Name :: Before(plan, original, w, Some(temp)) else Before(plan, original, w, None)
  }

  /** No temporary name drawn at random is the output name. */
  ghost predicate NamesMissOutput(plan: Plan, fates: nat -> Fate)
  {
    forall t :: |fates(t).random| >= 16 ==> TempName(fates(t).random[..16]) != plan.output
  }

  lemma DiscardEffect(plan: Plan, original: seq<byte>, w: World, temp: Name, armed: bool)
    requires Before(plan, original, w, Some(temp)) && armed == Armed(w, temp)
    ensures Failed(plan, original, Discard(w, temp, armed), Stays(DropOf(w, armed)))
    ensures Discard(w, temp, armed).fates == w.fates
  {
    hide Before, SetPending, Close;
    var w1 := if armed then w else SetPending(w, temp, true).1;
    assert Before(plan, original, w1, Some(temp)) by { TempCalls(plan, original, w, temp, true, []); }
    assert Armed(w1, temp) <==> armed || w.fates(w.clock).handles by { BeforeParts(plan, original, w, temp); }
    CloseTemp(plan, original, w1, temp);
  }

  lemma BeforeParts(plan: Plan, original: seq<byte>, w: World, temp: Name)
    requires Before(plan, original, w, Some(temp))
    ensures temp in w.fs.names && temp != plan.output && temp != plan.input && plan.input in w.fs.names
    ensures w.fs.names[plan.input].bytes == original
  {
  }

  lemma CreateNewBefore(plan: Plan, original: seq<byte>, w: World, temp: Name)
    requires Before(plan, original, w, None) && temp != plan.output
    ensures var (r, w') := CreateNew(w, temp);
            Before(plan, original, w', if r.Done? then Some(temp) else None)
  {
    hide AllSafe;
    StepBefore(plan, original, w, CreateNew(w, temp).1, temp);
  }

  lemma {:induction false} CreatePendingEffect(plan: Plan, original: seq<byte>, w: World, attempts: nat)
    requires Before(plan, original, w, None) && NamesMissOutput(plan, w.fates)
    ensures var (r, w') := CreatePending(w, attempts);
            && w'.fates == w.fates
            && match r
               case Ok(temp) => Before(plan, original, w', Some(temp)) && Armed(w', temp)
               case Err(e) => (e.Io? || e.Randomness?) && Failed(plan, original, w', Stays(CreateDrop(w, attempts)))
    decreases attempts
  {
    hide Before, AllSafe, CreateNew, SetPending, Close, Idle, TempName;
    if attempts > 0 {
      var (random, w1) := GetRandom(w, 16);
      IdleBefore(plan, original, w, None);
      if random.Some? {
        var temp := TempName(random.value);
        CreateNewBefore(plan, original, w1, temp);
        var (made, w2) := CreateNew(w1, temp);
        if made.Exists? {
          CreatePendingEffect(plan, original, w2, attempts - 1);
        } else if made.Done? {
          TempCalls(plan, original, w2, temp, true, []);
          BeforeParts(plan, original, w2, temp);
          var (armed, w3) := SetPending(w2, temp, true);
          if !armed {
            CloseTemp(plan, original, w3, temp);
          } else {
            IdleBefore(plan, original, w3, Some(temp));
            BeforeParts(plan, original, w3, temp);
            CloseTemp(plan, original, Inspect(w3).1, temp);
          }
        }
      }
    }
  }

  /** A run in progress: the temporary is the only output file, delete-pending, and holds these bytes. */
  ghost predicate Working(plan: Plan, original: seq<byte>, w: World, temp: Name)
  {
    Before(plan, original, w, Some(temp)) && Armed(w, temp)
  }

  /** The streamed figures come from one reading of the source. */
  ghost predicate From(plan: Plan, s: Streamed, seen: seq<byte>)
  {
    && s.sourceDigest == plan.crypto.hash(seen)
    && var out := Transformed(plan, seen);
       out.Some? && s.len == |out.value| && s.digest == plan.crypto.hash(out.value)
  }

  lemma IdleWorking(plan: Plan, original: seq<byte>, w: World, temp: Name)
    requires Working(plan, original, w, temp)
    ensures Working(plan, original, Idle(w), temp)
    ensures Idle(w).fs.names[temp] == w.fs.names[temp] && Contents(w, plan.input) == original
    ensures Contents(w, temp) == w.fs.names[temp].bytes && temp in w.fs.names
  {
    IdleBefore(plan, original, w, Some(temp));
    BeforeParts(plan, original, w, temp);
  }

  lemma SyncWorking(plan: Plan, original: seq<byte>, w: World, temp: Name)
    requires Working(plan, original, w, temp)
    ensures var (r, w') := Synced(w, temp);
            && w'.fates == w.fates && Working(plan, original, w', temp)
            && temp in w.fs.names && temp in w'.fs.names && w'.fs.names[temp].bytes == w.fs.names[temp].bytes
            && (r.Ok? ==> w'.fs.names[temp].durable)
            && (r.Err? ==> r.error == Io)
  {
    TempCalls(plan, original, w, temp, true, []);
    BeforeParts(plan, original, w, temp);
  }

  lemma StreamEffect(plan: Plan, original: seq<byte>, w: World, temp: Name)
    requires Working(plan, original, w, temp)
    ensures var (r, w') := Stream(w, plan, temp);
            && w'.fates == w.fates && Working(plan, original, w', temp)
            && (r.Ok? ==> From(plan, r.value, Delivered(w, plan)))
            && (r.Err? ==> Harmless(r.error))
  {
    hide Before, AllSafe, Idle, Write, Delivered, Transformed;
    IdleWorking(plan, original, w, temp);
    var w1 := Idle(w);
    var seen := Delivered(w, plan);
    var out := Transformed(plan, seen);
    if out.Some? {
      TempCalls(plan, original, w1, temp, true, out.value);
      BeforeParts(plan, original, w1, temp);
      assert From(plan, Streamed(|out.value|, plan.crypto.hash(out.value), plan.crypto.hash(seen)), seen);
    }
  }

  /** Errors that mean nothing was published. */
  predicate Harmless(e: Error)
  {
    !e.PublishedButSourceRetained? && !e.CommittedButSourceRetained? && !e.CommittedSourceRemovalUnconfirmed?
  }

  lemma ProduceEffect(plan: Plan, original: seq<byte>, w: World, temp: Name)
    requires Working(plan, original, w, temp)
    ensures var (r, w') := Produce(w, plan, temp);
            && w'.fates == w.fates && Working(plan, original, w', temp)
            && (r.Ok? ==> From(plan, r.value, Seen(w, plan, temp)))
            && (r.Err? ==> Harmless(r.error))
  {
    hide Working, Stream, Synced, Idle, From, Delivered;
    IdleWorking(plan, original, w, temp);
    var w1 := Idle(w);
    SyncWorking(plan, original, w1, temp);
    var w2 := Synced(w1, temp).1;
    StreamEffect(plan, original, w2, temp);
    var w3 := Stream(w2, plan, temp).1;
    SyncWorking(plan, original, w3, temp);
  }

  /** In one run, the digest tells the source from what was read, the stored bytes from what was to be written, and
      the source from what the stored bytes decrypt to: it compares nothing else. */
  predicate Unfooled(plan: Plan, original: seq<byte>, seen: seq<byte>, stored: seq<byte>)
  {
    && Tells(plan.crypto, original, seen)
    && (Transformed(plan, seen).Some? ==> Tells(plan.crypto, stored, Transformed(plan, seen).value))
    && (plan.crypto.decrypt(stored).Some? ==> Tells(plan.crypto, plan.crypto.decrypt(stored).value, original))
  }

  /** What the checks say about the stored bytes: whatever the first pass really read and wrote, they are a
      complete, correct output. */
  lemma ChecksMeanGood(plan: Plan, original: seq<byte>, bytes: seq<byte>, s: Streamed, seen: seq<byte>)
    requires Unfooled(plan, original, seen, bytes) && From(plan, s, seen)
    requires StoredChecks(plan, bytes, s) && plan.crypto.hash(original) == s.sourceDigest
    ensures Good(plan, original, bytes)
  {
  }

  predicate StoredChecks(plan: Plan, bytes: seq<byte>, s: Streamed)
  {
    && plan.crypto.hash(bytes) == s.digest
    && (plan.operation.Encrypt? ==>
          plan.crypto.decrypt(bytes).Some? && plan.crypto.hash(plan.crypto.decrypt(bytes).value) == s.sourceDigest)
  }

  lemma VerifyOutputEffect(plan: Plan, original: seq<byte>, w: World, temp: Name, s: Streamed)
    requires Working(plan, original, w, temp)
    ensures var (r, w') := VerifyOutput(w, plan, temp, |original|, s);
            && w'.fates == w.fates && Working(plan, original, w', temp)
            && temp in w.fs.names && temp in w'.fs.names && w'.fs.names[temp] == w.fs.names[temp]
            && (r.Ok? ==> StoredChecks(plan, w.fs.names[temp].bytes, s))
            && (r.Err? ==> Harmless(r.error))
  {
    hide Working, Idle;
    IdleWorking(plan, original, w, temp);
    IdleWorking(plan, original, Idle(w), temp);
  }

  lemma ValidateEffect(plan: Plan, original: seq<byte>, w: World, temp: Name, s: Streamed, seen: seq<byte>)
    requires Working(plan, original, w, temp) && From(plan, s, seen) && Unfooled(plan, original, seen, Contents(w, temp))
    ensures var (r, w') := Validate(w, plan, temp, |original|, s);
            && w'.fates == w.fates && Working(plan, original, w', temp)
            && (r.Ok? ==> temp in w'.fs.names && Good(plan, original, w'.fs.names[temp].bytes) && w'.fs.names[temp].durable)
            && (r.Err? ==> Harmless(r.error))
  {
    hide Working, Synced, Idle, VerifyOutput, Contents, Good, Unfooled, From, StoredChecks;
    IdleWorking(plan, original, w, temp);
    VerifyOutputEffect(plan, original, w, temp, s);
    var w1 := VerifyOutput(w, plan, temp, |original|, s).1;
    IdleWorking(plan, original, w1, temp);
    var w2 := Idle(w1);
    IdleWorking(plan, original, w2, temp);
    SyncWorking(plan, original, w2, temp);
    var w3 := Synced(w2, temp).1;
    IdleWorking(plan, original, w3, temp);
    IdleWorking(plan, original, Idle(w3), temp);
    if Validate(w, plan, temp, |original|, s).0.Ok? {
      ChecksMeanGood(plan, original, w.fs.names[temp].bytes, s, seen);
    }
  }

  // --- From publication on ---------------------------------------------------------------------------------

  ghost predicate OnlyOutput(plan: Plan, fs: Fs)
  {
    forall n :: n in fs.names && fs.names[n].kind == Output ==> n == plan.output
  }

  /** Published, source intact. */
  ghost predicate Installed(plan: Plan, original: seq<byte>, w: World)
  {
    plan.input != plan.output && Both(plan, original, w.fs) && AllSafe(plan, original, w) && OnlyOutput(plan, w.fs)
  }

  /** Published for good. */
  ghost predicate Ended(plan: Plan, original: seq<byte>, w: World)
  {
    plan.input != plan.output && Final(plan, original, w.fs) && AllSafe(plan, original, w) && OnlyOutput(plan, w.fs)
  }

  lemma RenameInstalls(plan: Plan, original: seq<byte>, w: World, temp: Name)
    requires Before(plan, original, w, Some(temp)) && !Armed(w, temp)
    requires temp in w.fs.names && Good(plan, original, w.fs.names[temp].bytes) && w.fs.names[temp].durable
    ensures var (r, w') := Rename(w, temp, plan.output);
            && w'.fates == w.fates
            && if r.Done? then Installed(plan, original, w') else Before(plan, original, w', Some(temp)) && !Armed(w', temp)
  {
    hide AllSafe, Good;
    IdleBefore(plan, original, w, Some(temp));
    var (r, w') := Rename(w, temp, plan.output);
    if r.Done? {
      ArrivalsOnlyAdd(w, plan.input);
      ArrivalsOnlyAdd(w, plan.output);
      SafeAfter(plan, original, w, w');
    }
  }

  lemma OutputCalls(plan: Plan, original: seq<byte>, w: World)
    requires Installed(plan, original, w)
    ensures var (ok, w') := SyncFile(w, plan.output);
            w'.fates == w.fates && Installed(plan, original, w') && (ok ==> Ended(plan, original, w'))
    ensures Installed(plan, original, Close(w, plan.output).1)
  {
    hide AllSafe, Good;
    ArrivalsOnlyAdd(w, plan.input);
    ArrivalsOnlyAdd(w, plan.output);
    SafeAfter(plan, original, w, SyncFile(w, plan.output).1);
    SafeAfter(plan, original, w, Close(w, plan.output).1);
  }

  lemma PublishEffect(plan: Plan, original: seq<byte>, w: World, temp: Name)
    requires Working(plan, original, w, temp)
    requires temp in w.fs.names && Good(plan, original, w.fs.names[temp].bytes) && w.fs.names[temp].durable
    ensures var (r, w') := Publish(w, plan, temp);
            && w'.fates == w.fates
            && match r
               case Ok(_) => Installed(plan, original, w') && Ended(plan, original, w')
               case Err(PublishedButSourceRetained) => Installed(plan, original, w')
               case Err(e) => Harmless(e) && Failed(plan, original, w', Stays(PublishDrop(w, plan, temp)))
  {
    hide Before, Installed, Ended, Failed, Good, Discard, Close, Idle, Rename, SyncFile, SetPending;
    var (cleared, w1) := SetPending(w, temp, false);
    TempCalls(plan, original, w, temp, false, []);
    if !cleared {
      DiscardEffect(plan, original, w1, temp, true);
    } else {
      var (ready, w2) := Inspect(w1);
      IdleBefore(plan, original, w1, Some(temp));
      BeforeParts(plan, original, w2, temp);
      if !ready.Proceed? {
        DiscardEffect(plan, original, w2, temp, false);
      } else {
        RenameInstalls(plan, original, w2, temp);
        var (renamed, w3) := Rename(w2, temp, plan.output);
        if renamed.Done? {
          OutputCalls(plan, original, w3);
          OutputCalls(plan, original, SyncFile(w3, plan.output).1);
        } else {
          DiscardEffect(plan, original, w3, temp, false);
        }
      }
    }
  }

  /** What happens to the source keeps the published output. */
  lemma SourceStep(plan: Plan, original: seq<byte>, w: World, w': World)
    requires Ended(plan, original, w) && Step(w, w', plan.input)
    requires plan.input in w'.fs.names ==> w'.fs.names[plan.input].kind != Output
    ensures Ended(plan, original, w')
  {
    hide AllSafe, Good;
    ArrivalsOnlyAdd(w, plan.input);
    ArrivalsOnlyAdd(w, plan.output);
    SafeAfter(plan, original, w, w');
  }

  /** The source's entry, not vacated, possibly delete-pending. */
  predicate SourceThere(plan: Plan, original: seq<byte>, fs: Fs, pending: bool)
  {
    plan.input in fs.names && fs.names[plan.input] == File(Source, original, true, true, pending) && plan.input !in fs.vacated
  }

  lemma IdleSource(plan: Plan, original: seq<byte>, w: World, pending: bool)
    requires Ended(plan, original, w) && SourceThere(plan, original, w.fs, pending)
    ensures Ended(plan, original, Idle(w)) && SourceThere(plan, original, Idle(w).fs, pending)
  {
    ArrivalsOnlyAdd(w, plan.input);
    SourceStep(plan, original, w, Idle(w));
  }

  lemma SourceCalls(plan: Plan, original: seq<byte>, w: World, was: bool, pending: bool)
    requires Ended(plan, original, w) && SourceThere(plan, original, w.fs, was)
    ensures var (ok, w') := SetPending(w, plan.input, pending);
            && w'.fates == w.fates
            && Ended(plan, original, w') && SourceThere(plan, original, w'.fs, if ok then pending else was)
  {
    hide Ended;
    SourceStep(plan, original, w, SetPending(w, plan.input, pending).1);
  }

  lemma CloseSource(plan: Plan, original: seq<byte>, w: World, was: bool)
    requires Ended(plan, original, w) && SourceThere(plan, original, w.fs, was)
    ensures var (ok, w') := Close(w, plan.input);
            && w'.fates == w.fates && Ended(plan, original, w')
            && if ok && was then plan.input !in w'.fs.names else SourceThere(plan, original, w'.fs, was)
  {
    hide Ended;
    SourceStep(plan, original, w, Close(w, plan.input).1);
  }

  lemma DeleteEffect(plan: Plan, original: seq<byte>, w: World)
    requires Ended(plan, original, w) && SourceThere(plan, original, w.fs, false)
    ensures var (r, w') := DeleteSource(w, plan);
            && w'.fates == w.fates && Ended(plan, original, w')
            && match r
               case Ok(_) => plan.input !in w'.fs.names
               case Err(CommittedButSourceRetained) => SourceThere(plan, original, w'.fs, false)
               case Err(e) => e == CommittedSourceRemovalUnconfirmed
  {
    hide Ended, SourceThere, Idle, SetPending, Close;
    var w1 := Idle(w);
    IdleSource(plan, original, w, false);
    CloseSource(plan, original, w1, false);
    SourceCalls(plan, original, w1, false, true);
    var (marked, w2) := SetPending(w1, plan.input, true);
    CloseSource(plan, original, w2, marked);
    if marked {
      var w3 := Idle(w2);
      IdleSource(plan, original, w2, true);
      CloseSource(plan, original, w3, true);
      SourceCalls(plan, original, w3, true, false);
      var (cancelled, w4) := SetPending(w3, plan.input, false);
      CloseSource(plan, original, w4, !cancelled);
    }
  }

  // --- Whole runs ------------------------------------------------------------------------------------------

  /** Before the run: the source is on disk, and nothing else belongs to it. */
  ghost predicate Start(plan: Plan, original: seq<byte>, w: World)
  {
    && plan.input != plan.output && plan.input in w.fs.names
    && w.fs.names[plan.input] == File(Source, original, true, true, false)
    && (forall n :: n in w.fs.names && n != plan.input ==> w.fs.names[n].kind == Other)
    && w.fs.vacated == map[] && w.trace == [w.fs]
  }

  /** What each result says about the disk, for a run that would give up its temporary as `drop` says. */
  ghost predicate Explains(plan: Plan, original: seq<byte>, r: Result<(), Error>, drop: Drop, w: World)
  {
    match r
    case Ok(_) => // only the complete output
      Ended(plan, original, w) && (plan.input in w.fs.names ==> w.fs.names[plan.input].kind == Other)
    case Err(PublishedButSourceRetained) => // both files
      Installed(plan, original, w)
    case Err(CommittedButSourceRetained) => // both files, the output for good
      Ended(plan, original, w) && Installed(plan, original, w)
    case Err(CommittedSourceRemovalUnconfirmed) => // the output for good
      Ended(plan, original, w)
    case Err(_) => // the source as it was, nothing published; the temporary is there exactly if a call on it failed
      Failed(plan, original, w, Stays(drop))
  }

  lemma OpenSourceEffect(plan: Plan, original: seq<byte>, w: World)
    requires Before(plan, original, w, None)
    ensures var (r, w') := OpenSource(w, plan);
            && w'.fates == w.fates && Before(plan, original, w', None)
            && (r.Err? ==> Harmless(r.error))
  {
    hide Before;
    IdleBefore(plan, original, w, None);
    var w1 := Idle(w);
    IdleBefore(plan, original, w1, None);
    var w2 := Idle(w1);
    IdleBefore(plan, original, w2, None);
    IdleBefore(plan, original, Idle(w2), None);
  }

  /** The digest is not fooled in the part of a run that compares digests. */
  predicate PrepareUnfooled(plan: Plan, original: seq<byte>, w: World)
  {
    var (made, w1) := CreatePending(w, TEMP_ATTEMPTS);
    made.Ok? ==>
      var (streamed, w2) := Produce(w1, plan, made.value);
      streamed.Ok? ==> Unfooled(plan, original, Seen(w1, plan, made.value), Contents(w2, made.value))
  }

  /** A run that does not meet two different byte strings with one digest. */
  predicate DigestUnfooled(plan: Plan, original: seq<byte>, w: World)
  {
    var (checked, w1) := OpenSource(w, plan);
    checked.Ok? ==> PrepareUnfooled(plan, original, w1)
  }

  lemma PrepareEffect(plan: Plan, original: seq<byte>, w: World)
    requires PrepareUnfooled(plan, original, w) && NamesMissOutput(plan, w.fates) && Before(plan, original, w, None)
    ensures var (r, w') := Prepare(w, plan);
            && w'.fates == w.fates
            && match r
               case Ok(temp) =>
                 Working(plan, original, w', temp) && temp in w'.fs.names
                 && Good(plan, original, w'.fs.names[temp].bytes) && w'.fs.names[temp].durable
               case Err(e) => Harmless(e) && Failed(plan, original, w', Stays(PrepareDrop(w, plan)))
  {
    hide Before, Failed, Good, CreatePending, CreateDrop, Stays, Produce, Validate, From, NamesMissOutput, Discard, Unfooled, Seen;
    CreatePendingEffect(plan, original, w, TEMP_ATTEMPTS);
    var (made, w1) := CreatePending(w, TEMP_ATTEMPTS);
    if made.Ok? {
      var temp := made.value;
      BeforeParts(plan, original, w1, temp);
      ProduceEffect(plan, original, w1, temp);
      var (streamed, w2) := Produce(w1, plan, temp);
      DiscardEffect(plan, original, w2, temp, true);
      if streamed.Ok? {
        var seen := Seen(w1, plan, temp);
        ValidateEffect(plan, original, w2, temp, streamed.value, seen);
        DiscardEffect(plan, original, Validate(w2, plan, temp, |original|, streamed.value).1, temp, true);
      }
    }
  }

  lemma FinishEffect(plan: Plan, original: seq<byte>, w: World)
    requires Ended(plan, original, w) && SourceThere(plan, original, w.fs, false)
    ensures var (r, w1) := DeleteSource(w, plan);
            forall drop :: Explains(plan, original, r, drop, Close(w1, plan.output).1)
  {
    hide AllSafe, Good, DeleteSource;
    DeleteEffect(plan, original, w);
    var (r, w1) := DeleteSource(w, plan);
    ArrivalsOnlyAdd(w1, plan.input);
    ArrivalsOnlyAdd(w1, plan.output);
    SafeAfter(plan, original, w1, Close(w1, plan.output).1);
  }

  lemma InstalledHasSource(plan: Plan, original: seq<byte>, w: World)
    requires Installed(plan, original, w)
    ensures SourceThere(plan, original, w.fs, false)
  {
  }

  /** Every result determines the disk, for every pattern of failures, interference and silent corruption. */
  lemma TransformExplained(plan: Plan, original: seq<byte>, w: World)
    requires DigestUnfooled(plan, original, w) && NamesMissOutput(plan, w.fates) && Start(plan, original, w)
    ensures var (r, w') := Transform(w, plan);
            Explains(plan, original, r, TransformDrop(w, plan), w')
  {
    hide Before, Working, Installed, Ended, Good, OpenSource, Prepare, Publish, DeleteSource, Close, NamesMissOutput, CrashSafe,
      PrepareDrop, PublishDrop, PrepareUnfooled;
    StartIsBefore(plan, original, w);
    OpenSourceEffect(plan, original, w);
    var (checked, w1) := OpenSource(w, plan);
    if checked.Err? {
      assert Before(plan, original, w1, None);
    } else {
      PrepareEffect(plan, original, w1);
      var (prepared, w2) := Prepare(w1, plan);
      if prepared.Ok? {
        PublishEffect(plan, original, w2, prepared.value);
        var (published, w3) := Publish(w2, plan, prepared.value);
        if published.Ok? {
          InstalledHasSource(plan, original, w3);
          FinishEffect(plan, original, w3);
        }
      }
    }
  }

  lemma StartIsBefore(plan: Plan, original: seq<byte>, w: World)
    requires Start(plan, original, w)
    ensures Before(plan, original, w, None)
  {
    hide CrashSafe;
    PhaseIsSafe(plan, original, w.fs);
  }

  /** "Neither file" is unreachable: every state of every run survives a kill and a power loss. */
  lemma NeverNeither(plan: Plan, original: seq<byte>, w: World, i: nat)
    requires DigestUnfooled(plan, original, w) && NamesMissOutput(plan, w.fates) && Start(plan, original, w)
    requires i < |Transform(w, plan).1.trace|
    ensures CrashSafe(plan, original, Transform(w, plan).1.trace[i])
  {
    hide CrashSafe, Transform, Untouched, Both, Final, NamesMissOutput;
    TransformExplained(plan, original, w);
    assert AllSafe(plan, original, Transform(w, plan).1);
  }

  /** This run's file is under the output name at the end exactly when the result says so. */
  lemma PublishedExactly(plan: Plan, original: seq<byte>, w: World)
    requires DigestUnfooled(plan, original, w) && NamesMissOutput(plan, w.fates) && Start(plan, original, w)
    ensures var (r, w') := Transform(w, plan);
            (plan.output in w'.fs.names && w'.fs.names[plan.output].kind == Output)
            <==> r.Ok? || !Harmless(r.error)
  {
    hide AllSafe, Transform, Good, NamesMissOutput, DigestUnfooled;
    TransformExplained(plan, original, w);
    var (r, w') := Transform(w, plan);
    if r.Err? && Harmless(r.error) {
      assert Failed(plan, original, w', Stays(TransformDrop(w, plan)));
    }
  }
}
