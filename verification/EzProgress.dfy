/** Progress of the `ezcrypt` transaction, and what it means for the concrete stream format. */
module EzProgress {
  import opened Bytes
  import opened EzFiles
  import opened EzTransaction
  import EzFormat
  import EzStream

  /** Nothing but setting dispositions and closing fails, nobody interferes, nothing is corrupted. */
  ghost predicate Calm(fates: nat -> Fate)
  {
    forall t :: fates(t).arrivals == map[] && fates(t).verdict == Proceed
                && |fates(t).random| >= 16 && fates(t).delivered == None && fates(t).stored == None
  }

  /** Nothing fails at all. */
  ghost predicate Quiet(fates: nat -> Fate)
  {
    Calm(fates) && forall t :: fates(t).handles
  }

  lemma NothingArrives(w: World)
    requires Calm(w.fates)
    ensures Arrived(w) == w.fs
  {
    assert Arrived(w).names == w.fs.names;
  }

  lemma OpenSourceQuiet(plan: Plan, w: World)
    requires Calm(w.fates) && plan.output !in w.fs.names
    ensures var (r, w') := OpenSource(w, plan);
            r.Ok? && w'.fs == w.fs && w'.fates == w.fates && w'.clock == w.clock + 4
  {
    NothingArrives(w);
    NothingArrives(Idle(w));
    NothingArrives(Idle(Idle(w)));
    NothingArrives(Idle(Idle(Idle(w))));
  }

  lemma CreateQuiet(w: World)
    requires Quiet(w.fates) && TempName(w.fates(w.clock).random[..16]) !in w.fs.names
    ensures var (r, w') := CreatePending(w, TEMP_ATTEMPTS);
            && r.Ok? && w'.fates == w.fates && w'.fs.vacated == w.fs.vacated && r.value !in w.fs.names
            && w'.fs.names == w.fs.names[r.value := File(Kind.Output, [], false, false, true)]
  {
    hide TempName;
    var w1 := Idle(w);
    NothingArrives(w);
    var temp := TempName(w.fates(w.clock).random[..16]);
    NothingArrives(w1);
    var w2 := CreateNew(w1, temp).1;
    NothingArrives(w2);
    var w3 := SetPending(w2, temp, true).1;
    NothingArrives(w3);
    assert w3.fs.names == w.fs.names[temp := File(Kind.Output, [], false, false, true)];
  }

  lemma StreamQuiet(plan: Plan, w: World, temp: Name)
    requires Quiet(w.fates) && temp in w.fs.names && plan.input in w.fs.names
    requires Transformed(plan, w.fs.names[plan.input].bytes).Some?
    ensures var original := w.fs.names[plan.input].bytes;
            var out := Transformed(plan, original).value;
            var (r, w') := Stream(w, plan, temp);
            && r == Ok(Streamed(|out|, plan.crypto.hash(out), plan.crypto.hash(original)))
            && w'.fates == w.fates
            && w'.fs == w.fs.(names := w.fs.names[temp := w.fs.names[temp].(bytes := out, durable := false)])
  {
    NothingArrives(w);
    NothingArrives(Idle(w));
  }

  lemma ProduceQuiet(plan: Plan, w: World, temp: Name)
    requires Quiet(w.fates) && temp in w.fs.names && plan.input in w.fs.names
    requires Transformed(plan, w.fs.names[plan.input].bytes).Some?
    ensures var original := w.fs.names[plan.input].bytes;
            var out := Transformed(plan, original).value;
            var (r, w') := Produce(w, plan, temp);
            && r == Ok(Streamed(|out|, plan.crypto.hash(out), plan.crypto.hash(original)))
            && w'.fates == w.fates
            && w'.fs == w.fs.(names := w.fs.names[temp := w.fs.names[temp].(bytes := out, durable := true, settled := true)])
  {
    hide SyncFile, Stream, Inspect, Quiet, Step, Arrived, Transformed;
    var out := Transformed(plan, w.fs.names[plan.input].bytes).value;
    var f := w.fs.names[temp];
    InspectQuiet(w);
    var w1 := Inspect(w).1;
    SyncQuiet(w1, temp);
    var w2 := SyncFile(w1, temp).1;
    StreamQuiet(plan, w2, temp);
    var w3 := Stream(w2, plan, temp).1;
    SyncQuiet(w3, temp);
    var w4 := SyncFile(w3, temp).1;
    assert w4.fs.names == w.fs.names[temp := f.(bytes := out, durable := true, settled := true)];
  }

  lemma ValidateQuiet(plan: Plan, w: World, temp: Name)
    requires Quiet(w.fates) && temp in w.fs.names && plan.input in w.fs.names && temp != plan.input
    requires w.fs.names[temp].durable && w.fs.names[temp].settled
    requires var original := w.fs.names[plan.input].bytes;
             && Transformed(plan, original) == Some(w.fs.names[temp].bytes)
             && Good(plan, original, w.fs.names[temp].bytes)
    ensures var original, out := w.fs.names[plan.input].bytes, w.fs.names[temp].bytes;
            var s := Streamed(|out|, plan.crypto.hash(out), plan.crypto.hash(original));
            var (r, w') := Validate(w, plan, temp, |original|, s);
            r.Ok? && w'.fates == w.fates && w'.fs.names == w.fs.names && w'.fs.vacated == w.fs.vacated
  {
    var original, out := w.fs.names[plan.input].bytes, w.fs.names[temp].bytes;
    var s := Streamed(|out|, plan.crypto.hash(out), plan.crypto.hash(original));
    VerifyOutputQuiet(plan, w, temp, s);
    hide VerifyOutput;
    var w1 := VerifyOutput(w, plan, temp, |original|, s).1;
    NothingArrives(w1);
    var w2 := Idle(w1);
    NothingArrives(w2);
    var w3 := SyncFile(w2, temp).1;
    assert w3.fs.names == w.fs.names;
    NothingArrives(w3);
    NothingArrives(Idle(w3));
  }

  lemma VerifyOutputQuiet(plan: Plan, w: World, temp: Name, s: Streamed)
    requires Quiet(w.fates) && temp in w.fs.names && plan.input in w.fs.names && temp != plan.input
    requires var original, out := w.fs.names[plan.input].bytes, w.fs.names[temp].bytes;
             && s == Streamed(|out|, plan.crypto.hash(out), plan.crypto.hash(original)) && Good(plan, original, out)
    ensures var (r, w') := VerifyOutput(w, plan, temp, |w.fs.names[plan.input].bytes|, s);
            r.Ok? && w'.fates == w.fates && w'.fs == w.fs
  {
    NothingArrives(w);
    NothingArrives(Idle(w));
  }

  lemma RenameQuiet(w: World, temp: Name, target: Name)
    requires Quiet(w.fates) && temp in w.fs.names && target !in w.fs.names
    ensures var (r, w') := Rename(w, temp, target);
            r.Done? && w'.fates == w.fates
            && w'.fs.names == Without(w.fs.names, temp)[target := w.fs.names[temp].(settled := false)]
  {
    NothingArrives(w);
  }

  lemma SyncQuiet(w: World, n: Name)
    requires Quiet(w.fates) && n in w.fs.names
    ensures var (ok, w') := SyncFile(w, n);
            ok && w'.fates == w.fates && w'.fs.names == w.fs.names[n := w.fs.names[n].(durable := true, settled := true)]
  {
    NothingArrives(w);
  }

  lemma SetPendingQuiet(w: World, n: Name, pending: bool)
    requires Quiet(w.fates) && n in w.fs.names
    ensures var (ok, w') := SetPending(w, n, pending);
            ok && w'.fates == w.fates && w'.fs.names == w.fs.names[n := w.fs.names[n].(pending := pending)]
  {
    NothingArrives(w);
  }

  lemma InspectQuiet(w: World)
    requires Quiet(w.fates)
    ensures var (v, w') := Inspect(w);
            v == Proceed && w'.fates == w.fates && w'.fs == w.fs
  {
    NothingArrives(w);
  }

  lemma PublishQuiet(plan: Plan, w: World, temp: Name)
    requires Quiet(w.fates) && temp in w.fs.names && temp != plan.output && plan.output !in w.fs.names
    ensures var (r, w') := Publish(w, plan, temp);
            && r.Ok? && w'.fates == w.fates
            && w'.fs.names == Without(w.fs.names, temp)[plan.output := w.fs.names[temp].(pending := false, durable := true, settled := true)]
  {
    hide Rename, SyncFile, Discard, Close, SetPending, Inspect, Quiet, Step, Arrived;
    SetPendingQuiet(w, temp, false);
    var w1 := SetPending(w, temp, false).1;
    InspectQuiet(w1);
    var w2 := Inspect(w1).1;
    RenameQuiet(w2, temp, plan.output);
    assert Without(w2.fs.names, temp) == Without(w.fs.names, temp);
    SyncQuiet(Rename(w2, temp, plan.output).1, plan.output);
  }

  lemma DeleteQuiet(plan: Plan, w: World)
    requires Quiet(w.fates) && plan.input in w.fs.names
    ensures var (r, w') := DeleteSource(w, plan);
            r.Ok? && w'.fates == w.fates && w'.fs.names == Without(w.fs.names, plan.input)
  {
    NothingArrives(w);
    var w1 := Idle(w);
    NothingArrives(w1);
    var w2 := SetPending(w1, plan.input, true).1;
    NothingArrives(w2);
    var w3 := Idle(w2);
    NothingArrives(w3);
    assert Close(w3, plan.input).1.fs.names == Without(w.fs.names, plan.input);
  }

  /** With nothing in its way, the transaction succeeds and leaves the output in the place of the source. */
  lemma QuietRunSucceeds(plan: Plan, original: seq<byte>, w: World)
    requires Quiet(w.fates) && Start(plan, original, w) && plan.output !in w.fs.names
    requires Transformed(plan, original).Some? && Good(plan, original, Transformed(plan, original).value)
    requires forall t :: TempName(w.fates(t).random[..16]) !in w.fs.names && TempName(w.fates(t).random[..16]) != plan.output
    ensures var (r, w') := Transform(w, plan);
            && r.Ok?
            && w'.fs.names == Without(w.fs.names, plan.input)
                 [plan.output := File(Kind.Output, Transformed(plan, original).value, true, true, false)]
  {
    hide OpenSource, CreatePending, Produce, Validate, Publish, DeleteSource, TempName;
    var out := Transformed(plan, original).value;
    OpenSourceQuiet(plan, w);
    var w1 := OpenSource(w, plan).1;
    CreateQuiet(w1);
    var (made, w2) := CreatePending(w1, TEMP_ATTEMPTS);
    var temp := made.value;
    ProduceQuiet(plan, w2, temp);
    var w3 := Produce(w2, plan, temp).1;
    ValidateQuiet(plan, w3, temp);
    var s := Produce(w2, plan, temp).0.value;
    var w4 := Validate(w3, plan, temp, |original|, s).1;
    assert temp != plan.output by { TempIsNotOutput(plan, w1); }
    PublishQuiet(plan, w4, temp);
    var w5 := Publish(w4, plan, temp).1;
    DeleteQuiet(plan, w5);
    var w6 := DeleteSource(w5, plan).1;
    NothingArrives(w6);
    assert Close(w6, plan.output).1.fs.names == w6.fs.names;
    assert w6.fs.names == Without(w.fs.names, plan.input)[plan.output := File(Kind.Output, out, true, true, false)];
  }

  lemma TempIsNotOutput(plan: Plan, w: World)
    requires Quiet(w.fates) && forall t :: TempName(w.fates(t).random[..16]) !in w.fs.names && TempName(w.fates(t).random[..16]) != plan.output
    ensures CreatePending(w, TEMP_ATTEMPTS).0.Ok? ==> CreatePending(w, TEMP_ATTEMPTS).0.value != plan.output
  {
    hide TempName;
    NothingArrives(w);
    CreateQuiet(w);
  }

  /** A volume with only the source, on which dispositions and closes fail at these times. */
  function HandlesFail(plan: Plan, original: seq<byte>, times: set<nat>): World
  {
    var fs := Fs(map[plan.input := File(Kind.Source, original, true, true, false)], map[]);
    World((t: nat) => Fate(map[], Proceed, t !in times, Zeros(16), None, None), fs, [fs], 0)
  }

  /** There are such runs: with any cipher that inverts itself on the source, the transaction succeeds. */
  lemma QuietRunExists(plan: Plan, original: seq<byte>)
    requires plan.input != plan.output && TempName(Zeros(16)) != plan.input && TempName(Zeros(16)) != plan.output
    requires Transformed(plan, original).Some? && Good(plan, original, Transformed(plan, original).value)
    ensures Transform(HandlesFail(plan, original, {}), plan).0.Ok?
  {
    hide Transform, TempName;
    var w := HandlesFail(plan, original, {});
    assert forall t :: w.fates(t).random[..16] == Zeros(16);
    QuietRunSucceeds(plan, original, w);
  }

  lemma CreateUnarmed(w: World)
    requires Calm(w.fates) && TempName(w.fates(w.clock).random[..16]) !in w.fs.names && !w.fates(w.clock + 2).handles
    ensures var temp := TempName(w.fates(w.clock).random[..16]);
            var (r, w') := CreatePending(w, TEMP_ATTEMPTS);
            && r == Err(Io) && w'.fs.names == w.fs.names[temp := File(Kind.Output, [], false, false, false)]
            && CreateDrop(w, TEMP_ATTEMPTS) == Unarmed
  {
    hide TempName;
    var w1 := Idle(w);
    NothingArrives(w);
    var temp := TempName(w.fates(w.clock).random[..16]);
    NothingArrives(w1);
    var w2 := CreateNew(w1, temp).1;
    NothingArrives(w2);
    var w3 := SetPending(w2, temp, true).1;
    NothingArrives(w3);
    assert Close(w3, temp).1.fs.names == w.fs.names[temp := File(Kind.Output, [], false, false, false)];
  }

  /** A temporary can stay: when the new file cannot be marked for deletion, it is closed as it is. */
  lemma TemporaryMayStay(plan: Plan, original: seq<byte>)
    requires plan.input != plan.output && TempName(Zeros(16)) != plan.input
    ensures var w := HandlesFail(plan, original, {6});
            var (r, w') := Transform(w, plan);
            && Start(plan, original, w) && Stays(TransformDrop(w, plan))
            && r == Err(Io) && TempName(Zeros(16)) in w'.fs.names
            && w'.fs.names[TempName(Zeros(16))] == File(Kind.Output, [], false, false, false)
  {
    hide OpenSource, TempName, CreatePending, CreateDrop, Produce, Validate, Publish, PublishDrop, DeleteSource;
    var w := HandlesFail(plan, original, {6});
    OpenSourceQuiet(plan, w);
    var w1 := OpenSource(w, plan).1;
    assert w1.fates(w1.clock).random[..16] == Zeros(16);
    CreateUnarmed(w1);
  }

  // --- The concrete stream ---------------------------------------------------------------------------------

  /** The transaction's view of the stream format under one password and one draw of salt and nonce prefix. */
  function CryptoOf(p: EzStream.Primitives, hash: seq<byte> -> seq<byte>, password: seq<byte>, kdf: EzFormat.Kdf,
                    salt: seq<byte>, prefix: seq<byte>): Crypto
    requires kdf.Valid() && |salt| == |prefix| == 16
  {
    Crypto(hash,
           m => if |m| < U64_END && EzFormat.Header(|m|, kdf, salt, prefix).Validate().Ok?
                then Some(EzStream.EncryptedFile(p, EzFormat.Header(|m|, kdf, salt, prefix), p.kdf(password, kdf, salt), m))
                else None,
           s => var o := EzStream.DecryptFile(p, password, s, |s|); if o.result.Ok? then Some(o.written) else None)
  }

  /** If an encryption publishes, the published bytes are a stream that decrypts to exactly the source, whatever
      was misread or miswritten on the way. */
  lemma PublishedStreamDecrypts(p: EzStream.Primitives, hash: seq<byte> -> seq<byte>, password: seq<byte>, kdf: EzFormat.Kdf,
                                salt: seq<byte>, prefix: seq<byte>, plan: Plan, original: seq<byte>, w: World)
    requires kdf.Valid() && |salt| == |prefix| == 16 && plan.operation.Encrypt?
    requires plan.crypto == CryptoOf(p, hash, password, kdf, salt, prefix)
    requires DigestUnfooled(plan, original, w) && NamesMissOutput(plan, w.fates) && Start(plan, original, w)
    ensures var (r, w') := Transform(w, plan);
            r.Ok? || !Harmless(r.error) ==>
              && plan.output in w'.fs.names
              && var bytes := w'.fs.names[plan.output].bytes;
                 EzStream.DecryptFile(p, password, bytes, |bytes|).result.Ok?
                 && EzStream.DecryptFile(p, password, bytes, |bytes|).written == original
  {
    hide Transform, TransformDrop, Stays, AllSafe, NamesMissOutput, Start, DigestUnfooled,
      EzStream.DecryptFile, EzStream.EncryptedFile;
    TransformExplained(plan, original, w);
  }

  /** And a fault-free encryption of any source the format admits does publish. */
  lemma StreamIsGoodOutput(p: EzStream.Primitives, hash: seq<byte> -> seq<byte>, password: seq<byte>, kdf: EzFormat.Kdf,
                           salt: seq<byte>, prefix: seq<byte>, plan: Plan, original: seq<byte>)
    requires EzStream.Lawful(p) && kdf.Valid() && |salt| == |prefix| == 16 && plan.operation.Encrypt?
    requires plan.crypto == CryptoOf(p, hash, password, kdf, salt, prefix)
    requires |original| < U64_END && EzFormat.Header(|original|, kdf, salt, prefix).Validate().Ok?
    ensures Transformed(plan, original).Some? && Good(plan, original, Transformed(plan, original).value)
  {
    hide EzStream.Lawful, EzStream.DecryptFile, EzStream.EncryptedFile;
    EzStream.DecryptOfEncrypt(p, EzFormat.Header(|original|, kdf, salt, prefix), password, original);
  }
}
