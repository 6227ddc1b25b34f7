/** The file system under `ezcrypt`'s replace transaction: one directory whose files may be delete-pending, whose
    contents and entries may not yet be on stable storage, and in which every call may fail. */
module EzFiles {
  import opened Bytes

  type Name = string

  datatype Operation = Encrypt | Decrypt

  /** The digest, and what a whole stream becomes under one password, if it is accepted at all. */
  datatype Crypto = Crypto(hash: seq<byte> -> seq<byte>,
                           encrypt: seq<byte> -> Option<seq<byte>>,
                           decrypt: seq<byte> -> Option<seq<byte>>)

  /** The digest tells these two byte strings apart, if they differ. */
  predicate Tells(c: Crypto, x: seq<byte>, y: seq<byte>) { c.hash(x) == c.hash(y) ==> x == y }

  datatype Plan = Plan(operation: Operation, input: Name, output: Name, crypto: Crypto)

  datatype Kind = Source | Output | Other

  /** `durable`: the contents are on stable storage; `settled`: so is the entry; `pending`: deleted on close. */
  datatype File = File(kind: Kind, bytes: seq<byte>, durable: bool, settled: bool, pending: bool)

  /** `vacated` remembers entries that were removed but might come back after a power loss. */
  datatype Fs = Fs(names: map<Name, File>, vacated: map<Name, File>)

  datatype Verdict = Proceed | Fail | Refuse

  /** What happens at one call: files others create just before it; whether it succeeds, or an inspection finds
      something unexpected; whether setting a disposition or closing works; what the random source yields; what
      a first-pass read delivers and what a write really stores, if not the right bytes. */
  datatype Fate = Fate(arrivals: map<Name, seq<byte>>, verdict: Verdict, handles: bool, random: seq<byte>,
                       delivered: Option<seq<byte>>, stored: Option<seq<byte>>)

  /** The trace holds every state the file system has been in. */
  datatype World = World(fates: nat -> Fate, fs: Fs, trace: seq<Fs>, clock: nat)

  datatype Outcome = Done | Exists | Failed

  function Now(w: World): Fate { w.fates(w.clock) }

  /** The directory as a call finds it. */
  function Arrived(w: World): Fs
  {
    var newcomers := Now(w).arrivals;
    w.fs.(names := (map n | n in newcomers :: File(Other, newcomers[n], false, false, false)) + w.fs.names)
  }

  function Do(w: World, fs': Fs): World
  {
    World(w.fates, fs', w.trace + [Arrived(w), fs'], w.clock + 1)
  }

  /** Entries and remembered entries other than `n` are the same, up to names that others took. */
  ghost predicate OnlyAt(before: Fs, after: Fs, n: Name)
  {
    && (forall m :: m != n && m in before.names ==> m in after.names && after.names[m] == before.names[m])
    && (forall m :: m != n && m in after.names && m !in before.names ==> after.names[m].kind == Other)
    && (forall m :: m != n && m in after.vacated ==> m in before.vacated)
  }

  /** One call: others may have acted before it, and it changes nothing but `n`. */
  ghost predicate Step(w: World, w': World, n: Name)
  {
    && w'.fates == w.fates && w'.clock == w.clock + 1
    && w'.trace == w.trace + [Arrived(w), w'.fs]
    && OnlyAt(w.fs, w'.fs, n)
  }

  lemma ArrivalsOnlyAdd(w: World, n: Name)
    ensures OnlyAt(w.fs, Arrived(w), n)
    ensures Arrived(w).vacated == w.fs.vacated
    ensures n in w.fs.names ==> n in Arrived(w).names && Arrived(w).names[n] == w.fs.names[n]
    ensures n !in w.fs.names && n in Arrived(w).names ==> Arrived(w).names[n].kind == Other
  {
  }

  /** A call that changes nothing itself. */
  function Idle(w: World): (w': World)
    ensures w'.fs == Arrived(w) && w'.fates == w.fates && forall n :: Step(w, w', n)
  {
    Do(w, Arrived(w))
  }

  /** `fs::symlink_metadata` on a name. */
  function Lookup(w: World, n: Name): (Outcome, World)
  {
    (if Now(w).verdict != Proceed then Failed else if n in Arrived(w).names then Exists else Done, Idle(w))
  }

  /** Opening, reading, or inspecting an open file. */
  function Inspect(w: World): (Verdict, World) { (Now(w).verdict, Idle(w)) }

  function GetRandom(w: World, count: nat): (Option<seq<byte>>, World)
  {
    var random := Now(w).random;
    (if Now(w).verdict != Proceed || |random| < count then None else Some(random[..count]), Idle(w))
  }

  /** The operating system's exclusive creation of a new, empty file. */
  function CreateNew(w: World, n: Name): (r: (Outcome, World))
    ensures Step(w, r.1, n)
    ensures r.0.Done? ==> n !in w.fs.names && n in r.1.fs.names && r.1.fs.names[n] == File(Output, [], false, false, false)
    ensures !r.0.Done? ==> r.1.fs == Arrived(w)
    ensures r.1.fs.vacated == w.fs.vacated
  {
    var fs := Arrived(w);
    if Now(w).verdict != Proceed then (Failed, Do(w, fs))
    else if n in fs.names then (Exists, Do(w, fs))
    else (Done, Do(w, fs.(names := fs.names[n := File(Output, [], false, false, false)])))
  }

  /** `mark_delete` and `clear_delete`. */
  function SetPending(w: World, n: Name, pending: bool): (r: (bool, World))
    ensures Step(w, r.1, n) && r.1.fs.vacated == w.fs.vacated && r.0 == Now(w).handles
    ensures n in w.fs.names ==>
      n in r.1.fs.names && r.1.fs.names[n] == if r.0 then w.fs.names[n].(pending := pending) else w.fs.names[n]
  {
    var fs := Arrived(w);
    var ok := Now(w).handles;
    (ok, Do(w, if ok && n in fs.names then fs.(names := fs.names[n := fs.names[n].(pending := pending)]) else fs))
  }

  /** Closing the only handle: a delete-pending file goes. */
  function Close(w: World, n: Name): (r: (bool, World))
    ensures Step(w, r.1, n) && r.0 == Now(w).handles
    ensures n in w.fs.names ==>
      if r.0 && w.fs.names[n].pending then n !in r.1.fs.names && r.1.fs.vacated == w.fs.vacated[n := w.fs.names[n]]
      else n in r.1.fs.names && r.1.fs.names[n] == w.fs.names[n] && r.1.fs.vacated == w.fs.vacated
  {
    var fs := Arrived(w);
    var ok := Now(w).handles;
    (ok, Do(w, if ok && n in fs.names && fs.names[n].pending
               then Fs(Without(fs.names, n), fs.vacated[n := fs.names[n]]) else fs))
  }

  /** `write_all` of the whole stream; what ends up in the file may be something else. */
  function Write(w: World, n: Name, bytes: seq<byte>): (r: (bool, World))
    ensures Step(w, r.1, n) && r.1.fs.vacated == w.fs.vacated
    ensures n in w.fs.names ==>
      n in r.1.fs.names && r.1.fs.names[n] == w.fs.names[n].(bytes := r.1.fs.names[n].bytes, durable := false)
  {
    var fs := Arrived(w);
    var stored := if Now(w).stored.Some? then Now(w).stored.value else bytes;
    (Now(w).verdict == Proceed,
     Do(w, if n in fs.names then fs.(names := fs.names[n := fs.names[n].(bytes := stored, durable := false)]) else fs))
  }

  /** `sync_all`: contents and entry reach stable storage. */
  function SyncFile(w: World, n: Name): (r: (bool, World))
    ensures Step(w, r.1, n) && r.1.fs.vacated == w.fs.vacated
    ensures n in w.fs.names ==>
      n in r.1.fs.names && r.1.fs.names[n] == if r.0 then w.fs.names[n].(durable := true, settled := true) else w.fs.names[n]
  {
    var fs := Arrived(w);
    if Now(w).verdict != Proceed || n !in fs.names then (false, Do(w, fs))
    else (true, Do(w, fs.(names := fs.names[n := fs.names[n].(durable := true, settled := true)])))
  }

  /** `rename_by_handle` without replacement. */
  function Rename(w: World, from: Name, to: Name): (r: (Outcome, World))
    ensures r.1.fates == w.fates && r.1.clock == w.clock + 1 && r.1.trace == w.trace + [Arrived(w), r.1.fs]
    ensures r.0.Done? && from in w.fs.names ==>
      && from != to && to !in w.fs.names
      && r.1.fs == Fs(Without(Arrived(w).names, from)[to := w.fs.names[from].(settled := false)],
                      w.fs.vacated[from := w.fs.names[from]])
    ensures !r.0.Done? ==> r.1 == Idle(w)
    ensures r.0.Exists? ==> to in r.1.fs.names
  {
    var fs := Arrived(w);
    if Now(w).verdict != Proceed || from !in fs.names then (Failed, Do(w, fs))
    else if to in fs.names then (Exists, Do(w, fs))
    else (Done, Do(w, Fs(Without(fs.names, from)[to := fs.names[from].(settled := false)],
                         fs.vacated[from := fs.names[from]])))
  }

  // --- Crashes ---------------------------------------------------------------------------------------------

  function Contents(fs: Fs): map<Name, seq<byte>> { map n | n in fs.names :: fs.names[n].bytes }

  /** The process is killed: its handles close, and delete-pending files go. */
  function Killed(fs: Fs): map<Name, seq<byte>>
  {
    map n | n in fs.names && !fs.names[n].pending :: fs.names[n].bytes
  }

  /** What a power loss may leave: every settled entry that is not to be deleted, and of the others, removed ones
      included, any part; contents are reliable only where they were synced. */
  ghost predicate MaySurvive(fs: Fs, out: map<Name, seq<byte>>)
  {
    && (forall n :: n in fs.names && fs.names[n].settled && !fs.names[n].pending ==> n in out)
    && (forall n :: n in out ==> n in fs.names || n in fs.vacated)
    && (forall n :: n in out && n in fs.names && n !in fs.vacated && fs.names[n].durable ==> out[n] == fs.names[n].bytes)
  }

  /** What a completed transformation has to look like. */
  predicate Good(plan: Plan, original: seq<byte>, bytes: seq<byte>)
  {
    match plan.operation
    case Encrypt => plan.crypto.decrypt(bytes) == Some(original)
    case Decrypt => plan.crypto.decrypt(original) == Some(bytes)
  }

  /** Never neither: the source is intact, or the complete output is there. */
  predicate Kept(plan: Plan, original: seq<byte>, view: map<Name, seq<byte>>)
  {
    || (plan.input in view && view[plan.input] == original)
    || (plan.output in view && Good(plan, original, view[plan.output]))
  }

  ghost predicate CrashSafe(plan: Plan, original: seq<byte>, fs: Fs)
  {
    && Kept(plan, original, Contents(fs)) && Kept(plan, original, Killed(fs))
    && (forall out :: MaySurvive(fs, out) ==> Kept(plan, original, out))
    // and the output name never shows an incomplete output of this run
    && (plan.output in fs.names && fs.names[plan.output].kind == Output ==>
          && Good(plan, original, fs.names[plan.output].bytes)
          && forall out :: MaySurvive(fs, out) && plan.output in out ==> out[plan.output] == fs.names[plan.output].bytes)
  }

  /** Not published: the source is as it was, and the output name is free or somebody else's. */
  ghost predicate Untouched(plan: Plan, original: seq<byte>, fs: Fs)
  {
    && plan.input in fs.names && fs.names[plan.input] == File(Source, original, true, true, false)
    && (plan.output in fs.names ==> fs.names[plan.output].kind == Other)
    && plan.input !in fs.vacated && plan.output !in fs.vacated
  }

  /** The output name holds the complete output. */
  ghost predicate Published(plan: Plan, original: seq<byte>, fs: Fs)
  {
    && plan.output in fs.names && plan.output !in fs.vacated
    && var f := fs.names[plan.output];
       f.kind == Output && Good(plan, original, f.bytes) && f.durable && !f.pending
  }

  /** Published, and the source still complete. */
  ghost predicate Both(plan: Plan, original: seq<byte>, fs: Fs)
  {
    && Published(plan, original, fs)
    && plan.input in fs.names && fs.names[plan.input] == File(Source, original, true, true, false)
    && plan.input !in fs.vacated
  }

  /** Published for good. */
  ghost predicate Final(plan: Plan, original: seq<byte>, fs: Fs)
  {
    Published(plan, original, fs) && fs.names[plan.output].settled
  }

  ghost predicate Phase(plan: Plan, original: seq<byte>, fs: Fs)
  {
    Untouched(plan, original, fs) || Both(plan, original, fs) || Final(plan, original, fs)
  }

  /** Every phase survives every crash. */
  lemma PhaseIsSafe(plan: Plan, original: seq<byte>, fs: Fs)
    requires plan.input != plan.output && Phase(plan, original, fs)
    ensures CrashSafe(plan, original, fs)
  {
    hide Good;
    if !Untouched(plan, original, fs) {
      assert plan.output in Contents(fs) && Good(plan, original, Contents(fs)[plan.output]);
      assert plan.output in Killed(fs) && Good(plan, original, Killed(fs)[plan.output]);
    } else {
      assert plan.input in Contents(fs) && plan.input in Killed(fs);
    }
  }

  ghost predicate AllSafe(plan: Plan, original: seq<byte>, w: World)
  {
    forall i :: 0 <= i < |w.trace| ==> CrashSafe(plan, original, w.trace[i])
  }
}
