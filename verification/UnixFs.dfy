/** `cascade`'s descriptor-relative directory primitives, over a directory in which every call may fail and
    others may add entries at any time. */
module UnixFs {
  import opened Bytes

  type Name = string

  /** Entries of other programs are never ours to touch. A serial number tells the files of this run apart. */
  datatype Entry = Foreign(tag: nat) | Own(serial: nat, content: seq<byte>)

  datatype Verdict = Proceed | Fail | Unsupported

  /** What happens at one call: who else adds entries just before it, whether the kernel lets it succeed,
      what the random source yields, and how much of a failing write still reaches the file. */
  datatype Fate = Fate(arrivals: map<Name, nat>, verdict: Verdict, random: seq<byte>, partial: nat)

  datatype World = World(fates: nat -> Fate, entries: map<Name, Entry>, clock: nat)

  datatype Outcome = Done | Exists | Missing | NotSupported | Failed

  const TEMP_NAME_RANDOM_BYTES := 16
  const TEMP_NAME_ATTEMPTS := 128

  /** The files of this run. */
  function OwnEntries(w: World): (m: map<Name, Entry>)
    ensures forall n :: n in m ==> m[n].Own?
  {
    map n | n in w.entries && w.entries[n].Own? :: w.entries[n]
  }

  /** Nothing of anybody else's was removed or replaced, and time went on. */
  ghost predicate Untouched(w: World, w': World)
  {
    && w'.fates == w.fates && w.clock <= w'.clock
    && forall n :: n in w.entries && w.entries[n].Foreign? ==> n in w'.entries && w'.entries[n] == w.entries[n]
  }

  /** The directory as a call finds it. */
  function Arrive(w: World): (w': World)
    ensures Untouched(w, w') && OwnEntries(w') == OwnEntries(w)
    ensures forall n :: n in w.entries ==> n in w'.entries && w'.entries[n] == w.entries[n]
  {
    var newcomers := w.fates(w.clock).arrivals;
    w.(entries := (map n | n in newcomers :: Foreign(newcomers[n])) + w.entries, clock := w.clock + 1)
  }

  function VerdictAt(w: World): Verdict { w.fates(w.clock).verdict }

  lemma Onward(a: World, b: World, c: World)
    requires Untouched(a, b) && Untouched(b, c)
    ensures Untouched(a, c)
  {
  }

  lemma ForeignStays(w: World, w': World, name: Name)
    requires Untouched(w, w') && name in w.entries && name !in OwnEntries(w)
    ensures name in w'.entries && name !in OwnEntries(w')
  {
  }

  function Stat(w: World, name: Name): (r: (Outcome, World))
    ensures Untouched(w, r.1) && OwnEntries(r.1) == OwnEntries(w)
    ensures r.0.Done? || r.0.Missing? || r.0.Failed?
    ensures r.0.Done? ==> name in r.1.entries
    ensures r.0.Missing? ==> name !in r.1.entries
  {
    var w' := Arrive(w);
    (if VerdictAt(w) != Proceed then Failed else if name in w'.entries then Done else Missing, w')
  }

  function GetRandom(w: World, n: nat): (r: (Option<seq<byte>>, World))
    ensures Untouched(w, r.1) && OwnEntries(r.1) == OwnEntries(w)
    ensures r.0.Some? ==> |r.0.value| == n
  {
    var random := w.fates(w.clock).random;
    (if VerdictAt(w) != Proceed || |random| < n then None else Some(random[..n]), Arrive(w))
  }

  /** `openat` with `O_CREAT | O_EXCL`: the new file's serial number is the moment of its creation. */
  function OpenExclusive(w: World, name: Name): (r: (Outcome, World))
    ensures Untouched(w, r.1)
    ensures OwnEntries(r.1) == if r.0.Done? then OwnEntries(w)[name := Own(w.clock, [])] else OwnEntries(w)
    ensures r.0.Done? ==> name !in OwnEntries(w) && w.clock < r.1.clock
  {
    var w' := Arrive(w);
    if VerdictAt(w) != Proceed then (Failed, w')
    else if name in w'.entries then (Exists, w')
    else (Done, w'.(entries := w'.entries[name := Own(w.clock, [])]))
  }

  /** Calls on an open file or on the directory that change no entry: `fchmod`, `fsync`. */
  function Quiet(w: World): (r: (Outcome, World))
    ensures Untouched(w, r.1) && OwnEntries(r.1) == OwnEntries(w)
    ensures r.0.Done? <==> VerdictAt(w) == Proceed
  {
    (if VerdictAt(w) != Proceed then Failed else Done, Arrive(w))
  }

  /** `write_all` to an open file of this run; a failure may leave any part of the data in it. */
  function WriteAll(w: World, name: Name, data: seq<byte>): (r: (Outcome, World))
    ensures Untouched(w, r.1) && OwnEntries(r.1).Keys == OwnEntries(w).Keys
    ensures name in OwnEntries(w) ==>
      && OwnEntries(r.1) == OwnEntries(w)[name := OwnEntries(r.1)[name]]
      && OwnEntries(r.1)[name].serial == OwnEntries(w)[name].serial
      && (r.0.Done? ==> OwnEntries(r.1)[name].content == data)
  {
    var w' := Arrive(w);
    if name !in OwnEntries(w') then (Failed, w')
    else
      var e := w'.entries[name];
      if VerdictAt(w) != Proceed
      then (Failed, w'.(entries := w'.entries[name := e.(content := data[..Min(w.fates(w.clock).partial, |data|)])]))
      else (Done, w'.(entries := w'.entries[name := e.(content := data)]))
  }

  /** `renameat2` with `RENAME_NOREPLACE`. */
  function RenameNoReplace(w: World, from: Name, to: Name): (r: (Outcome, World))
    ensures from in OwnEntries(w) ==> Untouched(w, r.1)
    ensures from in OwnEntries(w) && r.0.Done? ==>
      to !in OwnEntries(w) && OwnEntries(r.1) == Without(OwnEntries(w), from)[to := OwnEntries(w)[from]]
    ensures !r.0.Done? ==> OwnEntries(r.1) == OwnEntries(w)
    ensures r.0.Exists? ==> to in r.1.entries
  {
    var w' := Arrive(w);
    if VerdictAt(w) == Unsupported then (NotSupported, w')
    else if VerdictAt(w) == Fail || from !in w'.entries then (Failed, w')
    else if to in w'.entries then (Exists, w')
    else (Done, w'.(entries := Without(w'.entries, from)[to := w'.entries[from]]))
  }

  function Link(w: World, from: Name, to: Name): (r: (Outcome, World))
    ensures Untouched(w, r.1)
    ensures from in OwnEntries(w) && r.0.Done? ==>
      to !in OwnEntries(w) && OwnEntries(r.1) == OwnEntries(w)[to := OwnEntries(w)[from]]
    ensures !r.0.Done? ==> OwnEntries(r.1) == OwnEntries(w)
    ensures r.0.Exists? ==> to in r.1.entries
  {
    var w' := Arrive(w);
    if VerdictAt(w) != Proceed || from !in w'.entries then (Failed, w')
    else if to in w'.entries then (Exists, w')
    else (Done, w'.(entries := w'.entries[to := w'.entries[from]]))
  }

  function Unlink(w: World, name: Name): (r: (Outcome, World))
    ensures r.1.clock == w.clock + 1
    ensures name in OwnEntries(w) ==>
      && Untouched(w, r.1) && (r.0.Done? <==> VerdictAt(w) == Proceed)
      && OwnEntries(r.1) == if r.0.Done? then Without(OwnEntries(w), name) else OwnEntries(w)
  {
    var w' := Arrive(w);
    if VerdictAt(w) != Proceed || name !in w'.entries then (Failed, w')
    else (Done, w'.(entries := Without(w'.entries, name)))
  }

  datatype CreateError = RandomFailed | CreateIo | CreateIoAndCleanupFailed(name: Name)

  /** `create_private_temp` with this many attempts left. */
  function CreatePrivateTemp(w: World, prefix: Name, attempts: nat): (Result<Name, CreateError>, World)
    decreases attempts
  {
    if attempts == 0 then (Err(CreateIo), w)
    else
      var (random, w1) := GetRandom(w, TEMP_NAME_RANDOM_BYTES);
      if random.None? then (Err(RandomFailed), w1)
      else
        var name := prefix + Hex(random.value);
        var (created, w2) := OpenExclusive(w1, name);
        if created.Exists? then CreatePrivateTemp(w2, prefix, attempts - 1)
        else if !created.Done? then (Err(CreateIo), w2)
        else
          var (secured, w3) := Quiet(w2);
          if secured.Done? then (Ok(name), w3)
          else
            var (cleaned, w4) := Unlink(w3, name);
            (Err(if cleaned.Done? then CreateIo else CreateIoAndCleanupFailed(name)), w4)
  }

  datatype PublishError =
    | BeforeInstall(present: bool, cleanup: Option<Name>)
    | InstalledButTemporaryRemains(name: Name)

  /** Explicit removal of a temporary: the name that remains, if it does. */
  function Cleanup(w: World, temp: Name): (Option<Name>, World)
  {
    var (r, w') := Unlink(w, temp);
    (if r.Done? then None else Some(temp), w')
  }

  function GiveUp(w: World, temp: Name, present: bool): (Result<(), PublishError>, World)
  {
    var (left, w') := Cleanup(w, temp);
    (Err(BeforeInstall(present, left)), w')
  }

  /** `publish_noclobber`. */
  function Publish(w: World, temp: Name, target: Name): (Result<(), PublishError>, World)
  {
    var (renamed, w1) := RenameNoReplace(w, temp, target);
    match renamed
    case Done => (Ok(()), w1)
    case Exists => GiveUp(w1, temp, true)
    case NotSupported =>
      var (linked, w2) := Link(w1, temp, target);
      if linked.Exists? then GiveUp(w2, temp, true)
      else if !linked.Done? then GiveUp(w2, temp, false)
      else
        var (left, w3) := Cleanup(w2, temp);
        (if left.None? then Ok(()) else Err(InstalledButTemporaryRemains(temp)), w3)
    case _ => GiveUp(w1, temp, false)
  }

  /** A temporary that was made is new and empty; one that was not leaves nothing, unless removing it failed. */
  ghost predicate Created(w: World, r: Result<Name, CreateError>, w': World)
  {
    match r
    case Ok(name) => Fresh(w, name, w')
    case Err(CreateIoAndCleanupFailed(name)) => Fresh(w, name, w')
    case Err(_) => OwnEntries(w') == OwnEntries(w)
  }

  ghost predicate Fresh(w: World, name: Name, w': World)
  {
    && name !in OwnEntries(w) && name in OwnEntries(w')
    && w.clock <= OwnEntries(w')[name].serial < w'.clock
    && OwnEntries(w') == OwnEntries(w)[name := Own(OwnEntries(w')[name].serial, [])]
  }

  lemma {:induction false} CreateEffect(w: World, prefix: Name, attempts: nat)
    ensures var (r, w') := CreatePrivateTemp(w, prefix, attempts);
            && Untouched(w, w') && Created(w, r, w')
            && (r.Ok? ==> prefix <= r.value)
            && (r.Err? && r.error.CreateIoAndCleanupFailed? ==> prefix <= r.error.name)
    decreases attempts
  {
    hide Arrive, OwnEntries, GetRandom, OpenExclusive, Quiet, Unlink;
    if attempts > 0 {
      var (random, w1) := GetRandom(w, TEMP_NAME_RANDOM_BYTES);
      if random.Some? {
        var name := prefix + Hex(random.value);
        var (created, w2) := OpenExclusive(w1, name);
        if created.Exists? {
          CreateEffect(w2, prefix, attempts - 1);
        } else if created.Done? {
          var w3 := Quiet(w2).1;
          assert Without(OwnEntries(w2), name) == OwnEntries(w);
        }
      }
    }
  }

  /** Both ways of publishing are one atomic "install if absent", except that removing the temporary may fail:
      the target becomes this file exactly when the call says so, and is never replaced. */
  ghost predicate Published(w: World, temp: Name, target: Name, r: Result<(), PublishError>, w': World)
    requires temp in OwnEntries(w)
  {
    var own, file := OwnEntries(w), OwnEntries(w)[temp];
    match r
    case Ok(_) => OwnEntries(w') == Without(own, temp)[target := file]
    case Err(InstalledButTemporaryRemains(t)) => t == temp && OwnEntries(w') == own[target := file]
    case Err(BeforeInstall(present, left)) =>
      && (present ==> target in w'.entries)
      && (left.Some? ==> left.value == temp)
      && OwnEntries(w') == if left.None? then Without(own, temp) else own
  }

  lemma PublishEffect(w: World, temp: Name, target: Name)
    requires temp in OwnEntries(w) && target !in OwnEntries(w) && temp != target
    ensures Untouched(w, Publish(w, temp, target).1)
    ensures Published(w, temp, target, Publish(w, temp, target).0, Publish(w, temp, target).1)
  {
    hide Arrive, OwnEntries, RenameNoReplace, Link, Unlink;
    var (renamed, w1) := RenameNoReplace(w, temp, target);
    if renamed.Exists? {
      ForeignStays(w1, Unlink(w1, temp).1, target);
    } else if renamed.NotSupported? {
      var (linked, w2) := Link(w1, temp, target);
      if linked.Exists? {
        ForeignStays(w2, Unlink(w2, temp).1, target);
      } else if linked.Done? {
        assert Without(OwnEntries(w2), temp) == Without(OwnEntries(w), temp)[target := OwnEntries(w)[temp]];
      }
    }
  }
}
