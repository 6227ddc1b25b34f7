/** The imperative form of `cascade`'s directory primitives and key generation. */
module KeyStoreProgram {
  import opened Bytes
  import opened UnixFs
  import opened KeyStore

  /** The directory behind the retained descriptor. */
  class BoundDir {
    const fates: nat -> Fate
    var entries: map<Name, Entry>
    var clock: nat

    constructor (fates: nat -> Fate, entries: map<Name, Entry>)
      ensures View() == World(fates, entries, 0)
    {
      this.fates, this.entries, clock := fates, entries, 0;
    }

    function View(): World
      reads this
    {
      World(fates, entries, clock)
    }

    method Wait() returns (verdict: Verdict)
      modifies this
      ensures verdict == VerdictAt(old(View())) && View() == Arrive(old(View()))
    {
      verdict := fates(clock).verdict;
      var newcomers := fates(clock).arrivals;
      entries := (map n | n in newcomers :: Foreign(newcomers[n])) + entries;
      clock := clock + 1;
    }

    method StatNoFollow(name: Name) returns (r: Outcome)
      modifies this
      ensures (r, View()) == Stat(old(View()), name)
    {
      var verdict := Wait();
      return if verdict != Proceed then Failed else if name in entries then Done else Missing;
    }

    method FillRandom(n: nat) returns (r: Option<seq<byte>>)
      modifies this
      ensures (r, View()) == GetRandom(old(View()), n)
    {
      var random := fates(clock).random;
      var verdict := Wait();
      return if verdict != Proceed || |random| < n then None else Some(random[..n]);
    }

    method OpenNew(name: Name) returns (r: Outcome)
      modifies this
      ensures (r, View()) == OpenExclusive(old(View()), name)
    {
      var now := clock;
      var verdict := Wait();
      if verdict != Proceed { return Failed; }
      if name in entries { return Exists; }
      entries := entries[name := Own(now, [])];
      return Done;
    }

    /** `fchmod` or `fsync`. */
    method Settle() returns (r: Outcome)
      modifies this
      ensures (r, View()) == Quiet(old(View()))
    {
      var verdict := Wait();
      return if verdict != Proceed then Failed else Done;
    }

    method Write(name: Name, data: seq<byte>) returns (r: Outcome)
      modifies this
      ensures (r, View()) == WriteAll(old(View()), name, data)
    {
      var partial := fates(clock).partial;
      var verdict := Wait();
      if name !in entries || entries[name].Foreign? { return Failed; }
      if verdict != Proceed {
        entries := entries[name := entries[name].(content := data[..Min(partial, |data|)])];
        return Failed;
      }
      entries := entries[name := entries[name].(content := data)];
      return Done;
    }

    method TryRenameNoReplace(from: Name, to: Name) returns (r: Outcome)
      modifies this
      ensures (r, View()) == RenameNoReplace(old(View()), from, to)
    {
      var verdict := Wait();
      if verdict == Unsupported { return NotSupported; }
      if verdict == Fail || from !in entries { return Failed; }
      if to in entries { return Exists; }
      entries := Without(entries, from)[to := entries[from]];
      return Done;
    }

    method LinkAt(from: Name, to: Name) returns (r: Outcome)
      modifies this
      ensures (r, View()) == Link(old(View()), from, to)
    {
      var verdict := Wait();
      if verdict != Proceed || from !in entries { return Failed; }
      if to in entries { return Exists; }
      entries := entries[to := entries[from]];
      return Done;
    }

    method UnlinkAt(name: Name) returns (r: Outcome)
      modifies this
      ensures (r, View()) == Unlink(old(View()), name)
    {
      var verdict := Wait();
      if verdict != Proceed || name !in entries { return Failed; }
      entries := Without(entries, name);
      return Done;
    }

    method CreateTemp(prefix: Name) returns (r: Result<Name, CreateError>)
      modifies this
      ensures (r, View()) == CreatePrivateTemp(old(View()), prefix, TEMP_NAME_ATTEMPTS)
    {
      hide GetRandom, OpenExclusive, Quiet, Unlink;
      for i := 0 to TEMP_NAME_ATTEMPTS
        invariant CreatePrivateTemp(old(View()), prefix, TEMP_NAME_ATTEMPTS)
               == CreatePrivateTemp(View(), prefix, TEMP_NAME_ATTEMPTS - i)
      {
        var random := FillRandom(TEMP_NAME_RANDOM_BYTES);
        if random.None? { return Err(RandomFailed); }
        var name := prefix + Hex(random.value);
        var created := OpenNew(name);
        if !created.Exists? {
          if !created.Done? { return Err(CreateIo); }
          var secured := Settle();
          if !secured.Done? {
            var cleaned := UnlinkAt(name);
            return Err(if cleaned.Done? then CreateIo else CreateIoAndCleanupFailed(name));
          }
          return Ok(name);
        }
      }
      return Err(CreateIo);
    }

    method CleanupTemp(temp: Name) returns (left: Option<Name>)
      modifies this
      ensures (left, View()) == Cleanup(old(View()), temp)
    {
      var r := UnlinkAt(temp);
      return if r.Done? then None else Some(temp);
    }

    method BeforeInstallFailure(temp: Name, present: bool) returns (r: Result<(), PublishError>)
      modifies this
      ensures (r, View()) == GiveUp(old(View()), temp, present)
    {
      var left := CleanupTemp(temp);
      return Err(BeforeInstall(present, left));
    }

    /** `publish_noclobber`: rename without replacing, or link and unlink where that is unsupported. */
    method PublishNoclobber(temp: Name, target: Name) returns (r: Result<(), PublishError>)
      modifies this
      ensures (r, View()) == Publish(old(View()), temp, target)
    {
      hide RenameNoReplace, Link, Unlink;
      var renamed := TryRenameNoReplace(temp, target);
      if renamed.Done? { return Ok(()); }
      if renamed.Exists? { r := BeforeInstallFailure(temp, true); return; }
      if !renamed.NotSupported? { r := BeforeInstallFailure(temp, false); return; }
      var linked := LinkAt(temp, target);
      if linked.Exists? { r := BeforeInstallFailure(temp, true); return; }
      if !linked.Done? { r := BeforeInstallFailure(temp, false); return; }
      var left := CleanupTemp(temp);
      return if left.None? then Ok(()) else Err(InstalledButTemporaryRemains(temp));
    }
  }

  /** `cleanup_temporaries`, and likewise the unlinking loop of `rollback_created`. */
  method RemoveAll(d: BoundDir, names: seq<Name>) returns (firstError: Option<Name>)
    modifies d
    ensures (firstError, d.View()) == UnlinkAll(old(d.View()), names)
  {
    hide Unlink;
    firstError := None;
    for i := 0 to |names|
      invariant UnlinkAll(old(d.View()), names)
             == (Or(firstError, UnlinkAll(d.View(), names[i..]).0), UnlinkAll(d.View(), names[i..]).1)
    {
      var error := d.CleanupTemp(names[i]);
      if firstError.None? { firstError := error; }
      assert names[i..][1..] == names[i + 1..];
    }
  }

  method RollbackCreated(d: BoundDir, count: nat) returns (r: Option<Call>)
    requires count <= 4
    modifies d
    ensures (r, d.View()) == Rollback(old(d.View()), count)
  {
    hide UnlinkAll, Quiet;
    var bad := RemoveAll(d, KeyNames(count));
    if bad.Some? { return Some(UnlinkCall); }
    if count == 0 { return None; }
    var synced := d.Settle();
    return if synced.Done? then None else Some(SyncCall);
  }

  method AbandonAll(d: BoundDir, temps: seq<Staged>, current: Option<Name>, primary: AppError) returns (e: AppError)
    modifies d
    ensures (Err(e), d.View()) == Abandon<Staged>(old(d.View()), temps, current, primary)
  {
    hide UnlinkAll;
    var pending := RemoveAll(d, Names(temps));
    var left := Or(current, pending);
    return if left.Some? then KeyTemporaryCleanupFailed(left.value) else primary;
  }

  /** One iteration of the staging loop. */
  method StageKey(d: BoundDir, temps: seq<Staged>) returns (r: Result<Staged, AppError>)
    requires |temps| < 4
    modifies d
    ensures (r, d.View()) == StageOne(old(d.View()), temps)
  {
    hide Abandon, GetRandom, CreatePrivateTemp, WriteAll, Quiet, Unlink;
    var e;
    var key := d.FillRandom(KEY_LENS[|temps|]);
    if key.None? {
      e := AbandonAll(d, temps, None, Random);
      return Err(e);
    }
    var made := d.CreateTemp(TEMP_PREFIX);
    if made.Err? {
      var current := if made.error.CreateIoAndCleanupFailed? then Some(made.error.name) else None;
      e := AbandonAll(d, temps, current, if made.error.RandomFailed? then Random else KeyGeneration);
      return Err(e);
    }
    var written := d.Write(made.value, key.value);
    if written.Done? { written := d.Settle(); }
    if !written.Done? {
      var current := d.CleanupTemp(made.value);
      e := AbandonAll(d, temps, current, KeyGeneration);
      return Err(e);
    }
    return Ok(Staged(made.value, key.value));
  }

  method StageAll(d: BoundDir) returns (r: Result<seq<Staged>, AppError>)
    modifies d
    ensures (r, d.View()) == Stage(old(d.View()), [])
    ensures r.Ok? ==> |r.value| == 4
  {
    hide StageOne;
    var temps: seq<Staged> := [];
    while |temps| < 4
      invariant |temps| <= 4 && Stage(old(d.View()), []) == Stage(d.View(), temps)
      decreases 4 - |temps|
    {
      var one := StageKey(d, temps);
      if one.Err? { return Err(one.error); }
      temps := temps + [one.value];
    }
    return Ok(temps);
  }

  /** The publishing loop. */
  method PublishKeys(d: BoundDir, temps: seq<Staged>) returns (r: Result<(), AppError>)
    requires |temps| == 4
    modifies d
    ensures (r, d.View()) == PublishAll(old(d.View()), temps, 0)
  {
    hide Publish, UnlinkAll, Rollback, Quiet;
    var created := 0;
    while created < 4
      invariant 0 <= created <= 4 && PublishAll(old(d.View()), temps, 0) == PublishAll(d.View(), temps, created)
    {
      var done := d.PublishNoclobber(temps[created].name, KeyName(created));
      match done {
        case Ok(_) =>
          created := created + 1;
        case Err(BeforeInstall(present, cleanup)) =>
          var pending := RemoveAll(d, Names(temps[created + 1..]));
          var left := Or(cleanup, pending);
          var rolled := RollbackCreated(d, created);
          return Err(if left.Some? then KeyTemporaryCleanupFailed(left.value)
                     else if rolled.Some? then KeyRollbackIncomplete(rolled.value)
                     else if present then KeyExists(created) else KeyGeneration);
        case Err(InstalledButTemporaryRemains(name)) =>
          var more := RemoveAll(d, Names(temps[created + 1..]));
          return Err(if more.Some? then KeyTemporaryCleanupFailed(more.value)
                     else KeyInstalledButTemporaryRemains(created, name));
      }
    }
    var synced := d.Settle();
    return if synced.Done? then Ok(()) else Err(KeysInstalledButNotSynced);
  }

  /** `generate_all`, with what its result means for the directory. */
  method GenerateKeys(d: BoundDir) returns (r: Result<(), AppError>)
    modifies d
    ensures (r, d.View()) == GenerateAll(old(d.View()))
    ensures OwnEntries(old(d.View())) == map[] ==>
      && Explains(OwnEntries(d.View()), r)
      && forall n :: n in old(d.entries) ==> n in d.entries && d.entries[n] == old(d.entries)[n]
  {
    hide Stat, Stage, PublishAll, Explains, OwnEntries;
    ghost var start := d.View();
    if OwnEntries(start) == map[] {
      GenerateAllExplained(start);
      AllForeign(start);
    }
    for i := 0 to 4
      invariant Preflight(start, 0) == Preflight(d.View(), i)
    {
      var found := d.StatNoFollow(KeyName(i));
      if found.Done? { return Err(KeyExists(i)); }
      if !found.Missing? { return Err(Metadata(i)); }
    }
    var staged := StageAll(d);
    if staged.Err? { return Err(staged.error); }
    r := PublishKeys(d, staged.value);
  }

  lemma AllForeign(w: World)
    requires OwnEntries(w) == map[]
    ensures forall n :: n in w.entries ==> w.entries[n].Foreign?
  {
    assert forall n :: n in w.entries && w.entries[n].Own? ==> n in OwnEntries(w);
  }
}
