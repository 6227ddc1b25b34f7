/** `cascade keygen`: four keys staged, published one by one, and rolled back on failure, in a directory where
    every call, cleanups included, may fail. */
module KeyStore {
  import opened Bytes
  import opened UnixFs

  const KEY_NAMES: seq<Name> := ["aes.key", "ser.key", "cha.key", "thr.key"]
  const KEY_LENS: seq<nat> := [32, 32, 32, 128]

  /** The file name of one key, and of the first `count` of them. */
  function KeyName(i: nat): Name
    requires i < 4
  {
    KEY_NAMES[i]
  }

  function KeyNames(count: nat): (s: seq<Name>)
    requires count <= 4
    ensures |s| == count && forall k :: 0 <= k < count ==> s[k] == KeyName(k)
  {
    KEY_NAMES[..count]
  }

  const TEMP_PREFIX: Name := ".cascade-key-"

  /** Which call a rollback failed in. */
  datatype Call = UnlinkCall | SyncCall

  datatype AppError =
    | KeyExists(key: nat)
    | Metadata(key: nat)
    | Random
    | KeyGeneration
    | KeyTemporaryCleanupFailed(name: Name)
    | KeyInstalledButTemporaryRemains(key: nat, name: Name)
    | KeyRollbackIncomplete(source: Call)
    | KeysInstalledButNotSynced

  /** A complete, synced temporary and the key it holds. */
  datatype Staged = Staged(name: Name, key: seq<byte>)

  function Names(temps: seq<Staged>): (s: seq<Name>)
    ensures |s| == |temps| && forall k :: 0 <= k < |s| ==> s[k] == temps[k].name
  {
    seq(|temps|, k requires 0 <= k < |temps| => temps[k].name)
  }

  function Or<T>(a: Option<T>, b: Option<T>): Option<T> { if a.Some? then a else b }

  /** Every name is tried; the first that could not be removed is reported. */
  function UnlinkAll(w: World, names: seq<Name>): (Option<Name>, World)
    decreases names
  {
    if names == [] then (None, w)
    else
      var (first, w1) := Cleanup(w, names[0]);
      var (rest, w2) := UnlinkAll(w1, names[1..]);
      (Or(first, rest), w2)
  }

  function Preflight(w: World, i: nat): (Result<(), AppError>, World)
    requires i <= 4
    decreases 4 - i
  {
    if i == 4 then (Ok(()), w)
    else
      var (found, w1) := Stat(w, KeyName(i));
      match found
      case Done => (Err(KeyExists(i)), w1)
      case Missing => Preflight(w1, i + 1)
      case _ => (Err(Metadata(i)), w1)
  }

  /** Removes what has been staged; the current temporary may already be known to remain. */
  function Abandon<T>(w: World, temps: seq<Staged>, current: Option<Name>, primary: AppError): (Result<T, AppError>, World)
  {
    var (pending, w') := UnlinkAll(w, Names(temps));
    var left := Or(current, pending);
    (Err(if left.Some? then KeyTemporaryCleanupFailed(left.value) else primary), w')
  }

  /** Writes and syncs a key into its new temporary. */
  function Fill(w: World, temps: seq<Staged>, name: Name, key: seq<byte>): (Result<Staged, AppError>, World)
  {
    var (written, w1) := WriteAll(w, name, key);
    var (synced, w2) := if written.Done? then Quiet(w1) else (written, w1);
    if synced.Done? then (Ok(Staged(name, key)), w2)
    else
      var (current, w3) := Cleanup(w2, name);
      Abandon(w3, temps, current, KeyGeneration)
  }

  /** One more key: drawn, created, written, synced; or everything staged so far is abandoned. */
  function StageOne(w: World, temps: seq<Staged>): (Result<Staged, AppError>, World)
    requires |temps| < 4
  {
    var (key, w1) := GetRandom(w, KEY_LENS[|temps|]);
    if key.None? then Abandon(w1, temps, None, Random)
    else
      var (made, w2) := CreatePrivateTemp(w1, TEMP_PREFIX, TEMP_NAME_ATTEMPTS);
      match made
      case Err(CreateIoAndCleanupFailed(name)) => Abandon(w2, temps, Some(name), KeyGeneration)
      case Err(e) => Abandon(w2, temps, None, if e.RandomFailed? then Random else KeyGeneration)
      case Ok(name) => Fill(w2, temps, name, key.value)
  }

  function Stage(w: World, temps: seq<Staged>): (r: (Result<seq<Staged>, AppError>, World))
    requires |temps| <= 4
    ensures r.0.Ok? ==> |r.0.value| == 4
    decreases 4 - |temps|
  {
    if |temps| == 4 then (Ok(temps), w)
    else
      var (one, w') := StageOne(w, temps);
      if one.Err? then (Err(one.error), w') else Stage(w', temps + [one.value])
  }

  /** Removes the first `count` keys; the directory is synced only if all of them went. */
  function Rollback(w: World, count: nat): (Option<Call>, World)
    requires count <= 4
  {
    var (bad, w1) := UnlinkAll(w, KeyNames(count));
    if bad.Some? then (Some(UnlinkCall), w1)
    else if count == 0 then (None, w1)
    else
      var (synced, w2) := Quiet(w1);
      (if synced.Done? then None else Some(SyncCall), w2)
  }

  /** The first `count` keys are installed and the next could not be: remove the rest and roll back. */
  function Withdraw(w: World, temps: seq<Staged>, count: nat, present: bool, cleanup: Option<Name>)
    : (Result<(), AppError>, World)
    requires count < |temps| == 4
  {
    var (pending, w1) := UnlinkAll(w, Names(temps[count + 1..]));
    var left := Or(cleanup, pending);
    var (rolled, w2) := Rollback(w1, count);
    (Err(if left.Some? then KeyTemporaryCleanupFailed(left.value)
         else if rolled.Some? then KeyRollbackIncomplete(rolled.value)
         else if present then KeyExists(count) else KeyGeneration), w2)
  }

  /** A key is installed but its temporary could not be removed: stop there, without rolling back. */
  function Halt(w: World, temps: seq<Staged>, count: nat, name: Name): (Result<(), AppError>, World)
    requires count < |temps| == 4
  {
    var (more, w') := UnlinkAll(w, Names(temps[count + 1..]));
    (Err(if more.Some? then KeyTemporaryCleanupFailed(more.value) else KeyInstalledButTemporaryRemains(count, name)), w')
  }

  function PublishAll(w: World, temps: seq<Staged>, i: nat): (Result<(), AppError>, World)
    requires i <= |temps| == 4
    decreases 4 - i
  {
    if i == 4 then
      var (synced, w1) := Quiet(w);
      (if synced.Done? then Ok(()) else Err(KeysInstalledButNotSynced), w1)
    else
      var (done, w1) := Publish(w, temps[i].name, KeyName(i));
      match done
      case Ok(_) => PublishAll(w1, temps, i + 1)
      case Err(BeforeInstall(present, cleanup)) => Withdraw(w1, temps, i, present, cleanup)
      case Err(InstalledButTemporaryRemains(name)) => Halt(w1, temps, i, name)
  }

  /** `generate_all`. */
  function GenerateAll(w: World): (Result<(), AppError>, World)
  {
    var (clear, w1) := Preflight(w, 0);
    if clear.Err? then (clear, w1)
    else
      var (staged, w2) := Stage(w1, []);
      if staged.Err? then (Err(staged.error), w2)
      else PublishAll(w2, staged.value, 0)
  }

  // --- What is left behind ---------------------------------------------------------------------------------

  ghost predicate Distinct(names: seq<Name>)
  {
    forall j, k :: 0 <= j < k < |names| ==> names[j] != names[k]
  }

  /** `after` is `before` less some of `names`. */
  ghost predicate Shrunk(before: map<Name, Entry>, after: map<Name, Entry>, names: seq<Name>)
  {
    && (forall n :: n in after ==> n in before && after[n] == before[n])
    && (forall n :: n in before && n !in names ==> n in after)
  }

  /** Whether the call after `k` more succeeds. */
  predicate WorksAfter(w: World, k: nat) { w.fates(w.clock + k).verdict == Proceed }

  lemma {:induction false} UnlinkAllEffect(w: World, names: seq<Name>)
    requires Distinct(names) && forall n :: n in names ==> n in OwnEntries(w)
    ensures var (bad, w') := UnlinkAll(w, names);
            && Untouched(w, w') && Shrunk(OwnEntries(w), OwnEntries(w'), names)
            && (bad.None? ==> forall n :: n in names ==> n !in OwnEntries(w'))
            && (bad.Some? ==> bad.value in names && bad.value in OwnEntries(w'))
    decreases names
  {
    hide OwnEntries, Unlink;
    if names != [] {
      var w1 := Cleanup(w, names[0]).1;
      UnlinkAllEffect(w1, names[1..]);
    }
  }

  /** Exactly the names whose own unlink failed remain, in the calls that the loop makes. */
  lemma {:induction false} UnlinkAllExactly(w: World, names: seq<Name>)
    requires Distinct(names) && forall n :: n in names ==> n in OwnEntries(w)
    ensures var (bad, w') := UnlinkAll(w, names);
            && w'.fates == w.fates && w'.clock == w.clock + |names|
            && (forall k :: 0 <= k < |names| ==> (names[k] in OwnEntries(w') <==> !WorksAfter(w, k)))
            && (bad.None? <==> forall k :: 0 <= k < |names| ==> WorksAfter(w, k))
    decreases names
  {
    hide OwnEntries, Unlink;
    if names != [] {
      var (first, w1) := Cleanup(w, names[0]);
      UnlinkAllExactly(w1, names[1..]);
      UnlinkAllEffect(w1, names[1..]);
      var (rest, w') := UnlinkAll(w1, names[1..]);
      assert names[0] !in names[1..];
      forall k | 1 <= k < |names|
        ensures WorksAfter(w, k) == WorksAfter(w1, k - 1) && names[k] == names[1..][k - 1]
      {
      }
      assert forall k :: 0 <= k < |names[1..]| ==> WorksAfter(w1, k) == WorksAfter(w, k + 1);
    }
  }

  /** Where the files are after `i` publications: published ones under their key names, the rest still staged. */
  function Locations(temps: seq<Staged>, i: nat): (s: seq<Name>)
    requires i <= |temps| <= 4
    ensures |s| == |temps|
    ensures forall k :: 0 <= k < |temps| ==> s[k] == if k < i then KeyName(k) else temps[k].name
  {
    KeyNames(i) + Names(temps)[i..]
  }

  /** Exactly the expected files of this run exist, each under its expected name with its complete key. */
  ghost predicate Held(own: map<Name, Entry>, temps: seq<Staged>, i: nat)
    requires i <= |temps| <= 4
  {
    && Distinct(Names(temps)) && (forall k :: 0 <= k < |temps| ==> IsTemp(temps[k].name))
    && (forall n :: n in own <==> n in Locations(temps, i))
    && (forall k :: 0 <= k < |temps| ==> |temps[k].key| == KEY_LENS[k])
    && (forall k :: 0 <= k < |temps| ==>
          own[Locations(temps, i)[k]].Own? && own[Locations(temps, i)[k]].content == temps[k].key)
  }

  predicate IsTemp(n: Name) { TEMP_PREFIX <= n }

  lemma KeyNamesAreNotTemps()
    ensures forall k :: 0 <= k < 4 ==> !IsTemp(KeyName(k))
    ensures forall j, k :: 0 <= j < k < 4 ==> KeyName(j) != KeyName(k)
  {
    assert TEMP_PREFIX[0] == '.';
    assert KEY_NAMES[0][0] == 'a' && KEY_NAMES[1][0] == 's' && KEY_NAMES[2][0] == 'c' && KEY_NAMES[3][0] == 't';
  }

  /** What a failed staging leaves: nothing, or temporaries, one of which it names. */
  ghost predicate StageFailed(own: map<Name, Entry>, e: AppError)
  {
    match e
    case KeyTemporaryCleanupFailed(name) => name in own && forall n :: n in own ==> IsTemp(n)
    case _ => (e.Random? || e.KeyGeneration?) && own == map[]
  }

  lemma AbandonEffect<T>(w: World, temps: seq<Staged>, current: Option<Name>, primary: AppError)
    requires |temps| <= 4 && Distinct(Names(temps)) && (primary.Random? || primary.KeyGeneration?)
    requires forall k :: 0 <= k < |temps| ==> IsTemp(temps[k].name)
    requires forall n :: n in OwnEntries(w) <==> n in Names(temps) || current == Some(n)
    requires current.Some? ==> IsTemp(current.value) && current.value !in Names(temps)
    ensures var (r, w') := Abandon<T>(w, temps, current, primary);
            Untouched(w, w') && r.Err? && StageFailed(OwnEntries(w'), r.error)
  {
    hide OwnEntries, Untouched;
    UnlinkAllEffect(w, Names(temps));
  }

  lemma HeldExtends(own: map<Name, Entry>, own': map<Name, Entry>, temps: seq<Staged>, t: Staged)
    requires |temps| < 4 && Held(own, temps, 0) && IsTemp(t.name) && t.name !in own && |t.key| == KEY_LENS[|temps|]
    requires t.name in own' && own'[t.name].Own? && own'[t.name].content == t.key && own' == own[t.name := own'[t.name]]
    ensures Held(own', temps + [t], 0)
  {
    hide IsTemp, Locations;
    var all := temps + [t];
    StagedLocations(temps);
    StagedLocations(all);
    assert Names(all) == Names(temps) + [t.name];
    forall k | 0 <= k < |temps|
      ensures Names(all)[k] in own && Names(all)[k] != t.name
      ensures own'[Names(all)[k]] == own[Names(temps)[k]]
    {
      assert Names(temps)[k] in Names(temps);
    }
  }

  lemma StagedLocations(temps: seq<Staged>)
    requires |temps| <= 4
    ensures Locations(temps, 0) == Names(temps)
  {
  }

  lemma HeldStaged(own: map<Name, Entry>, temps: seq<Staged>)
    requires |temps| <= 4 && Held(own, temps, 0)
    ensures Distinct(Names(temps)) && (forall k :: 0 <= k < |temps| ==> IsTemp(temps[k].name))
    ensures forall n :: n in own <==> n in Names(temps)
  {
    StagedLocations(temps);
  }

  lemma FillEffect(w: World, temps: seq<Staged>, own: map<Name, Entry>, name: Name, key: seq<byte>)
    requires |temps| < 4 && Held(own, temps, 0) && IsTemp(name) && name !in own && |key| == KEY_LENS[|temps|]
    requires name in OwnEntries(w) && OwnEntries(w) == own[name := OwnEntries(w)[name]]
    ensures var (r, w') := Fill(w, temps, name, key);
            && Untouched(w, w')
            && match r
               case Ok(one) => Held(OwnEntries(w'), temps + [one], 0)
               case Err(e) => StageFailed(OwnEntries(w'), e)
  {
    hide OwnEntries, Untouched, WriteAll, Quiet, Unlink, Abandon, StageFailed, Held, IsTemp;
    HeldStaged(own, temps);
    var (written, w1) := WriteAll(w, name, key);
    if written.Done? { Onward(w, w1, Quiet(w1).1); }
    var (synced, w2) := if written.Done? then Quiet(w1) else (written, w1);
    if synced.Done? {
      HeldExtends(own, OwnEntries(w2), temps, Staged(name, key));
    } else {
      var (current, w3) := Cleanup(w2, name);
      Onward(w, w2, w3);
      AbandonEffect<Staged>(w3, temps, current, KeyGeneration);
      Onward(w, w3, Abandon<Staged>(w3, temps, current, KeyGeneration).1);
    }
  }

  lemma StageOneEffect(w: World, temps: seq<Staged>)
    requires |temps| < 4 && Held(OwnEntries(w), temps, 0)
    ensures var (r, w') := StageOne(w, temps);
            && Untouched(w, w')
            && match r
               case Ok(one) => Held(OwnEntries(w'), temps + [one], 0)
               case Err(e) => StageFailed(OwnEntries(w'), e)
  {
    hide OwnEntries, Untouched, GetRandom, CreatePrivateTemp, Abandon, Fill, StageFailed, Held;
    HeldStaged(OwnEntries(w), temps);
    var (key, w1) := GetRandom(w, KEY_LENS[|temps|]);
    var end := StageOne(w, temps).1;
    if key.None? {
      AbandonEffect<Staged>(w1, temps, None, Random);
      Onward(w, w1, end);
    } else {
      var (made, w2) := CreatePrivateTemp(w1, TEMP_PREFIX, TEMP_NAME_ATTEMPTS);
      CreateEffect(w1, TEMP_PREFIX, TEMP_NAME_ATTEMPTS);
      Onward(w, w1, w2);
      match made {
        case Err(CreateIoAndCleanupFailed(name)) =>
          AbandonEffect<Staged>(w2, temps, Some(name), KeyGeneration);
          Onward(w, w2, end);
        case Err(e) =>
          AbandonEffect<Staged>(w2, temps, None, if e.RandomFailed? then Random else KeyGeneration);
          Onward(w, w2, end);
        case Ok(name) =>
          FillEffect(w2, temps, OwnEntries(w), name, key.value);
          Onward(w, w2, end);
      }
    }
  }

  lemma {:induction false} StageEffect(w: World, temps: seq<Staged>)
    requires |temps| <= 4 && Held(OwnEntries(w), temps, 0)
    ensures var (r, w') := Stage(w, temps);
            && Untouched(w, w')
            && match r
               case Ok(all) => Held(OwnEntries(w'), all, 0)
               case Err(e) => StageFailed(OwnEntries(w'), e)
    decreases 4 - |temps|
  {
    hide OwnEntries, StageOne, Held, StageFailed;
    if |temps| < 4 {
      StageOneEffect(w, temps);
      var (one, w') := StageOne(w, temps);
      if one.Ok? { StageEffect(w', temps + [one.value]); }
    }
  }

  lemma RollbackEffect(w: World, count: nat)
    requires count <= 4 && forall n :: n in KeyNames(count) ==> n in OwnEntries(w)
    ensures var (bad, w') := Rollback(w, count);
            && Untouched(w, w') && Shrunk(OwnEntries(w), OwnEntries(w'), KeyNames(count))
            && (bad == Some(UnlinkCall) <==> exists n :: n in KeyNames(count) && n in OwnEntries(w'))
  {
    hide OwnEntries, Untouched, UnlinkAll, Quiet;
    KeyNamesAreNotTemps();
    UnlinkAllEffect(w, KeyNames(count));
    var w1 := UnlinkAll(w, KeyNames(count)).1;
    Onward(w, w1, Quiet(w1).1);
  }

  /** The files still to be published, and the keys already there. */
  lemma HeldParts(own: map<Name, Entry>, temps: seq<Staged>, i: nat)
    requires i < |temps| == 4 && Held(own, temps, i)
    ensures temps[i].name in own && IsTemp(temps[i].name)
    ensures own[temps[i].name].Own? && own[temps[i].name].content == temps[i].key
    ensures forall k :: i <= k < 4 ==> KeyName(k) !in own
    ensures forall k :: 0 <= k < i ==> KeyName(k) in own && own[KeyName(k)].Own? && own[KeyName(k)].content == temps[k].key
    ensures forall k :: 0 <= k < 4 ==> |temps[k].key| == KEY_LENS[k]
    ensures forall k :: i < k < 4 ==> temps[k].name in own && temps[k].name != temps[i].name
  {
    hide IsTemp, KeyName, KeyNames, Locations;
    KeyNamesAreNotTemps();
    var all := Locations(temps, i);
    assert forall k :: 0 <= k < 4 ==> all[k] in all;
    assert all[i] == temps[i].name;
    forall j, k | i <= j < 4 && 0 <= k < 4
      ensures KeyName(j) != all[k]
    {
    }
    assert forall k :: 0 <= k < i ==> all[k] == KeyName(k);
    assert forall k :: i < k < 4 ==> Names(temps)[i] != Names(temps)[k];
  }

  lemma HeldMoves(own: map<Name, Entry>, own': map<Name, Entry>, temps: seq<Staged>, i: nat)
    requires i < |temps| == 4 && Held(own, temps, i)
    requires temps[i].name in own && own' == Without(own, temps[i].name)[KeyName(i) := own[temps[i].name]]
    ensures Held(own', temps, i + 1)
  {
    hide IsTemp, KeyName, KeyNames, Locations;
    HeldParts(own, temps, i);
    KeyNamesAreNotTemps();
    var was, now := Locations(temps, i), Locations(temps, i + 1);
    assert now == was[i := KeyName(i)];
    forall k | 0 <= k < 4 && k != i
      ensures was[k] in own && was[k] != temps[i].name && now[k] == was[k] && was[k] != KeyName(i)
    {
      assert was[k] in was;
    }
  }

  /** What each result says about the files of this run that are left in the directory. */
  ghost predicate Explains(own: map<Name, Entry>, r: Result<(), AppError>)
  {
    match r
    case Ok(_) => Complete(own)
    case Err(KeysInstalledButNotSynced) => Complete(own)
    case Err(KeyTemporaryCleanupFailed(name)) =>
      name in own && IsTemp(name) && Whole(own)
    case Err(KeyInstalledButTemporaryRemains(i, name)) =>
      // the first i + 1 keys, and a second name for the last of them
      i < 4 && IsTemp(name) && name in own && KeyName(i) in own && own[name] == own[KeyName(i)] && Whole(own)
      && forall n :: n in own <==> n == name || n in KeyNames(i + 1)
    case Err(KeyRollbackIncomplete(c)) =>
      (forall n :: n in own ==> n in KeyNames(3)) && (own == map[] <==> c == SyncCall) && Whole(own)
    case Err(_) => own == map[]
  }

  /** Nothing but temporaries and keys, and every key in full length. */
  ghost predicate Whole(own: map<Name, Entry>)
  {
    && (forall n :: n in own ==> IsTemp(n) || n in KeyNames(4))
    && forall k :: 0 <= k < 4 && KeyName(k) in own ==> own[KeyName(k)].Own? && |own[KeyName(k)].content| == KEY_LENS[k]
  }

  ghost predicate Within(part: map<Name, Entry>, own: map<Name, Entry>)
  {
    forall n :: n in part ==> n in own && part[n] == own[n]
  }

  lemma PartIsWhole(part: map<Name, Entry>, own: map<Name, Entry>)
    requires Whole(own) && Within(part, own)
    ensures Whole(part)
  {
  }

  lemma TempsAreWhole(own: map<Name, Entry>)
    requires forall n :: n in own ==> IsTemp(n)
    ensures Whole(own)
  {
    KeyNamesAreNotTemps();
  }

  /** While keys are published, and also with one of them under both its names. */
  lemma HeldIsWhole(own: map<Name, Entry>, temps: seq<Staged>, i: nat)
    requires i < |temps| == 4 && Held(own, temps, i)
    ensures Whole(own) && temps[i].name in own && Whole(own[KeyName(i) := own[temps[i].name]])
  {
    hide IsTemp, KeyName, Locations;
    HeldParts(own, temps, i);
    KeyNamesAreNotTemps();
    forall n | n in own
      ensures IsTemp(n) || n in KeyNames(4)
    {
      var k :| 0 <= k < 4 && n == Locations(temps, i)[k];
      if k < i { assert KeyNames(4)[k] == n; }
    }
    assert KeyNames(4)[i] == KeyName(i);
  }

  /** All four keys, complete, and nothing else. */
  ghost predicate Complete(own: map<Name, Entry>)
  {
    && (forall n :: n in own <==> n in KeyNames(4))
    && forall k :: 0 <= k < 4 ==> own[KeyName(k)].Own? && |own[KeyName(k)].content| == KEY_LENS[k]
  }

  lemma OthersStaged(own: map<Name, Entry>, temps: seq<Staged>, i: nat, n: Name)
    requires i < |temps| == 4 && Held(own, temps, i) && n in own && n != temps[i].name && n !in Names(temps[i + 1..])
    ensures n in KeyNames(i)
  {
    hide IsTemp, KeyName;
    forall k | i < k < 4
      ensures temps[k].name in Names(temps[i + 1..])
    {
      assert Names(temps[i + 1..])[k - i - 1] == temps[k].name;
    }
    var k :| 0 <= k < 4 && n == Locations(temps, i)[k];
    if k < i { assert n == KeyNames(i)[k]; }
  }

  lemma RestStaged(own: map<Name, Entry>, temps: seq<Staged>, i: nat)
    requires i < |temps| == 4 && Held(own, temps, i)
    ensures Distinct(Names(temps[i + 1..]))
    ensures forall n :: n in Names(temps[i + 1..]) ==> n in own && n != temps[i].name && IsTemp(n) && n !in KeyNames(4)
    ensures temps[i].name !in KeyNames(4)
  {
    hide IsTemp, KeyName, KeyNames, Locations;
    HeldParts(own, temps, i);
    KeyNamesAreNotTemps();
    forall n | n in Names(temps[i + 1..])
      ensures n in own && n != temps[i].name && IsTemp(n)
    {
      var k :| 0 <= k < 3 - i && n == Names(temps[i + 1..])[k];
      assert n == temps[i + 1 + k].name;
    }
    var rest := Names(temps[i + 1..]);
    forall j, k | 0 <= j < k < |rest|
      ensures rest[j] != rest[k]
    {
      assert Names(temps)[i + 1 + j] != Names(temps)[i + 1 + k];
    }
  }

  /** After the remaining temporaries were removed: the installed keys are there, and what else is left has been named. */
  lemma RestRemoved(own: map<Name, Entry>, w: World, temps: seq<Staged>, i: nat, cleanup: Option<Name>)
    requires i < |temps| == 4 && Held(own, temps, i)
    requires OwnEntries(w) == if cleanup.None? then Without(own, temps[i].name) else own
    requires cleanup.Some? ==> cleanup.value == temps[i].name
    ensures var (pending, w') := UnlinkAll(w, Names(temps[i + 1..]));
            && Untouched(w, w')
            && (forall n :: n in KeyNames(i) ==> n in OwnEntries(w')) && Within(OwnEntries(w'), own)
            && match Or(cleanup, pending)
               case Some(n) => n in OwnEntries(w') && IsTemp(n) && n !in KeyNames(i)
               case None => forall n :: n in OwnEntries(w') ==> n in KeyNames(i)
  {
    hide OwnEntries, Untouched, UnlinkAll, Held, IsTemp, KeyName;
    HeldParts(own, temps, i);
    RestStaged(own, temps, i);
    var rest := Names(temps[i + 1..]);
    UnlinkAllEffect(w, rest);
    var (pending, w1) := UnlinkAll(w, rest);
    assert forall k :: 0 <= k < i ==> KeyNames(i)[k] == KeyNames(4)[k];
    if Or(cleanup, pending).None? {
      forall n | n in OwnEntries(w1)
        ensures n in KeyNames(i)
      {
        OthersStaged(own, temps, i, n);
      }
    }
  }

  lemma WithinOn(least: map<Name, Entry>, less: map<Name, Entry>, own: map<Name, Entry>, names: seq<Name>)
    requires Shrunk(less, least, names) && Within(less, own)
    ensures Within(least, own)
  {
  }

  lemma WithdrawEffect(own: map<Name, Entry>, w: World, temps: seq<Staged>, i: nat, present: bool, cleanup: Option<Name>)
    requires i < |temps| == 4 && Held(own, temps, i)
    requires OwnEntries(w) == if cleanup.None? then Without(own, temps[i].name) else own
    requires cleanup.Some? ==> cleanup.value == temps[i].name
    requires present ==> KeyName(i) in w.entries
    ensures var (r, w') := Withdraw(w, temps, i, present, cleanup);
            && Untouched(w, w') && r.Err? && Explains(OwnEntries(w'), r)
            && (r.error.KeyExists? ==> r.error.key == i && KeyName(i) in w'.entries)
  {
    hide OwnEntries, Untouched, UnlinkAll, Rollback, Held, IsTemp, KeyName, Whole, Within;
    HeldParts(own, temps, i);
    RestRemoved(own, w, temps, i, cleanup);
    var (pending, w1) := UnlinkAll(w, Names(temps[i + 1..]));
    RollbackEffect(w1, i);
    var (rolled, w2) := Rollback(w1, i);
    WithinOn(OwnEntries(w2), OwnEntries(w1), own, KeyNames(i));
    HeldIsWhole(own, temps, i);
    PartIsWhole(OwnEntries(w2), own);
    Onward(w, w1, w2);
    if present { ForeignStays(w, w2, KeyName(i)); }
    assert forall k :: 0 <= k < i ==> KeyNames(i)[k] == KeyNames(3)[k];
  }

  lemma HaltEffect(own: map<Name, Entry>, w: World, temps: seq<Staged>, i: nat, name: Name)
    requires i < |temps| == 4 && Held(own, temps, i) && name == temps[i].name && name in own
    requires OwnEntries(w) == own[KeyName(i) := own[name]]
    ensures var (r, w') := Halt(w, temps, i, name);
            Untouched(w, w') && r.Err? && !r.error.KeyExists? && Explains(OwnEntries(w'), r)
  {
    hide OwnEntries, Untouched, UnlinkAll, Held, IsTemp, KeyName, Whole;
    HeldParts(own, temps, i);
    HeldIsWhole(own, temps, i);
    RestStaged(own, temps, i);
    var rest := Names(temps[i + 1..]);
    UnlinkAllEffect(w, rest);
    var (more, w1) := UnlinkAll(w, rest);
    PartIsWhole(OwnEntries(w1), OwnEntries(w));
    assert KeyNames(i + 1) == KeyNames(i) + [KeyName(i)];
    if more.None? {
      forall n | n in OwnEntries(w1)
        ensures n == name || n in KeyNames(i + 1)
      {
        if n != KeyName(i) && n != name { OthersStaged(own, temps, i, n); }
      }
    }
  }

  lemma {:induction false} PublishAllEffect(w: World, temps: seq<Staged>, i: nat)
    requires i <= |temps| == 4 && Held(OwnEntries(w), temps, i)
    ensures var (r, w') := PublishAll(w, temps, i);
            && Untouched(w, w') && Explains(OwnEntries(w'), r)
            && (r.Ok? ==> Held(OwnEntries(w'), temps, 4))
            && (r.Err? && r.error.KeyExists? ==> r.error.key < 4 && KeyName(r.error.key) in w'.entries)
    decreases 4 - i
  {
    hide OwnEntries, Untouched, Publish, Withdraw, Halt, Held, IsTemp, KeyName;
    var own := OwnEntries(w);
    if i < 4 {
      HeldParts(own, temps, i);
      PublishEffect(w, temps[i].name, KeyName(i));
      var (done, w1) := Publish(w, temps[i].name, KeyName(i));
      match done {
        case Ok(_) =>
          HeldMoves(own, OwnEntries(w1), temps, i);
          PublishAllEffect(w1, temps, i + 1);
        case Err(BeforeInstall(present, cleanup)) =>
          WithdrawEffect(own, w1, temps, i, present, cleanup);
        case Err(InstalledButTemporaryRemains(name)) =>
          HaltEffect(own, w1, temps, i, name);
      }
      Onward(w, w1, PublishAll(w, temps, i).1);
    } else {
      CompleteWhenHeld(own, temps);
    }
  }

  lemma CompleteWhenHeld(own: map<Name, Entry>, temps: seq<Staged>)
    requires |temps| == 4 && Held(own, temps, 4)
    ensures Complete(own)
  {
    assert Locations(temps, 4) == KeyNames(4);
    forall k | 0 <= k < 4
      ensures Locations(temps, 4)[k] == KeyName(k)
    {
    }
  }

  /** The classification theorem: for every pattern of failures and of entries added by others, nobody else's
      entry is touched, and the result says exactly what of this run is left. */
  lemma GenerateAllExplained(w: World)
    requires OwnEntries(w) == map[]
    ensures var (r, w') := GenerateAll(w);
            && Untouched(w, w') && Explains(OwnEntries(w'), r)
            && (r.Err? && r.error.KeyExists? ==> r.error.key < 4 && KeyName(r.error.key) in w'.entries)
  {
    hide OwnEntries, Untouched, Preflight, Stage, PublishAll, Held, IsTemp, KeyName, Whole;
    PreflightEffect(w, 0);
    var (clear, w1) := Preflight(w, 0);
    if clear.Ok? {
      assert Held(map[], [], 0) by { EmptyHeld(); }
      StageEffect(w1, []);
      var (staged, w2) := Stage(w1, []);
      Onward(w, w1, w2);
      if staged.Err? && staged.error.KeyTemporaryCleanupFailed? { TempsAreWhole(OwnEntries(w2)); }
      if staged.Ok? {
        PublishAllEffect(w2, staged.value, 0);
        Onward(w, w2, PublishAll(w2, staged.value, 0).1);
      }
    }
  }

  lemma EmptyHeld()
    ensures Held(map[], [], 0)
  {
  }

  lemma {:induction false} PreflightEffect(w: World, i: nat)
    requires i <= 4
    ensures var (r, w') := Preflight(w, i);
            && Untouched(w, w') && OwnEntries(w') == OwnEntries(w)
            && (r.Err? ==> match r.error
                           case KeyExists(k) => k < 4 && KeyName(k) in w'.entries
                           case Metadata(_) => true
                           case _ => false)
    decreases 4 - i
  {
    hide OwnEntries, Stat;
    if i < 4 {
      var (found, w1) := Stat(w, KeyName(i));
      if found.Missing? {
        PreflightEffect(w1, i + 1);
        Onward(w, w1, Preflight(w1, i + 1).1);
      }
    }
  }

  /** The results by what is left: nothing, the complete key set, some temporary, or only some keys. */
  lemma ResidueDecidesResult(w: World)
    requires OwnEntries(w) == map[]
    ensures var (r, w') := GenerateAll(w);
            var own := OwnEntries(w');
            && (own == map[] <==> r.Err? && (r.error.KeyExists? || r.error.Metadata? || r.error.Random?
                                             || r.error.KeyGeneration? || r.error == KeyRollbackIncomplete(SyncCall)))
            && (Complete(own) <==> r.Ok? || r.error.KeysInstalledButNotSynced?)
            && ((exists n :: n in own && IsTemp(n))
                <==> r.Err? && (r.error.KeyTemporaryCleanupFailed? || r.error.KeyInstalledButTemporaryRemains?))
            && (own != map[] && !Complete(own) && (forall n :: n in own ==> !IsTemp(n))
                <==> r == Err(KeyRollbackIncomplete(UnlinkCall)))
  {
    hide OwnEntries, GenerateAll, IsTemp, KeyName;
    GenerateAllExplained(w);
    KeyNamesAreNotTemps();
    var own := OwnEntries(GenerateAll(w).1);
    assert KeyNames(4)[3] == KeyName(3) && KeyName(3) in KeyNames(4);
    assert forall n :: n in KeyNames(4) ==> !IsTemp(n);
    assert forall n :: n in KeyNames(3) ==> n in KeyNames(4) && n != KeyName(3);
  }
}
