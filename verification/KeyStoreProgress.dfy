/** Runs of `cascade keygen`: what an undisturbed one does, and runs in which chosen calls fail. */
module KeyStoreProgress {
  import opened Bytes
  import opened UnixFs
  import opened KeyStore
  import opened KeyStoreResidue

  /** In the next `n` calls nothing fails, nobody interferes, and the random source delivers. */
  ghost predicate Calm(w: World, n: nat)
  {
    forall t :: w.clock <= t < w.clock + n ==>
      w.fates(t).arrivals == map[] && w.fates(t).verdict == Proceed && |w.fates(t).random| >= 128
  }

  /** How many calls staging one key takes, and which of them draws the temporary's name. */
  const STAGING_CALLS := 6

  function Drawn(w: World, k: nat): Name
    requires |w.fates(w.clock + STAGING_CALLS * k + 1).random| >= TEMP_NAME_RANDOM_BYTES
  {
    TEMP_PREFIX + Hex(w.fates(w.clock + STAGING_CALLS * k + 1).random[..TEMP_NAME_RANDOM_BYTES])
  }

  /** The `n` names that staging is about to draw are different and not taken. */
  ghost predicate FreshNames(w: World, n: nat)
    requires Calm(w, STAGING_CALLS * n)
  {
    && (forall k: nat :: k < n ==> Drawn(w, k) !in w.entries)
    && (forall j: nat, k: nat :: j < k < n ==> Drawn(w, j) != Drawn(w, k))
  }

  lemma NothingArrives(w: World)
    requires Calm(w, 1)
    ensures Arrive(w) == World(w.fates, w.entries, w.clock + 1) && VerdictAt(w) == Proceed
  {
    assert Arrive(w).entries == w.entries;
  }

  lemma {:induction false} PreflightQuiet(w: World, i: nat)
    requires i <= 4 && Calm(w, 4 - i) && forall k :: 0 <= k < 4 ==> KeyName(k) !in w.entries
    ensures Preflight(w, i) == (Ok(()), World(w.fates, w.entries, w.clock + (4 - i)))
    decreases 4 - i
  {
    if i < 4 {
      NothingArrives(w);
      PreflightQuiet(Arrive(w), i + 1);
    }
  }

  lemma OwnIsThere(w: World, n: Name)
    ensures n in OwnEntries(w) <==> n in w.entries && w.entries[n].Own?
  {
  }

  /** What single calls do when nothing fails. */
  lemma CallsQuiet(w: World, n: nat, name: Name, key: seq<byte>)
    requires Calm(w, 1) && n <= 128
    ensures |w.fates(w.clock).random| >= 128 && GetRandom(w, n) == (Some(w.fates(w.clock).random[..n]), Later(w, 1))
    ensures Quiet(w) == (Done, Later(w, 1))
    ensures name !in w.entries ==>
      OpenExclusive(w, name) == (Done, Later(w, 1).(entries := w.entries[name := Own(w.clock, [])]))
    ensures name in OwnEntries(w) ==>
      WriteAll(w, name, key) == (Done, Later(w, 1).(entries := w.entries[name := w.entries[name].(content := key)]))
  {
    NothingArrives(w);
  }

  function Later(w: World, k: nat): World { w.(clock := w.clock + k) }

  lemma CalmOn(w: World, n: nat, w': World)
    requires Calm(w, n) && w'.fates == w.fates && w.clock <= w'.clock < w.clock + n
    ensures Calm(w', 1)
  {
  }

  lemma CreateQuiet(w: World)
    requires Calm(w, 3)
    ensures |w.fates(w.clock).random| >= 128
    ensures var name := TEMP_PREFIX + Hex(w.fates(w.clock).random[..TEMP_NAME_RANDOM_BYTES]);
            name !in w.entries ==>
              CreatePrivateTemp(w, TEMP_PREFIX, TEMP_NAME_ATTEMPTS)
              == (Ok(name), World(w.fates, w.entries[name := Own(w.clock + 1, [])], w.clock + 3))
  {
    hide Hex, GetRandom, OpenExclusive, Quiet, WriteAll, OwnEntries, Unlink, Calm;
    CalmOn(w, 3, w);
    CallsQuiet(w, TEMP_NAME_RANDOM_BYTES, "", []);
    var name := TEMP_PREFIX + Hex(w.fates(w.clock).random[..TEMP_NAME_RANDOM_BYTES]);
    if name !in w.entries {
      var w1 := Later(w, 1);
      CalmOn(w, 3, w1);
      CallsQuiet(w1, 0, name, []);
      var w2 := World(w.fates, w.entries[name := Own(w.clock + 1, [])], w.clock + 2);
      CalmOn(w, 3, w2);
      CallsQuiet(w2, 0, name, []);
    }
  }

  lemma FillQuiet(w: World, temps: seq<Staged>, name: Name, serial: nat, key: seq<byte>)
    requires Calm(w, 2) && name in w.entries && w.entries[name] == Own(serial, [])
    ensures Fill(w, temps, name, key)
         == (Ok(Staged(name, key)), World(w.fates, w.entries[name := Own(serial, key)], w.clock + 2))
  {
    hide GetRandom, OpenExclusive, Quiet, WriteAll, OwnEntries, Abandon;
    OwnIsThere(w, name);
    CallsQuiet(w, 0, name, key);
    CallsQuiet(Later(w, 1).(entries := w.entries[name := Own(serial, key)]), 0, name, key);
  }

  lemma StageOneQuiet(w: World, temps: seq<Staged>)
    requires Calm(w, STAGING_CALLS) && |temps| < 4 && Drawn(w, 0) !in w.entries
    ensures |w.fates(w.clock).random| >= 128
    ensures var (r, w') := StageOne(w, temps);
            && r.Ok? && r.value == Staged(Drawn(w, 0), w.fates(w.clock).random[..KEY_LENS[|temps|]])
            && w' == World(w.fates, w.entries[Drawn(w, 0) := Own(w.clock + 2, r.value.key)], w.clock + STAGING_CALLS)
  {
    hide Hex, GetRandom, CreatePrivateTemp, Fill, Abandon;
    var name, len := Drawn(w, 0), KEY_LENS[|temps|];
    CallsQuiet(w, len, name, []);
    var key := w.fates(w.clock).random[..len];
    CreateQuiet(Later(w, 1));
    var made := World(w.fates, w.entries[name := Own(w.clock + 2, [])], w.clock + 4);
    FillQuiet(made, temps, name, w.clock + 2, key);
    assert made.entries[name := Own(w.clock + 2, key)] == w.entries[name := Own(w.clock + 2, key)];
  }

  /** The later draws are the same when seen from after the first. */
  lemma LaterDraws(w: World, w': World, n: nat)
    requires 0 < n && Calm(w, STAGING_CALLS * n) && FreshNames(w, n)
    requires w'.fates == w.fates && w'.clock == w.clock + STAGING_CALLS
    requires forall m :: m in w'.entries ==> m in w.entries || m == Drawn(w, 0)
    ensures Calm(w', STAGING_CALLS * (n - 1)) && FreshNames(w', n - 1)
  {
    hide Hex;
    forall k: nat | k < n - 1
      ensures |w.fates(w.clock + STAGING_CALLS * (k + 1) + 1).random| >= 128
      ensures Drawn(w', k) == Drawn(w, k + 1)
    {
      assert w'.clock + STAGING_CALLS * k + 1 == w.clock + STAGING_CALLS * (k + 1) + 1;
    }
  }

  lemma {:induction false} StageQuiet(w: World, temps: seq<Staged>)
    requires |temps| <= 4 && Calm(w, STAGING_CALLS * (4 - |temps|)) && FreshNames(w, 4 - |temps|)
    ensures var (r, w') := Stage(w, temps);
            && r.Ok? && w'.fates == w.fates && w'.clock == w.clock + STAGING_CALLS * (4 - |temps|)
            && forall n :: n in w'.entries && n !in w.entries ==> IsTemp(n)
    decreases 4 - |temps|
  {
    hide StageOne, Drawn, FreshNames, Hex;
    if |temps| < 4 {
      FirstIsFresh(w, 4 - |temps|);
      StageOneQuiet(w, temps);
      var (one, w') := StageOne(w, temps);
      LaterDraws(w, w', 4 - |temps|);
      StageQuiet(w', temps + [one.value]);
    }
  }

  lemma FirstIsFresh(w: World, n: nat)
    requires 0 < n && Calm(w, STAGING_CALLS * n) && FreshNames(w, n)
    ensures |w.fates(w.clock + STAGING_CALLS * 0 + 1).random| >= 128 && Drawn(w, 0) !in w.entries && IsTemp(Drawn(w, 0))
  {
  }

  lemma PublishQuiet(w: World, temp: Name, target: Name)
    requires Calm(w, 1) && temp in w.entries && target !in w.entries
    ensures var (r, w') := Publish(w, temp, target);
            r.Ok? && w' == World(w.fates, Without(w.entries, temp)[target := w.entries[temp]], w.clock + 1)
  {
    NothingArrives(w);
  }

  lemma {:induction false} PublishAllQuiet(w: World, temps: seq<Staged>, i: nat)
    requires i <= |temps| == 4 && Calm(w, 5 - i) && Held(OwnEntries(w), temps, i)
    requires forall k :: i <= k < 4 ==> KeyName(k) !in w.entries
    ensures PublishAll(w, temps, i).0.Ok?
    decreases 4 - i
  {
    hide Publish, Held, OwnEntries, KeyName;
    if i < 4 {
      var temp := temps[i].name;
      HeldParts(OwnEntries(w), temps, i);
      OwnIsThere(w, temp);
      PublishQuiet(w, temp, KeyName(i));
      PublishEffect(w, temp, KeyName(i));
      var w' := Publish(w, temp, KeyName(i)).1;
      HeldMoves(OwnEntries(w), OwnEntries(w'), temps, i);
      KeyNamesAreNotTemps();
      PublishAllQuiet(w', temps, i + 1);
    } else {
      NothingArrives(w);
    }
  }

  /** A directory without files of this run or keys, before calls that stage all keys. */
  ghost predicate Staging(w: World)
  {
    && OwnEntries(w) == map[] && (forall k :: 0 <= k < 4 ==> KeyName(k) !in w.entries)
    && Calm(w, 4 + STAGING_CALLS * 4)
    && FreshNames(w.(clock := w.clock + 4), 4)
  }

  /** The moment at which all keys are staged. */
  lemma StagedQuiet(w: World)
    requires Staging(w)
    ensures var w1 := Preflight(w, 0).1;
            var (staged, w2) := Stage(w1, []);
            && Preflight(w, 0).0.Ok? && OwnEntries(w1) == map[] && staged.Ok?
            && Held(OwnEntries(w2), staged.value, 0) && w2.fates == w.fates && w2.clock == w.clock + 28
            && forall k :: 0 <= k < 4 ==> KeyName(k) !in w2.entries
  {
    hide Preflight, Stage, Held, OwnEntries, KeyName, FreshNames;
    PreflightQuiet(w, 0);
    PreflightEffect(w, 0);
    var w1 := Preflight(w, 0).1;
    StageQuiet(w1, []);
    EmptyHeld();
    StageEffect(w1, []);
    KeyNamesAreNotTemps();
  }

  /** Undisturbed, in a directory without key files, key generation succeeds and leaves exactly the complete set. */
  lemma QuietGeneration(w: World)
    requires Staging(w) && Calm(w, 33)
    ensures GenerateAll(w).0.Ok? && Complete(OwnEntries(GenerateAll(w).1))
  {
    hide Preflight, Stage, PublishAll, Held, OwnEntries, KeyName, Drawn, Complete, FreshNames;
    StagedQuiet(w);
    var (staged, w2) := Stage(Preflight(w, 0).1, []);
    PublishAllQuiet(w2, staged.value, 0);
    GenerateAllExplained(w);
  }

  // --- Concrete runs ---------------------------------------------------------------------------------------

  /** An empty directory, in which nobody interferes and each call does what `verdicts` says. */
  function Empty(verdicts: nat -> Verdict): World
  {
    World((t: nat) => Fate(map[], verdicts(t), seq(128, _ => t % 256), 0), map[], 0)
  }

  /** The first two hexadecimal digits of a drawn name. */
  lemma FirstDigits(verdicts: nat -> Verdict, k: nat)
    requires k < 4
    ensures var name, t := Drawn(Later(Empty(verdicts), 4), k), 5 + 6 * k;
            |name| >= |TEMP_PREFIX| + 2 && name[|TEMP_PREFIX|..|TEMP_PREFIX| + 2] == [HexDigit(t / 16), HexDigit(t % 16)]
  {
    hide HexDigit;
    var w := Later(Empty(verdicts), 4);
    var s := w.fates(w.clock + STAGING_CALLS * k + 1).random[..TEMP_NAME_RANDOM_BYTES];
    assert |s| == TEMP_NAME_RANDOM_BYTES && s[0] == 5 + 6 * k;
    assert Hex(s) == [HexDigit(s[0] / 16), HexDigit(s[0] % 16)] + Hex(s[1..]);
  }

  lemma EmptyStages(verdicts: nat -> Verdict)
    requires forall t: nat :: t < 28 ==> verdicts(t) == Proceed
    ensures Staging(Empty(verdicts))
  {
    hide Drawn, Hex;
    var w := Later(Empty(verdicts), 4);
    assert Calm(w, 24);
    forall j: nat, k: nat | j < k < 4
      ensures Drawn(w, j) != Drawn(w, k)
    {
      FirstDigits(verdicts, j);
      FirstDigits(verdicts, k);
    }
  }

  /** There is an undisturbed run. */
  lemma QuietRunExists()
    ensures var w := Empty(_ => Proceed);
            Staging(w) && Calm(w, 33) && GenerateAll(w).0.Ok? && Complete(OwnEntries(GenerateAll(w).1))
  {
    hide GenerateAll, Complete, Staging;
    EmptyStages(_ => Proceed);
    QuietGeneration(Empty(_ => Proceed));
  }

  /** Nobody interferes. */
  ghost predicate Alone(w: World) { forall t :: w.fates(t).arrivals == map[] }

  lemma ArriveAlone(w: World)
    requires Alone(w)
    ensures Arrive(w) == Later(w, 1)
  {
    assert Arrive(w).entries == w.entries;
  }

  /** The rename fails, and the temporary is removed or not. */
  lemma PublishFails(w: World, temp: Name, target: Name)
    requires Alone(w) && temp in w.entries && w.fates(w.clock).verdict == Fail
    ensures var (r, w') := Publish(w, temp, target);
            && r == Err(BeforeInstall(false, if WorksAfter(w, 1) then None else Some(temp)))
            && w'.fates == w.fates && w'.clock == w.clock + 2
  {
    ArriveAlone(w);
    ArriveAlone(Later(w, 1));
  }

  /** Renaming is not supported, linking works, and removing the temporary does not. */
  lemma PublishHalts(w: World, temp: Name, target: Name)
    requires Alone(w) && temp in w.entries && target !in w.entries && temp != target
    requires w.fates(w.clock).verdict == Unsupported && WorksAfter(w, 1) && !WorksAfter(w, 2)
    ensures var (r, w') := Publish(w, temp, target);
            r == Err(InstalledButTemporaryRemains(temp)) && w'.fates == w.fates && w'.clock == w.clock + 3
  {
    ArriveAlone(w);
    ArriveAlone(Later(w, 1));
    ArriveAlone(Later(w, 2).(entries := w.entries[target := w.entries[temp]]));
  }

  /** How publishing ends in an otherwise empty directory, when the second rename or the first one fails. */
  lemma StopsAtSecond(verdicts: nat -> Verdict)
    requires (forall t: nat :: t < 29 ==> verdicts(t) == Proceed) && verdicts(29) == Fail
    ensures var w := Empty(verdicts);
            var (staged, w2) := Stage(Preflight(w, 0).1, []);
            && Preflight(w, 0).0.Ok? && staged.Ok?
            && var stop := StopOf(w2, staged.value, 0);
               && stop.Refused? && stop.index == 1 && !stop.present
               && stop.at.fates == w.fates && stop.at.clock == 31
               && (stop.cleanup.Some? <==> verdicts(30) != Proceed)
  {
    hide Preflight, Stage, Publish, Held, OwnEntries, KeyName, Staging;
    EmptyStages(verdicts);
    var w := Empty(verdicts);
    StagedQuiet(w);
    var (staged, w2) := Stage(Preflight(w, 0).1, []);
    var temps := staged.value;
    HeldParts(OwnEntries(w2), temps, 0);
    OwnIsThere(w2, temps[0].name);
    PublishQuiet(w2, temps[0].name, KeyName(0));
    PublishEffect(w2, temps[0].name, KeyName(0));
    var w3 := Publish(w2, temps[0].name, KeyName(0)).1;
    HeldMoves(OwnEntries(w2), OwnEntries(w3), temps, 0);
    HeldParts(OwnEntries(w3), temps, 1);
    OwnIsThere(w3, temps[1].name);
    PublishFails(w3, temps[1].name, KeyName(1));
  }

  lemma StopsAtFirst(verdicts: nat -> Verdict)
    requires (forall t: nat :: t < 28 ==> verdicts(t) == Proceed)
    requires verdicts(28) == Unsupported && verdicts(29) == Proceed && verdicts(30) == Fail
    ensures var w := Empty(verdicts);
            var (staged, w2) := Stage(Preflight(w, 0).1, []);
            && Preflight(w, 0).0.Ok? && staged.Ok?
            && var stop := StopOf(w2, staged.value, 0);
               stop.Halted? && stop.index == 0 && stop.at.fates == w.fates && stop.at.clock == 31
  {
    hide Preflight, Stage, Publish, Held, OwnEntries, KeyName, Staging;
    EmptyStages(verdicts);
    var w := Empty(verdicts);
    StagedQuiet(w);
    var (staged, w2) := Stage(Preflight(w, 0).1, []);
    var temps := staged.value;
    HeldParts(OwnEntries(w2), temps, 0);
    OwnIsThere(w2, temps[0].name);
    KeyNamesAreNotTemps();
    PublishHalts(w2, temps[0].name, KeyName(0));
  }

  lemma NothingOwn(verdicts: nat -> Verdict)
    ensures OwnEntries(Empty(verdicts)) == map[]
  {
  }

  /** "Rollback incomplete" with nothing left: the second rename fails, everything is removed, and then the
      directory cannot be synced. */
  lemma RollbackMayLeaveNothing()
    ensures var (r, w') := GenerateAll(Empty(t => if t == 29 || t == 34 then Fail else Proceed));
            r == Err(KeyRollbackIncomplete(SyncCall)) && OwnEntries(w') == map[]
  {
    hide GenerateAll, Preflight, Stage, StopOf, OwnEntries, KeyName, Genuine, RestStays, Names;
    var verdicts: nat -> Verdict := t => if t == 29 || t == 34 then Fail else Proceed;
    var w := Empty(verdicts);
    NothingOwn(verdicts);
    StopsAtSecond(verdicts);
    ResidueExactly(w);
    GenerateAllExplained(w);
  }

  /** "Temporary cleanup failed" with a key left: published by link where its own temporary and then another one
      could not be removed; or not rolled back after the next key's temporary could not be removed. */
  lemma CleanupMayLeaveKeys()
    ensures var (r, w') := GenerateAll(Empty(t => if t == 28 then Unsupported else if t == 30 || t == 31 then Fail else Proceed));
            r.Err? && r.error.KeyTemporaryCleanupFailed? && KeyName(0) in OwnEntries(w')
    ensures var (r, w') := GenerateAll(Empty(t => if t == 29 || t == 30 || t == 33 then Fail else Proceed));
            r.Err? && r.error.KeyTemporaryCleanupFailed? && KeyName(0) in OwnEntries(w')
  {
    hide GenerateAll, Preflight, Stage, StopOf, OwnEntries, KeyName, Genuine, RestStays, Names;
    var linked: nat -> Verdict := t => if t == 28 then Unsupported else if t == 30 || t == 31 then Fail else Proceed;
    NothingOwn(linked);
    StopsAtFirst(linked);
    ResidueExactly(Empty(linked));
    assert !WorksAfter(StopOf(Stage(Preflight(Empty(linked), 0).1, []).1, Stage(Preflight(Empty(linked), 0).1, []).0.value, 0).at, 0);
    var kept: nat -> Verdict := t => if t == 29 || t == 30 || t == 33 then Fail else Proceed;
    NothingOwn(kept);
    StopsAtSecond(kept);
    ResidueExactly(Empty(kept));
  }
}
