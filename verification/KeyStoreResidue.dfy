/** Exactly which files a failed `cascade keygen` leaves behind, in terms of the calls that failed. */
module KeyStoreResidue {
  import opened Bytes
  import opened UnixFs
  import opened KeyStore

  /** How publishing ends, and the directory at that moment. */
  datatype Stop =
    | Through                                                          // all four keys are in place
    | Refused(at: World, index: nat, present: bool, cleanup: Option<Name>) // this key could not be published
    | Halted(at: World, index: nat)                                    // published, but still under both names

  function StopOf(w: World, temps: seq<Staged>, i: nat): (s: Stop)
    requires i <= |temps| == 4
    ensures s.Through? || s.index < 4
    decreases 4 - i
  {
    if i == 4 then Through
    else
      var (done, w1) := Publish(w, temps[i].name, KeyName(i));
      match done
      case Ok(_) => StopOf(w1, temps, i + 1)
      case Err(BeforeInstall(present, cleanup)) => Refused(w1, i, present, cleanup)
      case Err(InstalledButTemporaryRemains(_)) => Halted(w1, i)
  }

  /** The keys that are there are exactly those that were staged. */
  ghost predicate Genuine(own: map<Name, Entry>, temps: seq<Staged>)
    requires |temps| == 4
  {
    forall k :: 0 <= k < 4 && KeyName(k) in own ==> own[KeyName(k)].Own? && own[KeyName(k)].content == temps[k].key
  }

  /** The remaining temporaries are removed first: one stays exactly if its unlink fails. */
  ghost predicate RestStays(own: map<Name, Entry>, temps: seq<Staged>, at: World, i: nat)
    requires i < |temps| == 4
  {
    forall j :: i < j < 4 ==> (temps[j].name in own <==> !WorksAfter(at, j - i - 1))
  }

  predicate RestGoes(at: World, i: nat) { forall j :: 0 <= j < 3 - i ==> WorksAfter(at, j) }

  /** Then the installed keys, in the next `i` calls; the sync of the directory is the call after these. */
  predicate KeysGo(at: World, i: nat)
    requires i < 4
  {
    forall j :: 3 - i <= j < 3 ==> WorksAfter(at, j)
  }

  /** What is left after each way of stopping, and what is reported. */
  ghost predicate Residue(own: map<Name, Entry>, r: Result<(), AppError>, stop: Stop, temps: seq<Staged>)
    requires |temps| == 4 && (stop.Through? || stop.index < 4)
  {
    && Genuine(own, temps)
    && match stop
       case Through => forall k :: 0 <= k < 4 ==> KeyName(k) in own && temps[k].name !in own
       case Refused(at, i, present, cleanup) =>
         && (forall k :: 0 <= k < 4 ==> (KeyName(k) in own <==> k < i && !WorksAfter(at, 3 - i + k)))
         && RestStays(own, temps, at, i) && (temps[i].name in own <==> cleanup.Some?)
         && r.Err?
         && (r.error.KeyTemporaryCleanupFailed? <==> cleanup.Some? || !RestGoes(at, i))
         && (r == Err(KeyRollbackIncomplete(UnlinkCall)) <==> cleanup.None? && RestGoes(at, i) && !KeysGo(at, i))
         && (r == Err(KeyRollbackIncomplete(SyncCall)) <==>
               cleanup.None? && RestGoes(at, i) && KeysGo(at, i) && 0 < i && !WorksAfter(at, 3))
         && (r == Err(if present then KeyExists(i) else KeyGeneration) <==>
               cleanup.None? && RestGoes(at, i) && KeysGo(at, i) && (0 < i ==> WorksAfter(at, 3)))
       case Halted(at, i) =>
         && (forall k :: 0 <= k < 4 ==> (KeyName(k) in own <==> k <= i))
         && RestStays(own, temps, at, i) && temps[i].name in own
         && r.Err?
         && (r.error.KeyTemporaryCleanupFailed? <==> !RestGoes(at, i))
         && (r == Err(KeyInstalledButTemporaryRemains(i, temps[i].name)) <==> RestGoes(at, i))
  }

  lemma RestNames(temps: seq<Staged>, i: nat)
    requires i < |temps| == 4
    ensures |Names(temps[i + 1..])| == 3 - i
    ensures forall j :: i < j < 4 ==> Names(temps[i + 1..])[j - i - 1] == temps[j].name
  {
  }

  /** Removing the rest of the temporaries, key by key and name by name. */
  lemma RestResidue(own: map<Name, Entry>, w: World, temps: seq<Staged>, i: nat)
    requires i < |temps| == 4 && Held(own, temps, i)
    requires forall n :: n in Names(temps[i + 1..]) ==> n in OwnEntries(w)
    ensures var (pending, w1) := UnlinkAll(w, Names(temps[i + 1..]));
            && w1.fates == w.fates && w1.clock == w.clock + 3 - i
            && (pending.None? <==> RestGoes(w, i)) && RestStays(OwnEntries(w1), temps, w, i)
            && Shrunk(OwnEntries(w), OwnEntries(w1), Names(temps[i + 1..]))
  {
    hide OwnEntries, Untouched, UnlinkAll, Held, IsTemp, KeyName, Shrunk;
    RestStaged(own, temps, i);
    RestNames(temps, i);
    var rest := Names(temps[i + 1..]);
    UnlinkAllEffect(w, rest);
    UnlinkAllExactly(w, rest);
    var w1 := UnlinkAll(w, rest).1;
    forall j | i < j < 4
      ensures temps[j].name in OwnEntries(w1) <==> !WorksAfter(w, j - i - 1)
    {
      assert rest[j - i - 1] == temps[j].name;
    }
  }

  /** Rolling back removes exactly the keys whose unlink succeeds, and nothing else. */
  lemma RollbackResidue(w: World, i: nat)
    requires i <= 3 && forall k :: 0 <= k < i ==> KeyName(k) in OwnEntries(w)
    ensures var (bad, w') := Rollback(w, i);
            && (forall k :: 0 <= k < i ==> (KeyName(k) in OwnEntries(w') <==> !WorksAfter(w, k)))
            && Shrunk(OwnEntries(w), OwnEntries(w'), KeyNames(i))
            && (bad == Some(UnlinkCall) <==> exists k :: 0 <= k < i && !WorksAfter(w, k))
            && (bad == Some(SyncCall) <==> (forall k :: 0 <= k < i ==> WorksAfter(w, k)) && 0 < i && !WorksAfter(w, i))
  {
    hide OwnEntries, Untouched, UnlinkAll, KeyName;
    KeyNamesAreNotTemps();
    UnlinkAllEffect(w, KeyNames(i));
    UnlinkAllExactly(w, KeyNames(i));
    var w1 := UnlinkAll(w, KeyNames(i)).1;
    assert forall k :: 0 <= k < i ==> KeyNames(i)[k] == KeyName(k);
    assert VerdictAt(w1) == w.fates(w.clock + i).verdict;
  }

  /** Which installed keys withdrawing leaves, and whether it could roll back. */
  lemma KeysWithdrawn(own: map<Name, Entry>, w: World, temps: seq<Staged>, i: nat, cleanup: Option<Name>)
    requires i < |temps| == 4 && Held(own, temps, i)
    requires OwnEntries(w) == if cleanup.None? then Without(own, temps[i].name) else own
    ensures var w1 := UnlinkAll(w, Names(temps[i + 1..])).1;
            var (rolled, w2) := Rollback(w1, i);
            && Genuine(OwnEntries(w2), temps) && Shrunk(OwnEntries(w1), OwnEntries(w2), KeyNames(i))
            && (forall k :: 0 <= k < 4 ==> (KeyName(k) in OwnEntries(w2) <==> k < i && !WorksAfter(w, 3 - i + k)))
            && (rolled == Some(UnlinkCall) <==> !KeysGo(w, i))
            && (rolled == Some(SyncCall) <==> KeysGo(w, i) && 0 < i && !WorksAfter(w, 3))
  {
    hide OwnEntries, Untouched, UnlinkAll, Rollback, Held, IsTemp, KeyName, KeyNames, RestGoes, RestStays, Names;
    HeldParts(own, temps, i);
    RestStaged(own, temps, i);
    RestResidue(own, w, temps, i);
    TempsKept(own, temps, i);
    var w1 := UnlinkAll(w, Names(temps[i + 1..])).1;
    assert forall k :: 0 <= k < i ==> KeyName(k) in OwnEntries(w1);
    RollbackResidue(w1, i);
    Shifted(w, w1, i);
  }

  lemma Shifted(w: World, w1: World, i: nat)
    requires i < 4 && w1.fates == w.fates && w1.clock == w.clock + 3 - i
    ensures forall k: nat :: k < 4 ==> WorksAfter(w1, k) == WorksAfter(w, 3 - i + k)
    ensures KeysGo(w, i) <==> forall k :: 0 <= k < i ==> WorksAfter(w1, k)
  {
    forall j | 3 - i <= j < 3
      ensures WorksAfter(w, j) == WorksAfter(w1, j - (3 - i))
    {
    }
  }

  /** The files that withdrawing leaves. */
  lemma WithdrawnFiles(own: map<Name, Entry>, w: World, temps: seq<Staged>, i: nat, cleanup: Option<Name>)
    requires i < |temps| == 4 && Held(own, temps, i)
    requires OwnEntries(w) == if cleanup.None? then Without(own, temps[i].name) else own
    ensures var (pending, w1) := UnlinkAll(w, Names(temps[i + 1..]));
            var (rolled, w2) := Rollback(w1, i);
            && (pending.None? <==> RestGoes(w, i))
            && Genuine(OwnEntries(w2), temps) && RestStays(OwnEntries(w2), temps, w, i)
            && (temps[i].name in OwnEntries(w2) <==> cleanup.Some?)
            && (forall k :: 0 <= k < 4 ==> (KeyName(k) in OwnEntries(w2) <==> k < i && !WorksAfter(w, 3 - i + k)))
            && (rolled == Some(UnlinkCall) <==> !KeysGo(w, i))
            && (rolled == Some(SyncCall) <==> KeysGo(w, i) && 0 < i && !WorksAfter(w, 3))
  {
    hide OwnEntries, Untouched, UnlinkAll, Rollback, Held, IsTemp, KeyName, KeyNames, RestGoes, Genuine, KeysGo, WorksAfter, Names;
    HeldParts(own, temps, i);
    RestResidue(own, w, temps, i);
    TempsKept(own, temps, i);
    KeysWithdrawn(own, w, temps, i, cleanup);
  }

  lemma WithdrawResidue(own: map<Name, Entry>, w: World, temps: seq<Staged>, i: nat, present: bool, cleanup: Option<Name>)
    requires i < |temps| == 4 && Held(own, temps, i)
    requires OwnEntries(w) == if cleanup.None? then Without(own, temps[i].name) else own
    requires cleanup.Some? ==> cleanup.value == temps[i].name
    ensures var (r, w') := Withdraw(w, temps, i, present, cleanup);
            Residue(OwnEntries(w'), r, Refused(w, i, present, cleanup), temps)
  {
    hide OwnEntries, Untouched, UnlinkAll, Rollback, Held, IsTemp, KeyName, KeyNames, RestGoes, KeysGo, RestStays,
      Genuine, WorksAfter;
    WithdrawnFiles(own, w, temps, i, cleanup);
    match Rollback(UnlinkAll(w, Names(temps[i + 1..])).1, i).0 {
      case None =>
      case Some(UnlinkCall) =>
      case Some(SyncCall) =>
    }
  }

  /** Temporaries' names are none of the keys'. */
  lemma TempsKept(own: map<Name, Entry>, temps: seq<Staged>, i: nat)
    requires i < |temps| == 4 && Held(own, temps, i)
    ensures forall j :: i <= j < 4 ==> temps[j].name !in KeyNames(i)
    ensures forall k :: 0 <= k < 4 ==> KeyName(k) !in Names(temps[i + 1..]) && KeyName(k) != temps[i].name
    ensures temps[i].name !in Names(temps[i + 1..])
  {
    hide IsTemp, KeyName, Locations;
    HeldParts(own, temps, i);
    RestStaged(own, temps, i);
    KeyNamesAreNotTemps();
  }

  lemma HaltResidue(own: map<Name, Entry>, w: World, temps: seq<Staged>, i: nat, name: Name)
    requires i < |temps| == 4 && Held(own, temps, i) && name == temps[i].name && name in own
    requires OwnEntries(w) == own[KeyName(i) := own[name]]
    ensures var (r, w') := Halt(w, temps, i, name);
            Residue(OwnEntries(w'), r, Halted(w, i), temps)
  {
    hide OwnEntries, Untouched, UnlinkAll, Held, IsTemp, KeyName, KeyNames, RestGoes;
    HeldParts(own, temps, i);
    RestStaged(own, temps, i);
    KeyNamesAreNotTemps();
    TempsKept(own, temps, i);
    RestResidue(own, w, temps, i);
    var more := UnlinkAll(w, Names(temps[i + 1..])).0;
    assert more.None? || more.Some?;
    assert Halt(w, temps, i, name).0
        == Err(if more.Some? then KeyTemporaryCleanupFailed(more.value) else KeyInstalledButTemporaryRemains(i, name));
  }

  lemma {:induction false} PublishResidue(w: World, temps: seq<Staged>, i: nat)
    requires i <= |temps| == 4 && Held(OwnEntries(w), temps, i)
    ensures var (r, w') := PublishAll(w, temps, i);
            Residue(OwnEntries(w'), r, StopOf(w, temps, i), temps)
    decreases 4 - i
  {
    hide OwnEntries, Untouched, Publish, Withdraw, Halt, Held, IsTemp, KeyName, RestGoes, Residue;
    var own := OwnEntries(w);
    if i < 4 {
      HeldParts(own, temps, i);
      PublishEffect(w, temps[i].name, KeyName(i));
      var (done, w1) := Publish(w, temps[i].name, KeyName(i));
      match done {
        case Ok(_) =>
          HeldMoves(own, OwnEntries(w1), temps, i);
          PublishResidue(w1, temps, i + 1);
        case Err(BeforeInstall(present, cleanup)) =>
          WithdrawResidue(own, w1, temps, i, present, cleanup);
        case Err(InstalledButTemporaryRemains(name)) =>
          HaltResidue(own, w1, temps, i, name);
      }
    } else {
      AllPublished(w, temps);
    }
  }

  lemma AllPublished(w: World, temps: seq<Staged>)
    requires |temps| == 4 && Held(OwnEntries(w), temps, 4)
    ensures Residue(OwnEntries(Quiet(w).1), PublishAll(w, temps, 4).0, Through, temps)
  {
    hide OwnEntries, IsTemp, KeyName, Locations;
    KeyNamesAreNotTemps();
    var all := Locations(temps, 4);
    assert forall k :: 0 <= k < 4 ==> all[k] == KeyName(k) && all[k] in all;
    forall k | 0 <= k < 4
      ensures temps[k].name !in all
    {
    }
  }

  /** The whole run. If it fails before publishing, no key is there; from then on, which of the staged keys and
      temporaries stay, and what is reported, is exactly determined by which of the clean-up calls fail. */
  lemma ResidueExactly(w: World)
    requires OwnEntries(w) == map[]
    ensures var (r, w') := GenerateAll(w);
            var (clear, w1) := Preflight(w, 0);
            var (staged, w2) := Stage(w1, []);
            if clear.Err? then OwnEntries(w') == map[]
            else if staged.Err? then forall n :: n in OwnEntries(w') ==> IsTemp(n)
            else Residue(OwnEntries(w'), r, StopOf(w2, staged.value, 0), staged.value)
  {
    hide OwnEntries, Preflight, Stage, PublishAll, Held, IsTemp, KeyName, Residue, StopOf;
    PreflightEffect(w, 0);
    var w1 := Preflight(w, 0).1;
    EmptyHeld();
    StageEffect(w1, []);
    var (staged, w2) := Stage(w1, []);
    if staged.Ok? { PublishResidue(w2, staged.value, 0); }
  }
}
