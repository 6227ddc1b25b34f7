/** The use-once protocol of `otp` over every interleaving of any number of processes, with failures,
    kills, power losses, restored copies of pad files and several ledger directories. */
module OtpProtocol {
  import opened Bytes
  import opened OtpFormat

  type Proc = nat
  type Dir = nat
  type Inode = nat

  /** What identifies a usage: the pad's identifier and the role of this copy. */
  datatype Key = Key(id: seq<byte>, role: Role)

  /** A pad file: what its header says, its pad bytes, and its consumed byte as seen now and as it is on stable
      storage. */
  datatype Copy = Copy(key: Key, pad: seq<byte>, consumed: bool, durable: bool)

  /** A ledger entry: who created it, and whether it and its directory have been synced. */
  datatype Entry = Entry(owner: Proc, durable: bool)

  /** One use of a pad: the ledger directory, the pad file, and what validation found in it. */
  datatype Run = Run(dir: Dir, inode: Inode, key: Key, pad: seq<byte>)

  datatype Phase =
    | Holding(dir: Dir, inode: Inode, role: Role) // the pad is open and locked
    | Checked(run: Run)                           // header read, checksum valid, role right, not consumed
    | Reserved(run: Run)                          // ledger entry created
    | Recorded(run: Run)                          // entry and directory synced
    | Marking(run: Run)                           // consumed byte written
    | Committed(run: Run)                         // consumed byte synced: output may be produced
    | Finished                                    // returned, failed or killed

  datatype State = State(
    procs: map<Proc, Phase>,
    copies: map<Inode, Copy>,
    locks: map<Inode, Proc>,
    ledger: map<(Dir, Key), Entry>,
    reserved: set<(Proc, Run)>,  // who has ever passed reservation: entry and directory synced
    emitted: set<(Proc, Run)>,   // who has produced an output byte, be it in a temporary file
    overwritten: set<Inode>)     // pad files that something other than this program wrote in place

  datatype Action =
    | Lock(p: Proc, dir: Dir, inode: Inode, role: Role)
    | Check(p: Proc)
    | Reserve(p: Proc)
    | SyncEntry(p: Proc)
    | Mark(p: Proc)
    | SyncMark(p: Proc)
    | Emit(p: Proc)
    | Stop(p: Proc)
    | Writeback(entries: set<(Dir, Key)>, marks: set<Inode>)
    | Restore(file: Inode, copy: Copy)
    | Overwrite(file: Inode, copy: Copy)
    | PowerLoss(lostEntries: set<(Dir, Key)>, lostMarks: set<Inode>)

  const START := State(map[], map[], map[], map[], {}, {}, {})

  predicate At(s: State, p: Proc) { p in s.procs && s.procs[p].Holding? }

  /** The process has passed the freshness check and still holds its pad. */
  predicate Running(s: State, p: Proc)
  {
    p in s.procs && !s.procs[p].Holding? && !s.procs[p].Finished?
  }

  predicate Holds(s: State, p: Proc, i: Inode)
  {
    (At(s, p) && s.procs[p].inode == i) || (Running(s, p) && s.procs[p].run.inode == i)
  }

  /** Whether an action is possible. A call that could fail may instead be followed by `Stop`. */
  predicate Enabled(s: State, a: Action)
  {
    match a
    case Lock(p, _, i, _) => p !in s.procs && i in s.copies && i !in s.locks
    case Check(p) => At(s, p) && s.procs[p].inode in s.copies
    case Reserve(p) => p in s.procs && s.procs[p].Checked?
    case SyncEntry(p) => p in s.procs && s.procs[p].Reserved? && (s.procs[p].run.dir, s.procs[p].run.key) in s.ledger
    case Mark(p) => p in s.procs && s.procs[p].Recorded? && s.procs[p].run.inode in s.copies
    case SyncMark(p) => p in s.procs && s.procs[p].Marking? && s.procs[p].run.inode in s.copies
    case Emit(p) => p in s.procs && s.procs[p].Committed?
    case Stop(p) => p in s.procs
    case Writeback(_, _) => true
    case Restore(i, c) => i !in s.copies && c.consumed == c.durable
    case Overwrite(i, c) => i in s.copies && (c.durable ==> c.consumed)
    // What was synced survives; of the rest, any part may be lost.
    case PowerLoss(es, ms) =>
      && (forall e :: e in es ==> e in s.ledger && !s.ledger[e].durable)
      && (forall i :: i in ms ==> i in s.copies && !s.copies[i].durable)
  }

  function Stopped(s: State, p: Proc): State
    requires p in s.procs
  {
    s.(procs := s.procs[p := Finished], locks := map i | i in s.locks && s.locks[i] != p :: s.locks[i])
  }

  function Synced(c: Copy): Copy { c.(durable := c.consumed) }

  /** The freshness check, under the lock. */
  function AfterCheck(s: State, p: Proc): State
    requires Enabled(s, Check(p))
  {
    var h, c := s.procs[p], s.copies[s.procs[p].inode];
    if c.key.role != h.role || c.consumed then Stopped(s, p)
    else s.(procs := s.procs[p := Checked(Run(h.dir, h.inode, c.key, c.pad))])
  }

  /** The create-once entry. */
  function AfterReserve(s: State, p: Proc): State
    requires Enabled(s, Reserve(p))
  {
    var r := s.procs[p].run;
    if (r.dir, r.key) in s.ledger then Stopped(s, p)
    else s.(procs := s.procs[p := Reserved(r)], ledger := s.ledger[(r.dir, r.key) := Entry(p, false)])
  }

  function AfterPowerLoss(s: State, es: set<(Dir, Key)>, ms: set<Inode>): State
  {
    s.(procs := map p | p in s.procs :: Finished,
       locks := map[],
       ledger := map e | e in s.ledger && e !in es :: s.ledger[e].(durable := true),
       copies := map i | i in s.copies ::
                   if i in ms then s.copies[i].(consumed := false, durable := false) else Synced(s.copies[i]))
  }

  function Apply(s: State, a: Action): State
    requires Enabled(s, a)
  {
    match a
    case Lock(p, d, i, role) => s.(procs := s.procs[p := Holding(d, i, role)], locks := s.locks[i := p])
    case Check(p) => AfterCheck(s, p)
    case Reserve(p) => AfterReserve(s, p)
    case SyncEntry(p) =>
      var r := s.procs[p].run;
      var e := (r.dir, r.key);
      s.(procs := s.procs[p := Recorded(r)], ledger := s.ledger[e := s.ledger[e].(durable := true)],
         reserved := s.reserved + {(p, r)})
    case Mark(p) =>
      var r := s.procs[p].run;
      s.(procs := s.procs[p := Marking(r)], copies := s.copies[r.inode := s.copies[r.inode].(consumed := true)])
    case SyncMark(p) =>
      var r := s.procs[p].run;
      s.(procs := s.procs[p := Committed(r)], copies := s.copies[r.inode := Synced(s.copies[r.inode])])
    case Emit(p) => s.(emitted := s.emitted + {(p, s.procs[p].run)})
    case Stop(p) => Stopped(s, p)
    case Writeback(es, ms) =>
      s.(ledger := map e | e in s.ledger :: if e in es then s.ledger[e].(durable := true) else s.ledger[e],
         copies := map i | i in s.copies :: if i in ms then Synced(s.copies[i]) else s.copies[i])
    case Restore(i, c) => s.(copies := s.copies[i := c])
    case Overwrite(i, c) => s.(copies := s.copies[i := c], overwritten := s.overwritten + {i})
    case PowerLoss(es, ms) => AfterPowerLoss(s, es, ms)
  }

  /** The run that takes these actions from the empty world, if each is possible when its turn comes. */
  function After(actions: seq<Action>): Option<State>
  {
    if actions == [] then Some(START)
    else
      var before := After(actions[..|actions| - 1]);
      var a := actions[|actions| - 1];
      if before.None? || !Enabled(before.value, a) then None else Some(Apply(before.value, a))
  }

  /** A process that has made its entry owns it; past its sync the entry is durable and the reservation on record. */
  ghost predicate EntriesOwned(s: State)
  {
    forall p :: Running(s, p) && !s.procs[p].Checked? ==>
      var e := (s.procs[p].run.dir, s.procs[p].run.key);
      && e in s.ledger && s.ledger[e].owner == p
      && (s.procs[p].Reserved? || (s.ledger[e].durable && (p, s.procs[p].run) in s.reserved))
  }

  /** Whoever has passed reservation owns a durable entry, and is still in that run or finished. */
  ghost predicate ReservedOwned(s: State)
  {
    forall p, r :: (p, r) in s.reserved ==>
      && (r.dir, r.key) in s.ledger && s.ledger[(r.dir, r.key)] == Entry(p, true)
      && p in s.procs && (s.procs[p] in {Recorded(r), Marking(r), Committed(r)} || s.procs[p] == Finished)
      && forall t :: (p, t) in s.reserved ==> t == r
  }

  /** Whoever has produced output had passed reservation, and is still in that run or finished. */
  ghost predicate OutputOwned(s: State)
  {
    forall p, r :: (p, r) in s.emitted ==>
      (p, r) in s.reserved && p in s.procs && (s.procs[p] == Committed(r) || s.procs[p] == Finished)
  }

  ghost predicate LocksHeld(s: State)
  {
    && (forall p, i :: Holds(s, p, i) ==> i in s.copies && i in s.locks && s.locks[i] == p)
    && (forall i :: i in s.locks ==> s.locks[i] in s.procs)
  }

  /** The consumed byte agrees with how far the process that holds the pad has come. */
  ghost predicate MarksAgree(s: State)
  {
    && (forall i :: i in s.copies && s.copies[i].durable ==> s.copies[i].consumed)
    && (forall p :: Running(s, p) && s.procs[p].run.inode in s.copies && s.procs[p].run.inode !in s.overwritten ==>
          match s.procs[p]
          case Marking(r) => s.copies[r.inode].consumed
          case Committed(r) => s.copies[r.inode].durable
          case _ => !s.copies[s.procs[p].run.inode].consumed)
  }

  /** A pad file that has been used for output is durably marked, and nobody else is past its check. */
  ghost predicate OutputMarked(s: State)
  {
    forall p, r :: (p, r) in s.emitted && r.inode !in s.overwritten ==>
      && r.inode in s.copies && s.copies[r.inode].durable
      && forall q, t :: q != p && Running(s, q) && t == s.procs[q].run ==> t.inode != r.inode
  }

  ghost predicate OneEmitterPerFile(s: State)
  {
    forall p, r, q, t :: (p, r) in s.emitted && (q, t) in s.emitted && r.inode == t.inode && r.inode !in s.overwritten
      ==> p == q && r == t
  }

  ghost predicate Inv(s: State)
  {
    EntriesOwned(s) && ReservedOwned(s) && OutputOwned(s) && LocksHeld(s) && MarksAgree(s) && OutputMarked(s) && OneEmitterPerFile(s)
  }

  lemma EntriesKept(s: State, a: Action)
    requires EntriesOwned(s) && Enabled(s, a)
    ensures EntriesOwned(Apply(s, a))
  {
  }

  lemma ReservedKept(s: State, a: Action)
    requires EntriesOwned(s) && ReservedOwned(s) && Enabled(s, a)
    ensures ReservedOwned(Apply(s, a))
  {
  }

  lemma OutputOwnedKept(s: State, a: Action)
    requires EntriesOwned(s) && OutputOwned(s) && Enabled(s, a)
    ensures OutputOwned(Apply(s, a))
  {
  }

  lemma HoldersOnlyByLocking(s: State, a: Action, p: Proc, i: Inode)
    requires Enabled(s, a) && Holds(Apply(s, a), p, i)
    ensures Holds(s, p, i) || (a.Lock? && a.p == p && a.inode == i)
  {
  }

  lemma LocksKept(s: State, a: Action)
    requires LocksHeld(s) && Enabled(s, a)
    ensures LocksHeld(Apply(s, a))
  {
    forall p, i | Holds(Apply(s, a), p, i)
      ensures i in Apply(s, a).copies && i in Apply(s, a).locks && Apply(s, a).locks[i] == p
    {
      HoldersOnlyByLocking(s, a, p, i);
    }
  }

  lemma DurableIsConsumed(s: State, a: Action)
    requires MarksAgree(s) && Enabled(s, a)
    ensures forall i :: i in Apply(s, a).copies && Apply(s, a).copies[i].durable ==> Apply(s, a).copies[i].consumed
  {
  }

  lemma MarksKept(s: State, a: Action)
    requires LocksHeld(s) && MarksAgree(s) && Enabled(s, a)
    ensures MarksAgree(Apply(s, a))
  {
    DurableIsConsumed(s, a);
    assert forall q :: Running(s, q) ==> Holds(s, q, s.procs[q].run.inode);
  }

  lemma MarkStays(s: State, a: Action, p: Proc, r: Run)
    requires LocksHeld(s) && MarksAgree(s) && OutputMarked(s) && Enabled(s, a)
    requires (p, r) in Apply(s, a).emitted && r.inode !in Apply(s, a).overwritten
    ensures r.inode in Apply(s, a).copies && Apply(s, a).copies[r.inode].durable
  {
    assert a.Emit? ==> Running(s, a.p) && Holds(s, a.p, s.procs[a.p].run.inode);
  }

  lemma NobodyElse(s: State, a: Action, p: Proc, r: Run, q: Proc)
    requires LocksHeld(s) && MarksAgree(s) && OutputMarked(s) && Enabled(s, a)
    requires (p, r) in Apply(s, a).emitted && r.inode !in Apply(s, a).overwritten
    requires q != p && Running(Apply(s, a), q)
    ensures Apply(s, a).procs[q].run.inode != r.inode
  {
    assert Running(s, p) ==> Holds(s, p, s.procs[p].run.inode);
    assert Running(s, q) ==> Holds(s, q, s.procs[q].run.inode);
  }

  lemma OutputKept(s: State, a: Action)
    requires LocksHeld(s) && MarksAgree(s) && OutputMarked(s) && Enabled(s, a)
    ensures OutputMarked(Apply(s, a))
  {
    hide Apply, Enabled;
    forall p, r | (p, r) in Apply(s, a).emitted && r.inode !in Apply(s, a).overwritten
      ensures r.inode in Apply(s, a).copies && Apply(s, a).copies[r.inode].durable
      ensures forall q :: q != p && Running(Apply(s, a), q) ==> Apply(s, a).procs[q].run.inode != r.inode
    {
      MarkStays(s, a, p, r);
      forall q | q != p && Running(Apply(s, a), q)
        ensures Apply(s, a).procs[q].run.inode != r.inode
      {
        NobodyElse(s, a, p, r, q);
      }
    }
  }

  lemma OnlyEmitAdds(s: State, a: Action)
    requires Enabled(s, a)
    ensures s.overwritten <= Apply(s, a).overwritten
    ensures a.Emit? ==> a.p in s.procs && s.procs[a.p].Committed?
    ensures Apply(s, a).emitted == if a.Emit? then s.emitted + {(a.p, s.procs[a.p].run)} else s.emitted
  {
  }

  lemma EmittersKept(s: State, a: Action)
    requires ReservedOwned(s) && OutputOwned(s) && LocksHeld(s) && OutputMarked(s) && OneEmitterPerFile(s) && Enabled(s, a)
    ensures OneEmitterPerFile(Apply(s, a))
  {
    hide Apply, Enabled, LocksHeld;
    OnlyEmitAdds(s, a);
  }

  /** Every reachable state satisfies the invariant. */
  lemma {:induction false} Reachable(actions: seq<Action>)
    requires After(actions).Some?
    ensures Inv(After(actions).value)
  {
    if actions != [] {
      Reachable(actions[..|actions| - 1]);
      var s, a := After(actions[..|actions| - 1]).value, actions[|actions| - 1];
      EntriesKept(s, a);
      ReservedKept(s, a);
      OutputOwnedKept(s, a);
      LocksKept(s, a);
      MarksKept(s, a);
      OutputKept(s, a);
      EmittersKept(s, a);
    }
  }

  /** For every run: of all processes that share a ledger directory, at most one ever passes reservation for a pad
      identifier and role, whatever copies they use and whatever crashes in between; and only it produces output. */
  lemma OneUsePerDirectory(actions: seq<Action>, p: Proc, r: Run, q: Proc, t: Run)
    requires After(actions).Some?
    requires (p, r) in After(actions).value.reserved && (q, t) in After(actions).value.reserved
    requires r.dir == t.dir && r.key == t.key
    ensures p == q && r == t
    ensures After(actions).value.emitted <= After(actions).value.reserved
  {
    Reachable(actions);
    OutputNeedsReservation(After(actions).value);
  }

  lemma OutputNeedsReservation(s: State)
    requires OutputOwned(s)
    ensures s.emitted <= s.reserved
  {
    forall e | e in s.emitted
      ensures e in s.reserved
    {
      assert (e.0, e.1) in s.emitted;
    }
  }

  lemma EmitterReserved(actions: seq<Action>, p: Proc, r: Run)
    requires After(actions).Some? && (p, r) in After(actions).value.emitted
    ensures (p, r) in After(actions).value.reserved
  {
    Reachable(actions);
  }

  /** The marker alone: a pad file nobody else writes into serves at most one process, even when the
      processes use different ledger directories. */
  lemma OneUsePerPadFile(actions: seq<Action>, p: Proc, r: Run, q: Proc, t: Run)
    requires After(actions).Some?
    requires (p, r) in After(actions).value.emitted && (q, t) in After(actions).value.emitted
    requires r.inode == t.inode && r.inode !in After(actions).value.overwritten
    ensures p == q && r == t
  {
    Reachable(actions);
  }

  /** No output byte before both barriers: at the moment of any output the ledger entry is this process's own
      and on stable storage, and so is the mark in its pad file. */
  lemma BarriersBeforeOutput(actions: seq<Action>, p: Proc)
    requires After(actions + [Emit(p)]).Some?
    ensures After(actions).Some? && p in After(actions).value.procs && After(actions).value.procs[p].Committed?
    ensures var s := After(actions).value;
            var r := s.procs[p].run;
            && (r.dir, r.key) in s.ledger && s.ledger[(r.dir, r.key)] == Entry(p, true)
            && (r.inode in s.overwritten || (r.inode in s.copies && s.copies[r.inode].durable))
  {
    assert (actions + [Emit(p)])[..|actions|] == actions;
    Reachable(actions);
    var s := After(actions).value;
    assert Running(s, p) && Holds(s, p, s.procs[p].run.inode);
  }

  /** Somebody has put a pad file with this key and these pad bytes where the processes can find it. */
  ghost predicate Supplied(actions: seq<Action>, key: Key, pad: seq<byte>)
  {
    exists i :: 0 <= i < |actions| && (actions[i].Restore? || actions[i].Overwrite?)
                && actions[i].copy.key == key && actions[i].copy.pad == pad
  }

  /** Distinct pads: files with the same nonempty pad bytes carry the same identifier. */
  ghost predicate PadsDistinct(actions: seq<Action>)
  {
    forall k, l, pad :: Supplied(actions, k, pad) && Supplied(actions, l, pad) && pad != [] ==> k.id == l.id
  }

  /** Pad bytes never change their identifier: whatever a process has validated was supplied in that form. */
  ghost predicate AllSupplied(actions: seq<Action>, s: State)
  {
    && (forall i :: i in s.copies ==> Supplied(actions, s.copies[i].key, s.copies[i].pad))
    && (forall p :: Running(s, p) ==> Supplied(actions, s.procs[p].run.key, s.procs[p].run.pad))
    && (forall e :: e in s.emitted ==> Supplied(actions, e.1.key, e.1.pad))
  }

  lemma SuppliedStays(actions: seq<Action>, a: Action, key: Key, pad: seq<byte>)
    ensures Supplied(actions, key, pad) ==> Supplied(actions + [a], key, pad)
    ensures (a.Restore? || a.Overwrite?) ==> Supplied(actions + [a], a.copy.key, a.copy.pad)
  {
    if Supplied(actions, key, pad) {
      var i :| 0 <= i < |actions| && (actions[i].Restore? || actions[i].Overwrite?)
               && actions[i].copy.key == key && actions[i].copy.pad == pad;
      assert (actions + [a])[i] == actions[i];
    }
    assert (actions + [a])[|actions|] == a;
  }

  lemma SuppliedKept(actions: seq<Action>, s: State, a: Action)
    requires AllSupplied(actions, s) && Enabled(s, a)
    ensures AllSupplied(actions + [a], Apply(s, a))
  {
    hide Supplied;
    forall key, pad
      ensures Supplied(actions, key, pad) ==> Supplied(actions + [a], key, pad)
      ensures (a.Restore? || a.Overwrite?) ==> Supplied(actions + [a], a.copy.key, a.copy.pad)
    {
      SuppliedStays(actions, a, key, pad);
    }
  }

  lemma {:induction false} RunsAreSupplied(actions: seq<Action>)
    requires After(actions).Some?
    ensures AllSupplied(actions, After(actions).value)
  {
    if actions != [] {
      var init, a := actions[..|actions| - 1], actions[|actions| - 1];
      RunsAreSupplied(init);
      SuppliedKept(init, After(init).value, a);
      assert init + [a] == actions;
    }
  }

  /** Two senders that share a directory never produce output with the same pad bytes. */
  lemma PadBytesUsedOnce(actions: seq<Action>, p: Proc, r: Run, q: Proc, t: Run)
    requires After(actions).Some? && PadsDistinct(actions)
    requires (p, r) in After(actions).value.emitted && (q, t) in After(actions).value.emitted
    requires r.dir == t.dir && r.key.role == t.key.role == Sender && r.pad == t.pad != []
    ensures p == q && r == t
  {
    hide Supplied, After;
    Reachable(actions);
    RunsAreSupplied(actions);
    assert Supplied(actions, r.key, r.pad) && Supplied(actions, t.key, t.pad);
    OneUsePerDirectory(actions, p, r, q, t);
  }

  lemma Next(actions: seq<Action>, a: Action)
    requires After(actions).Some? && Enabled(After(actions).value, a)
    ensures After(actions + [a]) == Some(Apply(After(actions).value, a))
  {
    assert (actions + [a])[..|actions|] == actions;
  }

  /** What one undisturbed process does with a fresh pad. */
  function Solo(p: Proc, r: Run): seq<Action>
  {
    [Lock(p, r.dir, r.inode, r.key.role), Check(p), Reserve(p), SyncEntry(p), Mark(p), SyncMark(p), Emit(p), Stop(p)]
  }

  lemma SoloRecords(actions: seq<Action>, p: Proc, r: Run)
    requires After(actions).Some?
    requires var s := After(actions).value;
             && p !in s.procs && r.inode in s.copies && s.copies[r.inode] == Copy(r.key, r.pad, false, false)
             && s.locks == map[] && (r.dir, r.key) !in s.ledger
    ensures After(actions + Solo(p, r)[..4]).Some?
    ensures var s, s' := After(actions).value, After(actions + Solo(p, r)[..4]).value;
            && s'.procs == s.procs[p := Recorded(r)] && s'.locks == map[r.inode := p]
            && s'.ledger == s.ledger[(r.dir, r.key) := Entry(p, true)]
            && s'.copies == s.copies && s'.emitted == s.emitted && s'.overwritten == s.overwritten
            && s'.reserved == s.reserved + {(p, r)}
  {
    hide After;
    var a1 := actions + [Lock(p, r.dir, r.inode, r.key.role)];
    Next(actions, Lock(p, r.dir, r.inode, r.key.role));
    var a2 := a1 + [Check(p)];
    Next(a1, Check(p));
    var a3 := a2 + [Reserve(p)];
    Next(a2, Reserve(p));
    Next(a3, SyncEntry(p));
    assert a3 + [SyncEntry(p)] == actions + Solo(p, r)[..4];
  }

  lemma SoloEmits(actions: seq<Action>, p: Proc, r: Run)
    requires After(actions).Some?
    requires var s := After(actions).value;
             && p in s.procs && s.procs[p] == Recorded(r) && s.locks == map[r.inode := p]
             && r.inode in s.copies && s.copies[r.inode] == Copy(r.key, r.pad, false, false)
    ensures After(actions + Solo(p, r)[4..]).Some?
    ensures var s, s' := After(actions).value, After(actions + Solo(p, r)[4..]).value;
            && s'.procs == s.procs[p := Finished] && s'.locks == map[]
            && s'.copies == s.copies[r.inode := Copy(r.key, r.pad, true, true)]
            && s'.ledger == s.ledger && s'.emitted == s.emitted + {(p, r)} && s'.overwritten == s.overwritten
            && s'.reserved == s.reserved
  {
    hide After;
    var a1 := actions + [Mark(p)];
    Next(actions, Mark(p));
    var a2 := a1 + [SyncMark(p)];
    Next(a1, SyncMark(p));
    var a3 := a2 + [Emit(p)];
    Next(a2, Emit(p));
    Next(a3, Stop(p));
    assert a3 + [Stop(p)] == actions + Solo(p, r)[4..];
  }

  /** Progress: with nothing in its way, a process with a fresh pad and a free ledger entry produces output. */
  lemma SoloSucceeds(actions: seq<Action>, p: Proc, r: Run)
    requires After(actions).Some?
    requires var s := After(actions).value;
             && p !in s.procs && r.inode in s.copies && s.copies[r.inode] == Copy(r.key, r.pad, false, false)
             && s.locks == map[] && (r.dir, r.key) !in s.ledger
    ensures After(actions + Solo(p, r)).Some?
    ensures var s, s' := After(actions).value, After(actions + Solo(p, r)).value;
            && s'.procs == s.procs[p := Finished] && s'.locks == map[] && s'.overwritten == s.overwritten
            && s'.copies == s.copies[r.inode := Copy(r.key, r.pad, true, true)]
            && s'.ledger == s.ledger[(r.dir, r.key) := Entry(p, true)]
            && s'.emitted == s.emitted + {(p, r)}
  {
    hide After;
    SoloRecords(actions, p, r);
    SoloEmits(actions + Solo(p, r)[..4], p, r);
    assert actions + Solo(p, r)[..4] + Solo(p, r)[4..] == actions + Solo(p, r);
  }

  ghost predicate Reused(actions: seq<Action>, r: Run, t: Run)
  {
    && After(actions).Some? && After(actions).value.overwritten == {}
    && exists p, q :: p != q && (p, r) in After(actions).value.emitted && (q, t) in After(actions).value.emitted
  }

  lemma ReuseWitness(r: Run, t: Run) returns (actions: seq<Action>)
    requires r.key == t.key && r.dir != t.dir && r.inode != t.inode
    ensures Reused(actions, r, t)
  {
    var c, d := Copy(r.key, r.pad, false, false), Copy(t.key, t.pad, false, false);
    Next([], Restore(r.inode, c));
    Next([Restore(r.inode, c)], Restore(t.inode, d));
    var a0 := [Restore(r.inode, c)] + [Restore(t.inode, d)];
    SoloSucceeds(a0, 0, r);
    SoloSucceeds(a0 + Solo(0, r), 1, t);
    actions := a0 + Solo(0, r) + Solo(1, t);
    assert (0, r) in After(actions).value.emitted && (1, t) in After(actions).value.emitted;
  }

  /** Exactly how strong the two barriers are together: a pad usage can happen twice if and only if both the
      ledger directory and the pad file differ. */
  lemma ReuseExactly(r: Run, t: Run)
    requires r.key == t.key
    ensures (exists actions :: Reused(actions, r, t)) <==> r.dir != t.dir && r.inode != t.inode
  {
    if r.dir != t.dir && r.inode != t.inode {
      var actions := ReuseWitness(r, t);
    }
    forall actions | Reused(actions, r, t)
      ensures r.dir != t.dir && r.inode != t.inode
    {
      var s := After(actions).value;
      var p, q :| p != q && (p, r) in s.emitted && (q, t) in s.emitted;
      EmitterReserved(actions, p, r);
      EmitterReserved(actions, q, t);
      if r.dir == t.dir { OneUsePerDirectory(actions, p, r, q, t); }
      if r.inode == t.inode { OneUsePerPadFile(actions, p, r, q, t); }
    }
  }
}
