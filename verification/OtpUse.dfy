/** The `otp` commands as processes of the use-once protocol: what they do is a run of it, whatever others do in
    between, so that what the protocol guarantees holds of the bytes they produce. */
module OtpUse {
  import opened Bytes
  import opened OtpFormat
  import opened OtpFiles
  import opened OtpRuns
  import opened OtpProtocol

  /** What an event of a command is in the protocol. */
  function ActionOf(p: Proc, e: Event): Action
  {
    match e
    case EntryMade(_, _) => Reserve(p)
    case EntrySynced(_, _) => SyncEntry(p)
    case MarkMade(_) => Mark(p)
    case MarkSynced(_) => SyncMark(p)
    case Wrote(_) => Emit(p)
  }

  /** Where a command is after so many events. */
  function PhaseAfter(r: Run, events: nat): Phase
  {
    match events
    case 0 => Checked(r)
    case 1 => Reserved(r)
    case 2 => Recorded(r)
    case 3 => Marking(r)
    case _ => Committed(r)
  }

  /** The next event of a trail is possible in the protocol, and takes the process on. The entry is made only where
      there is none. */
  lemma EventSimulated(s: State, p: Proc, r: Run, pad: string, t: seq<Event>, k: nat)
    requires Inv(s) && Trail(r.key.id, r.key.role, pad, t) && k < |t|
    requires p in s.procs && s.procs[p] == PhaseAfter(r, k)
    requires k == 0 ==> (r.dir, r.key) !in s.ledger
    ensures Enabled(s, ActionOf(p, t[k]))
    ensures var s' := Apply(s, ActionOf(p, t[k]));
            && p in s'.procs && s'.procs[p] == PhaseAfter(r, k + 1)
            && s'.emitted == if t[k].Wrote? then s.emitted + {(p, r)} else s.emitted
  {
    assert Running(s, p) && Holds(s, p, r.inode);
    assert k < 4 ==> t[k] == Barriers(r.key.id, r.key.role, pad)[k];
  }

  /** An action of somebody else, which is not the end of everything. */
  predicate Theirs(p: Proc, a: Action)
  {
    match a
    case Writeback(_, _) => true
    case Restore(_, _) => true
    case Overwrite(_, _) => true
    case PowerLoss(_, _) => false
    case _ => a.p != p
  }

  lemma OthersLeaveIt(s: State, p: Proc, a: Action)
    requires p in s.procs && Enabled(s, a) && Theirs(p, a)
    ensures p in Apply(s, a).procs && Apply(s, a).procs[p] == s.procs[p]
    ensures forall r :: (p, r) in s.emitted ==> (p, r) in Apply(s, a).emitted
  {
  }

  /** Whose turn it is: the command's next event, or an action of somebody else. */
  datatype Turn = Mine | Other(a: Action)

  /** How many of its events the command has had. */
  function Mines(turns: seq<Turn>): (n: nat)
    ensures n <= |turns|
  {
    if turns == [] then 0 else Mines(turns[..|turns| - 1]) + if turns[|turns| - 1].Mine? then 1 else 0
  }

  /** The actions of the interleaved run. */
  function Played(p: Proc, t: seq<Event>, turns: seq<Turn>): seq<Action>
    requires Mines(turns) <= |t|
  {
    if turns == [] then []
    else
      var init, last := turns[..|turns| - 1], turns[|turns| - 1];
      Played(p, t, init) + [if last.Mine? then ActionOf(p, t[Mines(init)]) else last.a]
  }

  /** The state this leads to, if everything is possible in its turn. */
  function Reached(actions: seq<Action>, p: Proc, t: seq<Event>, turns: seq<Turn>): Option<State>
    requires Mines(turns) <= |t|
  {
    After(actions + Played(p, t, turns))
  }

  /** Others act only as they can, and the command finds no entry when it makes its own. */
  ghost predicate Fair(actions: seq<Action>, p: Proc, r: Run, t: seq<Event>, turns: seq<Turn>)
    requires Mines(turns) <= |t|
  {
    turns == []
    || var init, last := turns[..|turns| - 1], turns[|turns| - 1];
       && Fair(actions, p, r, t, init)
       && (Reached(actions, p, t, init).Some? ==>
             var s := Reached(actions, p, t, init).value;
             if last.Mine? then Mines(init) == 0 ==> (r.dir, r.key) !in s.ledger
             else Theirs(p, last.a) && Enabled(s, last.a))
  }

  /** A command that leaves a trail, stopped anywhere and interleaved with whatever others do, is a run of the
      protocol: it is as far as its events say, and if it has written then as the process `p` of the protocol. */
  lemma {:induction false} TrailIsRun(actions: seq<Action>, p: Proc, r: Run, pad: string, t: seq<Event>, turns: seq<Turn>)
    requires Trail(r.key.id, r.key.role, pad, t) && Mines(turns) <= |t|
    requires After(actions).Some? && p in After(actions).value.procs && After(actions).value.procs[p] == Checked(r)
    requires Fair(actions, p, r, t, turns)
    ensures Reached(actions, p, t, turns).Some?
    ensures var s := Reached(actions, p, t, turns).value;
            && p in s.procs && s.procs[p] == PhaseAfter(r, Mines(turns))
            && (Mines(turns) > 4 ==> (p, r) in s.emitted)
  {
    hide Apply, Enabled, After, Trail, PhaseAfter, Theirs, Inv;
    if turns == [] {
      assert actions + [] == actions;
      assert PhaseAfter(r, 0) == Checked(r) by { StartsChecked(r); }
    } else {
      var init, last := turns[..|turns| - 1], turns[|turns| - 1];
      TrailIsRun(actions, p, r, pad, t, init);
      var before := actions + Played(p, t, init);
      var s := After(before).value;
      Reachable(before);
      var a := if last.Mine? then ActionOf(p, t[Mines(init)]) else last.a;
      if last.Mine? {
        EventSimulated(s, p, r, pad, t, Mines(init));
        if Mines(init) >= 4 { LateEventsWrite(r, pad, t, Mines(init)); }
      } else {
        OthersLeaveIt(s, p, last.a);
      }
      Next(before, a);
      assert before + [a] == actions + Played(p, t, turns);
    }
  }

  lemma StartsChecked(r: Run)
    ensures PhaseAfter(r, 0) == Checked(r)
  {
  }

  lemma LateEventsWrite(r: Run, pad: string, t: seq<Event>, k: nat)
    requires Trail(r.key.id, r.key.role, pad, t) && 4 <= k < |t|
    ensures t[k].Wrote?
  {
  }

  /** A sender command that has validated this pad, as a run of the protocol. */
  ghost predicate Sends(r: Run, o: OpenedPad, v: Views)
  {
    r.key == Key(o.header.id, Sender) && r.pad == ValidatedPad(v, o.header.capacity)
  }

  /** No pad bytes for two messages: of two senders that share a ledger directory, in any run with any copies of
      their pads and any crashes, at most one XORs a message with given pad bytes. Only two messages with one digest
      could make it otherwise. */
  lemma NoPadForTwoMessages(
      prims: Primitives, actions: seq<Action>, p: Proc, r: Run, v: Views, o: OpenedPad, k: seq<byte>, e: seq<byte>,
      q: Proc, t: Run, w: Views, u: OpenedPad, l: seq<byte>, f: seq<byte>)
    requires After(actions).Some? && PadsDistinct(actions) && r.dir == t.dir && p != q
    requires (p, r) in After(actions).value.emitted && (q, t) in After(actions).value.emitted
    requires |k| == |l| == AUTH_KEY_LEN
    requires EncryptChecks(prims, v) == Ok(o) && EncryptPass(prims, v, o, k) == Ok(e) && Sends(r, o, v)
    requires EncryptChecks(prims, w) == Ok(u) && EncryptPass(prims, w, u, l) == Ok(f) && Sends(t, u, w)
    ensures
      || UsedPad(v, o.header.capacity) != UsedPad(w, u.header.capacity) || UsedPad(v, o.header.capacity) == []
      || ChecksumFooled(prims, v, o, k) || ChecksumFooled(prims, w, u, l)
  {
    hide After, PadsDistinct, ChecksumFooled, ParsePadHeader, ChecksumMessage, EnvelopeFile, XorSeq, OpenPad;
    PadIsValidated(prims, v, o, k);
    PadIsValidated(prims, w, u, l);
    if !ChecksumFooled(prims, v, o, k) && !ChecksumFooled(prims, w, u, l) && r.pad == t.pad != [] {
      PadBytesUsedOnce(actions, p, r, q, t);
    }
  }
}
