/** `filecrypt`'s publication of a staged file, against somebody who may replace the staging path, or create the
    destination, any number of times between any two of its steps. */
module Staging {
  import opened Bytes

  /** File identities, as `same_file` compares them. */
  type Id = nat

  datatype Error =
    | Io | StagingFileReplaced | PublicationIdentityMismatch | PublishedButDurabilityUncertain | OutputExists

  datatype Report = Moved | AlreadyExists | MoveFailed

  datatype Phase =
    | Flushing | Syncing | Identifying | Comparing | Moving
    | Rechecking(report: Report)
    | Finished(result: Result<(), Error>)

  /** The two names that matter, how far `commit` has come, and what its move has installed. */
  datatype State = State(staging: Option<Id>, destination: Option<Id>, phase: Phase, installed: Option<Id>)

  datatype Verdict = Proceed | Fail | LateFail

  datatype Action =
    | Swap(file: Option<Id>)       // somebody removes or replaces the staging path
    | Create(made: Id)             // somebody creates the destination
    | Step(verdict: Verdict)       // the next call of `commit`

  function Start(id: Id, destination: Option<Id>): State { State(Some(id), destination, Flushing, None) }

  predicate Enabled(s: State, a: Action)
  {
    match a
    case Swap(_) => true
    case Create(_) => s.destination.None?
    case Step(_) => !s.phase.Finished?
  }

  /** `move_atomic`: installs whatever the staging path names, never over an existing entry. It may also install
      and then report a failure, for instance in removing the old name. */
  function Move(s: State, v: Verdict): State
  {
    if s.destination.Some? then s.(phase := Rechecking(AlreadyExists))
    else if s.staging.None? || v == Fail then s.(phase := Rechecking(MoveFailed))
    else State(if v == LateFail then s.staging else None, s.staging,
               Rechecking(if v == LateFail then MoveFailed else Moved), s.staging)
  }

  /** One call of `commit` for the staged file `id`. */
  function Advance(id: Id, s: State, v: Verdict): State
    requires !s.phase.Finished?
  {
    match s.phase
    case Flushing => s.(phase := if v == Proceed then Syncing else Finished(Err(Io)))
    case Syncing => s.(phase := if v == Proceed then Identifying else Finished(Err(Io)))
    case Identifying => s.(phase := if v == Proceed then Comparing else Finished(Err(Io)))
    case Comparing =>
      s.(phase := if v == Proceed && s.staging == Some(id) then Moving else Finished(Err(StagingFileReplaced)))
    case Moving => Move(s, v)
    case Rechecking(report) =>
      var same := v == Proceed && s.destination == Some(id);
      s.(phase := Finished(
           if report.Moved? then (if same then Ok(()) else Err(PublicationIdentityMismatch))
           else if same then Err(PublishedButDurabilityUncertain)
           else if report.AlreadyExists? then Err(OutputExists) else Err(Io)))
  }

  function Apply(id: Id, s: State, a: Action): State
    requires Enabled(s, a)
  {
    match a
    case Swap(file) => s.(staging := file)
    case Create(file) => s.(destination := Some(file))
    case Step(v) => Advance(id, s, v)
  }

  /** The state after these actions, if each is possible in its turn. */
  function After(id: Id, destination: Option<Id>, actions: seq<Action>): Option<State>
  {
    if actions == [] then Some(Start(id, destination))
    else
      var s := After(id, destination, actions[..|actions| - 1]);
      var a := actions[|actions| - 1];
      if s.None? || !Enabled(s.value, a) then None else Some(Apply(id, s.value, a))
  }

  /** Whether the move has already run. */
  predicate Past(phase: Phase)
  {
    phase.Rechecking? || (phase.Finished? && phase.result != Err(StagingFileReplaced))
  }

  ghost predicate Inv(id: Id, s: State)
  {
    // what was installed is still there, and is installed at most by the move
    && (s.installed.Some? ==> s.destination == s.installed && Past(s.phase))
    && (match s.phase
        case Rechecking(Moved) => s.installed.Some?
        case Rechecking(AlreadyExists) => s.installed.None? && s.destination.Some?
        case Finished(Ok(_)) => s.installed == Some(id)
        case Finished(Err(PublicationIdentityMismatch)) => s.installed.Some?
        case Finished(Err(PublishedButDurabilityUncertain)) => s.destination == Some(id)
        case Finished(Err(OutputExists)) => s.installed.None? && s.destination.Some?
        case _ => true)
  }

  lemma {:induction false} Reachable(id: Id, destination: Option<Id>, actions: seq<Action>)
    requires After(id, destination, actions).Some?
    ensures Inv(id, After(id, destination, actions).value)
    ensures destination.Some? ==>
      After(id, destination, actions).value.destination == destination
      && After(id, destination, actions).value.installed.None?
  {
    if actions != [] { Reachable(id, destination, actions[..|actions| - 1]); }
  }

  /** An existing destination is never replaced, whoever made it and whenever. */
  lemma {:induction false} NeverReplaces(id: Id, destination: Option<Id>, actions: seq<Action>, more: seq<Action>)
    requires After(id, destination, actions + more).Some?
    ensures After(id, destination, actions).Some?
    ensures After(id, destination, actions).value.destination.Some? ==>
      After(id, destination, actions + more).value.destination == After(id, destination, actions).value.destination
    decreases |more|
  {
    if more == [] {
      assert actions + more == actions;
    } else {
      var all := actions + more;
      assert all[..|all| - 1] == actions + more[..|more| - 1];
      NeverReplaces(id, destination, actions, more[..|more| - 1]);
    }
  }

  /** Success is reported only when the destination is the staged file and this run put it there; certain or not,
      publication is only reported when the destination identifies the staged file, and it then stays so. */
  lemma PublishedIsStaged(id: Id, destination: Option<Id>, actions: seq<Action>)
    requires After(id, destination, actions).Some?
    ensures var s := After(id, destination, actions).value;
            && (s.phase == Finished(Ok(())) ==> s.destination == Some(id) && s.installed == Some(id) && destination.None?)
            && (s.phase == Finished(Err(PublishedButDurabilityUncertain)) ==> s.destination == Some(id))
  {
    Reachable(id, destination, actions);
  }

  /** A file swapped in is always reported when the move itself reported success; and an error other than an
      identity mismatch or a late failure means that this run installed nothing. */
  lemma SwapIsReported(id: Id, destination: Option<Id>, actions: seq<Action>, v: Verdict)
    requires After(id, destination, actions).Some?
    ensures var s := After(id, destination, actions).value;
            && (s.phase == Rechecking(Moved) && s.installed != Some(id) ==>
                  Advance(id, s, v).phase == Finished(Err(PublicationIdentityMismatch)))
            && (s.phase == Comparing && s.staging != Some(id) ==>
                  Advance(id, s, v).phase == Finished(Err(StagingFileReplaced)))
            && (s.phase == Finished(Err(StagingFileReplaced)) || s.phase == Finished(Err(OutputExists)) ==> s.installed.None?)
  {
    Reachable(id, destination, actions);
  }

  lemma Next(id: Id, destination: Option<Id>, actions: seq<Action>, a: Action)
    requires After(id, destination, actions).Some? && Enabled(After(id, destination, actions).value, a)
    ensures After(id, destination, actions + [a]) == Some(Apply(id, After(id, destination, actions).value, a))
  {
    assert (actions + [a])[..|actions|] == actions;
  }

  /** The uncertain result does not say who installed the file: somebody else may have linked it there first. */
  lemma UncertainMayBeForeign(id: Id)
    ensures exists actions ::
              var s := After(id, None, actions);
              s.Some? && s.value.phase == Finished(Err(PublishedButDurabilityUncertain)) && s.value.installed.None?
  {
    hide After;
    var go := Step(Proceed);
    Begin(id);
    Next(id, None, [], go);
    var a1 := [] + [go];
    Next(id, None, a1, go);
    var a2 := a1 + [go];
    Next(id, None, a2, go);
    var a3 := a2 + [go];
    Next(id, None, a3, go);
    var a4 := a3 + [go];
    assert After(id, None, a4) == Some(State(Some(id), None, Moving, None));
    Next(id, None, a4, Create(id));
    var a5 := a4 + [Create(id)];
    Next(id, None, a5, go);
    var a6 := a5 + [go];
    assert After(id, None, a6) == Some(State(Some(id), Some(id), Rechecking(AlreadyExists), None));
    Next(id, None, a6, go);
    var s := After(id, None, a6 + [go]);
    assert s.Some? && s.value.phase == Finished(Err(PublishedButDurabilityUncertain)) && s.value.installed.None?;
  }

  /** And it can be this run's own doing: the move installs the file and then reports a failure. */
  lemma UncertainMayBeOwn(id: Id)
    ensures exists actions ::
              var s := After(id, None, actions);
              s.Some? && s.value.phase == Finished(Err(PublishedButDurabilityUncertain)) && s.value.installed == Some(id)
  {
    hide After;
    var go := Step(Proceed);
    Begin(id);
    Next(id, None, [], go);
    var a1 := [] + [go];
    Next(id, None, a1, go);
    var a2 := a1 + [go];
    Next(id, None, a2, go);
    var a3 := a2 + [go];
    Next(id, None, a3, go);
    var a4 := a3 + [go];
    Next(id, None, a4, Step(LateFail));
    var a5 := a4 + [Step(LateFail)];
    Next(id, None, a5, go);
    var s := After(id, None, a5 + [go]);
    assert s.Some? && s.value.phase == Finished(Err(PublishedButDurabilityUncertain)) && s.value.installed == Some(id);
  }

  lemma Begin(id: Id)
    ensures After(id, None, []) == Some(Start(id, None))
  {
  }

  /** Somebody created the destination in the course of the run. */
  ghost predicate CreatedBy(actions: seq<Action>, file: Id) { Create(file) in actions }

  /** Where a destination comes from: as long as there is none, nobody created it; one that the move did not
      install was there from the start or created by somebody; one that it did install was neither. */
  ghost predicate Origin(destination: Option<Id>, actions: seq<Action>, s: State)
  {
    && (s.destination.None? || s.installed.Some? ==> destination.None? && forall f: Id :: !CreatedBy(actions, f))
    && (s.destination.Some? && s.installed.None? ==> destination == s.destination || CreatedBy(actions, s.destination.value))
    && (forall f: Id :: CreatedBy(actions, f) ==> s.destination == Some(f))
    && (destination.Some? ==> s.destination == destination)
  }

  lemma {:induction false} DestinationOrigin(id: Id, destination: Option<Id>, actions: seq<Action>)
    requires After(id, destination, actions).Some?
    ensures Origin(destination, actions, After(id, destination, actions).value)
  {
    if actions != [] {
      var init, a := actions[..|actions| - 1], actions[|actions| - 1];
      DestinationOrigin(id, destination, init);
      Reachable(id, destination, init);
      assert actions == init + [a];
      assert forall f: Id :: CreatedBy(actions, f) <==> CreatedBy(init, f) || a == Create(f);
    }
  }

  /** Exactly when the uncertain result is about somebody else's doing, over whole runs: this run has installed
      nothing if and only if the staged file was at the destination from the start, or was put there by somebody. */
  lemma UncertainExactly(id: Id, destination: Option<Id>, actions: seq<Action>)
    requires After(id, destination, actions).Some?
    requires After(id, destination, actions).value.phase == Finished(Err(PublishedButDurabilityUncertain))
    ensures After(id, destination, actions).value.installed.None?
      <==> destination == Some(id) || Create(id) in actions
  {
    hide After;
    Reachable(id, destination, actions);
    DestinationOrigin(id, destination, actions);
    assert CreatedBy(actions, id) <==> Create(id) in actions;
  }

  /** The file system as `commit` meets it: before every call, somebody else takes any number of actions. */
  class StagedFile {
    const id: Id
    const others: nat -> seq<Action>
    const verdicts: nat -> Verdict
    ghost const start: Option<Id>
    var state: State
    var clock: nat
    ghost var log: seq<Action>

    constructor (id: Id, destination: Option<Id>, others: nat -> seq<Action>, verdicts: nat -> Verdict)
      ensures Valid() && state == Start(id, destination) && this.id == id && start == destination
    {
      this.id, this.others, this.verdicts, start := id, others, verdicts, destination;
      state, clock, log := Start(id, destination), 0, [];
    }

    /** The state is what the recorded actions lead to. */
    ghost predicate Valid()
      reads this
    {
      After(id, start, log) == Some(state)
    }

    /** Whatever others do; what is not possible for them does not happen. */
    method Interfere()
      requires Valid()
      modifies this`state, this`log
      ensures Valid() && state.phase == old(state.phase) && state.installed == old(state.installed)
      ensures others(clock) == [] ==> state == old(state)
      ensures old(state.destination).Some? ==> state.destination == old(state.destination)
    {
      var actions := others(clock);
      for i := 0 to |actions|
        invariant Valid() && state.phase == old(state.phase) && state.installed == old(state.installed)
        invariant i == 0 ==> state == old(state)
        invariant old(state.destination).Some? ==> state.destination == old(state.destination)
      {
        if !actions[i].Step? && Enabled(state, actions[i]) {
          Next(id, start, log, actions[i]);
          log := log + [actions[i]];
          state := Apply(id, state, actions[i]);
        }
      }
    }

    /** One call: others first, then the call itself. */
    method Call()
      requires Valid() && !state.phase.Finished?
      modifies this
      ensures Valid() && Left(state.phase) < Left(old(state.phase))
      ensures clock == old(clock) + 1
      ensures others(old(clock)) == [] ==> state == Advance(id, old(state), verdicts(old(clock)))
      ensures exists before: State :: before.phase == old(state.phase) && state == Advance(id, before, verdicts(old(clock)))
    {
      Interfere();
      var v := verdicts(clock);
      Next(id, start, log, Step(v));
      ghost var before := state;
      log, clock := log + [Step(v)], clock + 1;
      state := Advance(id, state, v);
      assert before.phase == old(state.phase) && state == Advance(id, before, verdicts(old(clock)));
    }

    /** The part of `commit` before the move. */
    method Prepare()
      requires Valid() && state.phase == Flushing
      modifies this
      ensures Valid() && Left(state.phase) <= 2
      ensures (forall t :: others(t) == [] && verdicts(t) == Proceed) && old(state) == Start(id, None) ==>
        state == State(Some(id), None, Moving, None)
    {
      hide After;
      Call(); // flush
      if !state.phase.Finished? { Call(); } // sync
      if !state.phase.Finished? { Call(); } // identity of the open file
      if !state.phase.Finished? { Call(); } // identity of the staging path
    }

    /** `commit`: the calls in their order until one decides. */
    method Commit() returns (r: Result<(), Error>)
      requires Valid() && state.phase == Flushing
      modifies this
      ensures Valid() && state.phase == Finished(r)
      ensures r.Ok? ==> state.destination == Some(id) && state.installed == Some(id) && start.None?
      ensures r == Err(PublishedButDurabilityUncertain) ==>
        && state.destination == Some(id)
        && (state.installed.None? <==> start == Some(id) || Create(id) in log)
      ensures r == Err(StagingFileReplaced) || r == Err(OutputExists) ==> state.installed.None?
      ensures start.Some? ==> state.destination == start
      // Undisturbed, with a free destination, it succeeds.
      ensures (forall t :: others(t) == [] && verdicts(t) == Proceed) && old(state) == Start(id, None) ==> r.Ok?
    {
      hide After;
      Prepare();
      if !state.phase.Finished? { Call(); } // move
      if !state.phase.Finished? { Call(); } // identity of the destination
      r := state.phase.result;
      Reachable(id, start, log);
      if r == Err(PublishedButDurabilityUncertain) { UncertainExactly(id, start, log); }
    }
  }

  /** How many calls are left at most. */
  function Left(phase: Phase): nat
  {
    match phase
    case Flushing => 6
    case Syncing => 5
    case Identifying => 4
    case Comparing => 3
    case Moving => 2
    case Rechecking(_) => 1
    case Finished(_) => 0
  }
}
