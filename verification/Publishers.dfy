/** Any number of publishers racing for one name, interleaved call by call. */
module Publishers {
  import opened Bytes
  import opened UnixFs

  type Proc = nat

  /** A publisher's private file: its temporary name and what it is. */
  datatype Job = Job(temp: Name, file: Entry)

  datatype Phase =
    | Renaming
    | Linking                   // rename-without-replace is not supported here
    | Withdrawing(present: bool) // not installed; the temporary is to be removed
    | Unlinking                 // installed by link; the temporary is to be removed
    | Finished(result: Result<(), PublishError>)

  datatype State = State(world: World, phases: map<Proc, Phase>)

  /** One system call of one publisher. */
  function Step(s: State, jobs: map<Proc, Job>, target: Name, p: Proc): (s': State)
    requires p in s.phases && p in jobs
    ensures p in s'.phases && s'.phases == s.phases[p := s'.phases[p]]
    ensures s'.phases.Keys == s.phases.Keys
  {
    var temp := jobs[p].temp;
    match s.phases[p]
    case Renaming =>
      var (r, w) := RenameNoReplace(s.world, temp, target);
      State(w, s.phases[p := match r
                             case Done => Finished(Ok(()))
                             case Exists => Withdrawing(true)
                             case NotSupported => Linking
                             case _ => Withdrawing(false)])
    case Linking =>
      var (r, w) := Link(s.world, temp, target);
      State(w, s.phases[p := if r.Done? then Unlinking else Withdrawing(r.Exists?)])
    case Withdrawing(present) =>
      var (left, w) := Cleanup(s.world, temp);
      State(w, s.phases[p := Finished(Err(BeforeInstall(present, left)))])
    case Unlinking =>
      var (left, w) := Cleanup(s.world, temp);
      State(w, s.phases[p := Finished(if left.None? then Ok(()) else Err(InstalledButTemporaryRemains(temp)))])
    case Finished(_) => s
  }

  predicate Installed(ph: Phase)
  {
    ph.Unlinking? || (ph.Finished? && (ph.result.Ok? || ph.result.error.InstalledButTemporaryRemains?))
  }

  /** Whether the publisher's temporary name is still there. */
  predicate Staged(ph: Phase)
  {
    ph.Finished? ==> ph.result.Err? && (ph.result.error.BeforeInstall? ==> ph.result.error.cleanup.Some?)
  }

  function At(w: World, n: Name): Option<Entry> { if n in w.entries then Some(w.entries[n]) else None }

  ghost predicate WellFormed(jobs: map<Proc, Job>, target: Name)
  {
    && (forall p :: p in jobs ==> jobs[p].file.Own? && jobs[p].temp != target)
    && (forall p, q :: p in jobs && q in jobs && p != q ==> jobs[p].temp != jobs[q].temp && jobs[p].file != jobs[q].file)
  }

  ghost predicate Start(s: State, jobs: map<Proc, Job>, target: Name)
  {
    && s.phases.Keys == jobs.Keys && (forall p :: p in s.phases ==> s.phases[p] == Renaming)
    && (forall p :: p in jobs ==> At(s.world, jobs[p].temp) == Some(jobs[p].file))
    && (target in s.world.entries ==> s.world.entries[target].Foreign?)
  }

  /** A temporary is where it should be, and the target holds a publisher's file exactly when it has installed it. */
  predicate Fits(ph: Phase, temp: Option<Entry>, slot: Option<Entry>, file: Entry)
  {
    (Staged(ph) ==> temp == Some(file)) && (Installed(ph) <==> slot == Some(file))
  }

  ghost predicate Inv(s: State, jobs: map<Proc, Job>, target: Name)
  {
    && s.phases.Keys == jobs.Keys
    && forall p :: p in jobs ==> Fits(s.phases[p], At(s.world, jobs[p].temp), At(s.world, target), jobs[p].file)
  }

  /** The specification: one atomic "install if absent". Before it, somebody else may take the free name. */
  ghost predicate AtomicStep(before: Option<Entry>, after: Option<Entry>, file: Entry, won: bool, lost: bool)
  {
    if won then before.None? && after == Some(file)
    else (before.Some? ==> after == before) && (after.Some? && before.None? ==> after.value.Foreign?) && (lost ==> after.Some?)
  }

  /** A name this call does not concern: it keeps its entry, or may be taken by somebody else if free. */
  predicate Drift(before: Option<Entry>, after: Option<Entry>)
  {
    if before.Some? then after == before else after.None? || after.value.Foreign?
  }

  lemma RenameAt(w: World, from: Name, to: Name)
    requires At(w, from).Some? && from != to
    ensures var (r, w') := RenameNoReplace(w, from, to);
            && (r.Done? || r.Exists? || r.NotSupported? || r.Failed?)
            && (r.Done? ==> At(w, to).None? && At(w', to) == At(w, from) && At(w', from).None?)
            && (r.Exists? ==> At(w', to).Some?)
            && forall n :: (r.Done? && (n == from || n == to)) || Drift(At(w, n), At(w', n))
  {
  }

  lemma LinkAt(w: World, from: Name, to: Name)
    requires At(w, from).Some? && from != to
    ensures var (r, w') := Link(w, from, to);
            && (r.Done? ==> At(w, to).None? && At(w', to) == At(w, from))
            && (r.Exists? ==> At(w', to).Some?)
            && forall n :: (r.Done? && n == to) || Drift(At(w, n), At(w', n))
  {
  }

  lemma CleanupAt(w: World, temp: Name)
    requires At(w, temp).Some?
    ensures var (left, w') := Cleanup(w, temp);
            && (left.None? ==> At(w', temp).None?) && (left.Some? ==> left.value == temp)
            && forall n :: (left.None? && n == temp) || Drift(At(w, n), At(w', n))
  {
  }

  /** What one step does to the target, to this publisher and to names it does not use. */
  ghost predicate StepEffect(s: State, s': State, job: Job, target: Name, p: Proc)
    requires p in s.phases && p in s'.phases
  {
    && Fits(s'.phases[p], At(s'.world, job.temp), At(s'.world, target), job.file)
    && AtomicStep(At(s.world, target), At(s'.world, target), job.file,
                  Installed(s'.phases[p]) && !Installed(s.phases[p]), s'.phases[p] == Withdrawing(true) != s.phases[p])
    && (Installed(s.phases[p]) ==> Installed(s'.phases[p]))
    && forall n :: n != job.temp && n != target ==> Drift(At(s.world, n), At(s'.world, n))
  }

  lemma InstallStep(s: State, jobs: map<Proc, Job>, target: Name, p: Proc)
    requires p in jobs && p in s.phases && jobs[p].file.Own? && jobs[p].temp != target
    requires s.phases[p].Renaming? || s.phases[p].Linking?
    requires Fits(s.phases[p], At(s.world, jobs[p].temp), At(s.world, target), jobs[p].file)
    ensures StepEffect(s, Step(s, jobs, target, p), jobs[p], target, p)
  {
    hide At, RenameNoReplace, Link;
    if s.phases[p].Renaming? {
      RenameAt(s.world, jobs[p].temp, target);
    } else {
      LinkAt(s.world, jobs[p].temp, target);
    }
  }

  lemma CleanupStep(s: State, jobs: map<Proc, Job>, target: Name, p: Proc)
    requires p in jobs && p in s.phases && jobs[p].file.Own? && jobs[p].temp != target
    requires !s.phases[p].Renaming? && !s.phases[p].Linking?
    requires Fits(s.phases[p], At(s.world, jobs[p].temp), At(s.world, target), jobs[p].file)
    ensures StepEffect(s, Step(s, jobs, target, p), jobs[p], target, p)
  {
    hide At, Cleanup;
    if !s.phases[p].Finished? { CleanupAt(s.world, jobs[p].temp); }
  }

  lemma StepKeeps(s: State, jobs: map<Proc, Job>, target: Name, p: Proc)
    requires WellFormed(jobs, target) && Inv(s, jobs, target) && p in jobs
    ensures StepEffect(s, Step(s, jobs, target, p), jobs[p], target, p)
    ensures Inv(Step(s, jobs, target, p), jobs, target)
  {
    hide At, Step, Staged, Installed;
    if s.phases[p].Renaming? || s.phases[p].Linking? {
      InstallStep(s, jobs, target, p);
    } else {
      CleanupStep(s, jobs, target, p);
    }
    var s' := Step(s, jobs, target, p);
    forall q | q in jobs && q != p
      ensures Fits(s'.phases[q], At(s'.world, jobs[q].temp), At(s'.world, target), jobs[q].file)
    {
      assert Drift(At(s.world, jobs[q].temp), At(s'.world, jobs[q].temp));
    }
  }

  /** Running the publishers in the order of a schedule, one call at a time. */
  function Run(s: State, jobs: map<Proc, Job>, target: Name, schedule: seq<Proc>): (end: State)
    requires jobs.Keys <= s.phases.Keys && forall p :: p in schedule ==> p in jobs
    ensures end.phases.Keys == s.phases.Keys
    decreases schedule
  {
    if schedule == [] then s else Run(Step(s, jobs, target, schedule[0]), jobs, target, schedule[1..])
  }

  lemma StartInv(s: State, jobs: map<Proc, Job>, target: Name)
    requires WellFormed(jobs, target) && Start(s, jobs, target)
    ensures Inv(s, jobs, target)
  {
  }

  /** Over every schedule: an existing entry is never replaced, and nobody who has installed ever loses. */
  lemma {:induction false} RunKeeps(s: State, jobs: map<Proc, Job>, target: Name, schedule: seq<Proc>)
    requires WellFormed(jobs, target) && Inv(s, jobs, target) && forall p :: p in schedule ==> p in jobs
    ensures var end := Run(s, jobs, target, schedule);
            && Inv(end, jobs, target)
            && (At(s.world, target).Some? ==> At(end.world, target) == At(s.world, target))
            && (forall p :: p in jobs && Installed(s.phases[p]) ==> Installed(end.phases[p]))
    decreases schedule
  {
    hide At, Step;
    if schedule != [] {
      var p := schedule[0];
      StepKeeps(s, jobs, target, p);
      RunKeeps(Step(s, jobs, target, p), jobs, target, schedule[1..]);
    }
  }

  /** At most one publisher installs; the entry is the winner's file; and somebody else's entry means nobody won. */
  lemma OneWinner(s: State, jobs: map<Proc, Job>, target: Name, schedule: seq<Proc>, p: Proc)
    requires WellFormed(jobs, target) && Start(s, jobs, target) && forall q :: q in schedule ==> q in jobs
    requires p in jobs
    ensures var end := Run(s, jobs, target, schedule);
            && p in end.phases
            && (Installed(end.phases[p]) <==> At(end.world, target) == Some(jobs[p].file))
            && (forall q :: q in jobs && q != p && Installed(end.phases[p]) ==> q in end.phases && !Installed(end.phases[q]))
            && (At(s.world, target).Some? ==> At(end.world, target) == At(s.world, target) && !Installed(end.phases[p]))
  {
    StartInv(s, jobs, target);
    RunKeeps(s, jobs, target, schedule);
  }

  /** A publisher that runs alone computes `publish_noclobber`. */
  lemma AloneIsPublish(s: State, jobs: map<Proc, Job>, target: Name, p: Proc)
    requires p in jobs && jobs.Keys <= s.phases.Keys && s.phases[p] == Renaming
    ensures var end := Run(s, jobs, target, [p, p, p]);
            end.phases[p] == Finished(Publish(s.world, jobs[p].temp, target).0)
            && end.world == Publish(s.world, jobs[p].temp, target).1
  {
    hide RenameNoReplace, Link, Unlink;
    var s1 := Step(s, jobs, target, p);
    var s2 := Step(s1, jobs, target, p);
    var s3 := Step(s2, jobs, target, p);
    assert [p, p, p][1..] == [p, p] && [p, p][1..] == [p] && [p][1..] == [];
    assert Run(s3, jobs, target, []) == s3;
    assert Run(s2, jobs, target, [p]) == s3;
    assert Run(s1, jobs, target, [p, p]) == s3;
  }
}
