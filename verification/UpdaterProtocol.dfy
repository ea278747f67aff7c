/**
 * Overlapping updater runs (src/firehol/mod.rs, `update_and_build_mmdb` with its `update_lock`;
 * src/firehol/builder.rs, `TempFile`), one system call at a time.
 */
module UpdaterProtocol {
  import opened Wrappers
  import opened Updater

  /** A file on the disk: the commit it was built from, whether all its bytes are there, its time. */
  datatype DiskFile = DiskFile(commit: i64, complete: bool, mtime: int)

  /** How far the run that holds the lock got, and the commit time of its tip. */
  datatype Stage =
    | Locked
    | Tipped(commit: i64)
    | Newest(commit: i64)
    | Encoded(commit: i64)
    | Writing(commit: i64)
    | Written(commit: i64)
    | Synced(commit: i64)

  datatype Outcome = Busy | Unchanged | Empty | Negative | Failed | Built

  datatype Return = Return(id: nat, outcome: Outcome, commit: Option<i64>)

  /** The last build: its commit time, and the clock when it last wrote to its file. */
  datatype Build = Build(commit: i64, written: int)

  /**
   * `leaked` says that an exit left the temporary file behind: its removal failed, or the process died.
   * `lastWrite` is the clock at the last complete write of a temporary file, and `standing` the last build
   * unless the environment has touched or deleted the database since.
   */
  datatype State = State(
    now: int,
    database: Option<DiskFile>,
    temp: Option<DiskFile>,
    leaked: bool,
    lock: Option<nat>,
    runs: map<nat, Stage>,
    builds: seq<i64>,
    returned: seq<Return>,
    lastWrite: int,
    standing: Option<Build>)

  const INIT := State(0, None, None, false, None, map[], [], [], 0, None)

  /** Steps of the environment, then steps of run `id`. A step that is not possible does nothing. */
  datatype Step =
    | Tick(delay: int)
    | Touch(mtime: int)
    | Delete
    | Crash
    | Begin(id: nat)
    | Tip(id: nat, commit: i64)
    | Stat(id: nat)
    | Encode(id: nat, networks: nat)
    | Create(id: nat)
    | WriteSome(id: nat)
    | WriteAll(id: nat)
    | Sync(id: nat)
    | Rename(id: nat)
    | Fail(id: nat, removed: bool)

  predicate IsEnvironment(step: Step) {
    step.Tick? || step.Touch? || step.Delete? || step.Crash?
  }

  /** The run has a temporary file of its own. */
  predicate Owns(stage: Stage) {
    stage.Writing? || stage.Written? || stage.Synced?
  }

  function DatabaseEpoch(s: State): (e: i64)
    ensures 0 <= e
  {
    match s.database case Some(file) => Epoch(file.mtime) case None => 0
  }

  function CommitOf(stage: Stage): Option<i64> {
    if stage.Locked? then None else Some(stage.commit)
  }

  /** The run ends and the lock is free again. */
  function Exit(s: State, id: nat, outcome: Outcome): State
    requires id in s.runs
  {
    s.(lock := None, runs := s.runs - {id},
       returned := s.returned + [Return(id, outcome, CommitOf(s.runs[id]))])
  }

  /** `update_lock.try_lock()` */
  function Start(s: State, id: nat): State {
    if id in s.runs then s
    else if s.lock.Some? then s.(returned := s.returned + [Return(id, Busy, None)])
    else s.(lock := Some(id), runs := s.runs[id := Locked])
  }

  /** Dropping the `TempFile` on the way out of a failed run. */
  function Abandon(s: State, id: nat, removed: bool): State
    requires id in s.runs
  {
    if !Owns(s.runs[id]) then s
    else if removed then s.(temp := None)
    else s.(leaked := true)
  }

  function Environment(s: State, step: Step): State
    requires IsEnvironment(step)
  {
    match step
    case Tick(delay) => s.(now := s.now + delay)
    case Touch(mtime) =>
      if s.database.Some? then s.(database := Some(s.database.value.(mtime := mtime)), standing := None) else s
    case Delete => s.(database := None, standing := None)
    case Crash =>
      s.(lock := None, runs := map[], leaked := s.leaked || exists id :: id in s.runs && Owns(s.runs[id]))
  }

  /** The step of the run `id`, which is at `stage`. */
  function Advance(s: State, id: nat, stage: Stage, step: Step): State
    requires id in s.runs && s.runs[id] == stage && !IsEnvironment(step)
  {
    match (step, stage)
    case (Tip(_, commit), Locked) => s.(runs := s.runs[id := Tipped(commit)])
    case (Stat(_), Tipped(commit)) =>
      if commit <= DatabaseEpoch(s) then Exit(s, id, Unchanged)
      else s.(runs := s.runs[id := Newest(commit)])
    case (Encode(_, networks), Newest(commit)) =>
      if networks == 0 then Exit(s, id, Empty)
      else if commit < 0 then Exit(s, id, Negative)
      else s.(runs := s.runs[id := Encoded(commit)])
    case (Create(_), Encoded(commit)) =>
      s.(runs := s.runs[id := Writing(commit)], temp := Some(DiskFile(commit, false, s.now)), leaked := false)
    case (WriteSome(_), Writing(commit)) =>
      s.(temp := Some(DiskFile(commit, false, s.now)))
    case (WriteAll(_), Writing(commit)) =>
      s.(runs := s.runs[id := Written(commit)], temp := Some(DiskFile(commit, true, s.now)), lastWrite := s.now)
    case (Sync(_), Written(commit)) => s.(runs := s.runs[id := Synced(commit)])
    case (Rename(_), Synced(commit)) =>
      Exit(s.(database := s.temp, temp := None, builds := s.builds + [commit],
              standing := Some(Build(commit, s.lastWrite))),
           id, Built)
    case (Fail(_, removed), _) => Exit(Abandon(s, id, removed), id, Failed)
    case _ => s
  }

  function Next(s: State, step: Step): State {
    if IsEnvironment(step) then Environment(s, step)
    else if step.Begin? then Start(s, step.id)
    else if step.id in s.runs then Advance(s, step.id, s.runs[step.id], step)
    else s
  }

  function After(steps: seq<Step>): State {
    if steps == [] then INIT else Next(After(steps[..|steps| - 1]), steps[|steps| - 1])
  }

  // ----- what every step keeps -----

  ghost predicate LockInv(s: State) {
    match s.lock
    case None => s.runs == map[]
    case Some(id) => s.runs.Keys == {id}
  }

  /** What a run knows at its stage. */
  ghost predicate StageInv(s: State, stage: Stage) {
    && (Owns(stage) ==> s.temp.Some? && s.temp.value.commit == stage.commit && !s.leaked)
    && (stage.Written? || stage.Synced? ==> s.temp.value.complete && s.temp.value.mtime == s.lastWrite)
    && (!stage.Locked? && !stage.Tipped? ==> 0 < stage.commit)
  }

  ghost predicate TempInv(s: State) {
    s.temp.Some? ==> s.leaked || exists id :: id in s.runs && Owns(s.runs[id])
  }

  ghost predicate Inv(s: State) {
    && LockInv(s)
    && (forall id :: id in s.runs ==> StageInv(s, s.runs[id]))
    && TempInv(s)
    && (s.database.Some? ==> s.database.value.complete)
    && (s.standing.Some? ==>
          && s.database == Some(DiskFile(s.standing.value.commit, true, s.standing.value.written))
          && s.builds != [] && s.builds[|s.builds| - 1] == s.standing.value.commit
          && 0 < s.standing.value.commit)
    && (forall r :: r in s.returned ==> r.outcome != Negative)
  }

  lemma NextKeeps(s: State, step: Step)
    requires Inv(s)
    ensures Inv(Next(s, step))
  {
    hide DatabaseEpoch;
    if !IsEnvironment(step) && step.id in s.runs {
      assert s.runs.Keys == {step.id};
      AdvanceKeeps(s, step.id, s.runs[step.id], step);
    }
  }

  lemma AdvanceKeeps(s: State, id: nat, stage: Stage, step: Step)
    requires Inv(s) && !IsEnvironment(step)
    requires s.runs.Keys == {id} && s.runs[id] == stage && s.lock == Some(id)
    ensures Inv(Advance(s, id, stage, step))
  {
    hide DatabaseEpoch;
    assert (s.runs - {id}).Keys == {};
  }

  lemma {:induction false} Always(steps: seq<Step>)
    ensures Inv(After(steps))
  {
    if steps != [] {
      Always(steps[..|steps| - 1]);
      NextKeeps(After(steps[..|steps| - 1]), steps[|steps| - 1]);
    }
  }

  /** At most one run is past the lock, and it is the one that holds it. */
  lemma OneRunAtATime(steps: seq<Step>, a: nat, b: nat)
    requires a in After(steps).runs && b in After(steps).runs
    ensures a == b && After(steps).lock == Some(a)
  {
    Always(steps);
  }

  /** The database path never holds a partial file, whatever fails, overlaps or dies. */
  lemma DatabaseIsComplete(steps: seq<Step>)
    ensures After(steps).database.Some? ==> After(steps).database.value.complete
  {
    Always(steps);
  }

  /**
   * Only a rename by the run holding the lock puts another file at the database path, and then it is
   * the complete file that run wrote for its tip.
   */
  lemma OldOrNew(steps: seq<Step>, step: Step)
    requires !IsEnvironment(step)
    ensures
      var s, t := After(steps), Next(After(steps), step);
      || t.database == s.database
      || (&& step.Rename? && s.lock == Some(step.id) && s.runs[step.id].Synced?
          && t.database == s.temp && t.database.Some?
          && t.database.value.complete && t.database.value.commit == s.runs[step.id].commit)
  {
    Always(steps);
  }

  /**
   * A temporary file exists only while its run is between creating and renaming it, or after an exit
   * that could not remove it.
   */
  lemma TempIsOwned(steps: seq<Step>)
    ensures
      var s := After(steps);
      s.temp.Some? && !s.leaked ==>
        s.lock.Some? && s.lock.value in s.runs && Owns(s.runs[s.lock.value])
        && s.runs[s.lock.value].commit == s.temp.value.commit
    ensures After(steps).lock.None? && !After(steps).leaked ==> After(steps).temp.None?
  {
    Always(steps);
  }

  /** The error for a commit before 1970 is never reported: such a commit is older than any file. */
  lemma NegativeIsUnreachable(steps: seq<Step>, r: Return)
    requires r in After(steps).returned
    ensures r.outcome != Negative
  {
    Always(steps);
  }

  /** A run that finds the lock taken is told so and changes nothing else. */
  lemma BusyReturns(steps: seq<Step>, id: nat)
    requires After(steps).lock.Some? && id !in After(steps).runs
    ensures
      var s := After(steps);
      Next(s, Begin(id)) == s.(returned := s.returned + [Return(id, Busy, None)])
  {}

  /**
   * However a run fails, and when the lists of its tip hold no entry, the lock is free again and the
   * database is what it was. The temporary file of a failed run is gone, unless it cannot be removed.
   */
  lemma FailureReleases(steps: seq<Step>, id: nat, removed: bool)
    requires id in After(steps).runs
    ensures
      var s := After(steps);
      var t := Next(s, Fail(id, removed));
      && t.lock.None? && t.runs == map[] && t.database == s.database && t.builds == s.builds
      && t.returned == s.returned + [Return(id, Failed, CommitOf(s.runs[id]))]
      && (Owns(s.runs[id]) ==> (t.temp.None? <==> removed) && (t.leaked <==> !removed))
      && (!Owns(s.runs[id]) ==> t.temp == s.temp && t.leaked == s.leaked)
    ensures
      var s := After(steps);
      s.runs[id].Newest? ==>
        Next(s, Encode(id, 0)) ==
        s.(lock := None, runs := map[], returned := s.returned + [Return(id, Empty, Some(s.runs[id].commit))])
  {
    Always(steps);
    var s := After(steps);
    hide After, DatabaseEpoch;
    assert s.runs.Keys == {id};
    assert s.runs - {id} == map[];
    assert StageInv(s, s.runs[id]);
  }

  // ----- when clocks behave -----

  /**
   * Clocks and modification times do not go back, the database is not deleted, and tips are not from
   * the future.
   */
  predicate Calm(s: State, step: Step) {
    match step
    case Tick(delay) => 0 <= delay
    case Touch(mtime) => s.database.Some? ==> s.database.value.mtime <= mtime
    case Delete => false
    case Tip(_, commit) => commit * NANOS <= s.now
    case _ => true
  }

  predicate CalmRun(steps: seq<Step>) {
    steps != [] ==>
      && CalmRun(steps[..|steps| - 1])
      && Calm(After(steps[..|steps| - 1]), steps[|steps| - 1])
  }

  predicate Increasing(commits: seq<i64>) {
    forall i, j :: 0 <= i < j < |commits| ==> commits[i] < commits[j]
  }

  ghost predicate Past(stage: Stage, s: State) {
    && (!stage.Locked? ==> stage.commit * NANOS <= s.now)
    && (!stage.Locked? && !stage.Tipped? ==> forall c :: c in s.builds ==> c < stage.commit)
    && (stage.Written? || stage.Synced? ==> s.temp.Some? && stage.commit * NANOS <= s.temp.value.mtime)
  }

  ghost predicate CalmInv(s: State) {
    && Increasing(s.builds)
    && (forall c :: c in s.builds ==> 0 < c && s.database.Some? && c * NANOS <= s.database.value.mtime)
    && (forall id :: id in s.runs ==> Past(s.runs[id], s))
  }

  lemma CalmKeeps(s: State, step: Step)
    requires Inv(s) && CalmInv(s) && Calm(s, step)
    ensures CalmInv(Next(s, step))
  {
    if IsEnvironment(step) || step.Begin? {
      CalmOutside(s, step);
    } else if step.id in s.runs {
      assert s.runs.Keys == {step.id};
      CalmInside(s, step.id, s.runs[step.id], step);
    }
  }

  lemma CalmOutside(s: State, step: Step)
    requires CalmInv(s) && Calm(s, step) && (IsEnvironment(step) || step.Begin?)
    ensures CalmInv(Next(s, step))
  {
    hide DatabaseEpoch;
  }

  lemma CalmInside(s: State, id: nat, stage: Stage, step: Step)
    requires CalmInv(s) && Calm(s, step) && !IsEnvironment(step)
    requires s.runs.Keys == {id} && s.runs[id] == stage && StageInv(s, stage)
    ensures CalmInv(Advance(s, id, stage, step))
  {
    hide DatabaseEpoch;
    if step.Stat? && stage.Tipped? {
      SkipsBuilt(s, stage.commit);
    }
    if step.Rename? && stage.Synced? {
      IncreasingAppend(s.builds, stage.commit);
    }
  }

  lemma IncreasingAppend(commits: seq<i64>, commit: i64)
    requires Increasing(commits) && forall c :: c in commits ==> c < commit
    ensures Increasing(commits + [commit])
  {
    forall i, j | 0 <= i < j < |commits| + 1 ensures (commits + [commit])[i] < (commits + [commit])[j] {
      assert commits[i] in commits;
    }
  }

  /** A commit at most as new as some build is not newer than the database. */
  lemma SkipsBuilt(s: State, commit: i64)
    requires CalmInv(s)
    ensures commit > DatabaseEpoch(s) ==> forall c :: c in s.builds ==> c < commit
  {
    forall c | c in s.builds ensures c <= DatabaseEpoch(s) {}
  }

  lemma {:induction false} AlwaysCalm(steps: seq<Step>)
    requires CalmRun(steps)
    ensures CalmInv(After(steps))
  {
    if steps != [] {
      var prefix := steps[..|steps| - 1];
      AlwaysCalm(prefix);
      Always(prefix);
      CalmKeeps(After(prefix), steps[|steps| - 1]);
    }
  }

  /** Successive builds are of strictly newer commits. */
  lemma BuildsAdvance(steps: seq<Step>, i: nat, j: nat)
    requires CalmRun(steps) && i < j < |After(steps).builds|
    ensures After(steps).builds[i] < After(steps).builds[j]
  {
    AlwaysCalm(steps);
  }

  /** A tip that was built before, or is older, is skipped. */
  lemma UnchangedTipIsSkipped(steps: seq<Step>, id: nat, commit: i64, c: i64)
    requires CalmRun(steps)
    requires id in After(steps).runs && After(steps).runs[id] == Tipped(commit)
    requires c in After(steps).builds && commit <= c
    ensures Next(After(steps), Stat(id)) == Exit(After(steps), id, Unchanged)
  {
    AlwaysCalm(steps);
    SkipsBuilt(After(steps), commit);
  }

  // ----- when they do not -----

  /** A commit time is not newer than a standing build iff it is not after 1970, or not after its last write. */
  lemma StandingDecides(s: State, commit: i64)
    requires Inv(s) && s.standing.Some?
    ensures commit <= DatabaseEpoch(s) <==> commit <= 0 || commit * NANOS <= s.standing.value.written
  {}

  /**
   * In every run, whatever the clock did since: while a build stands, a run skips its tip if and only if
   * the commit is not dated after the clock at the last write of that build. In particular the commit that
   * was built is built again by the next run if and only if it was from the future when it was written.
   */
  lemma SkipsIffWrittenLater(steps: seq<Step>, id: nat, commit: i64)
    requires id in After(steps).runs && After(steps).runs[id] == Tipped(commit)
    requires After(steps).standing.Some?
    ensures
      var s := After(steps);
      Next(s, Stat(id)) ==
      if commit <= 0 || commit * NANOS <= s.standing.value.written then Exit(s, id, Unchanged)
      else s.(runs := s.runs[id := Newest(commit)])
  {
    hide After;
    Always(steps);
    StandingDecides(After(steps), commit);
  }

  /** The steps of a run that builds a new commit, from the free lock on. */
  function BuildSteps(id: nat, commit: i64): seq<Step> {
    [Begin(id), Tip(id, commit), Stat(id), Encode(id, 1), Create(id), WriteAll(id), Sync(id), Rename(id)]
  }

  function Run(s: State, steps: seq<Step>): State
    decreases |steps|
  {
    if steps == [] then s else Run(Next(s, steps[0]), steps[1..])
  }

  lemma {:induction false} RunContinues(before: seq<Step>, steps: seq<Step>)
    ensures Run(After(before), steps) == After(before + steps)
    decreases |steps|
  {
    if steps == [] {
      assert before + steps == before;
    } else {
      var first := before + [steps[0]];
      assert first[..|before|] == before;
      RunContinues(first, steps[1..]);
      assert first + steps[1..] == before + steps;
    }
  }

  lemma RunFirst(s: State, step: Step, rest: seq<Step>)
    ensures Run(s, [step] + rest) == Run(Next(s, step), rest)
  {
    assert ([step] + rest)[1..] == rest;
  }

  /** The first steps decide whether the run goes on. */
  lemma RunStat(s: State, id: nat, commit: i64)
    requires s.lock.None? && s.runs == map[]
    ensures
      Run(s, BuildSteps(id, commit)) ==
      Run(if commit <= DatabaseEpoch(s) then s.(returned := s.returned + [Return(id, Unchanged, Some(commit))])
          else s.(lock := Some(id), runs := map[id := Newest(commit)]),
          BuildSteps(id, commit)[3..])
  {
    hide Run, Next, DatabaseEpoch;
    var steps := BuildSteps(id, commit);
    var s1 := s.(lock := Some(id), runs := map[id := Locked]);
    var s2 := s1.(runs := map[id := Tipped(commit)]);
    BeginStep(s, id);
    TipStep(s1, id, commit);
    StatStep(s2, id, commit);
    assert DatabaseEpoch(s2) == DatabaseEpoch(s) by { SameDatabase(s, s2); }
    RunFirst(s, Begin(id), steps[1..]);
    RunFirst(s1, Tip(id, commit), steps[2..]);
    RunFirst(s2, Stat(id), steps[3..]);
    assert steps == [Begin(id)] + steps[1..] && steps[1..] == [Tip(id, commit)] + steps[2..];
    assert steps[2..] == [Stat(id)] + steps[3..];
  }

  lemma SameDatabase(s: State, t: State)
    requires s.database == t.database
    ensures DatabaseEpoch(s) == DatabaseEpoch(t)
  {}

  lemma BeginStep(s: State, id: nat)
    requires s.lock.None? && s.runs == map[]
    ensures Next(s, Begin(id)) == s.(lock := Some(id), runs := map[id := Locked])
  {
    assert s.runs[id := Locked] == map[id := Locked];
  }

  lemma TipStep(s: State, id: nat, commit: i64)
    requires s.runs == map[id := Locked]
    ensures Next(s, Tip(id, commit)) == s.(runs := map[id := Tipped(commit)])
  {
    assert s.runs[id := Tipped(commit)] == map[id := Tipped(commit)];
  }

  lemma StatStep(s: State, id: nat, commit: i64)
    requires s.runs == map[id := Tipped(commit)]
    ensures
      Next(s, Stat(id)) ==
      if commit <= DatabaseEpoch(s) then
        s.(lock := None, runs := map[], returned := s.returned + [Return(id, Unchanged, Some(commit))])
      else s.(runs := map[id := Newest(commit)])
  {
    hide DatabaseEpoch;
    assert s.runs - {id} == map[];
    assert s.runs[id := Newest(commit)] == map[id := Newest(commit)];
  }

  /** Steps of a run that is over do nothing. */
  lemma {:induction false} RunOver(s: State, steps: seq<Step>, id: nat)
    requires id !in s.runs
    requires forall step :: step in steps ==> !IsEnvironment(step) && !step.Begin? && step.id == id
    ensures Run(s, steps) == s
    decreases |steps|
  {
    if steps != [] { RunOver(s, steps[1..], id); }
  }

  /** The rest of a run, up to the rename. */
  lemma RunBuild(s: State, id: nat, commit: i64)
    requires s.lock == Some(id) && s.runs == map[id := Newest(commit)] && 0 < commit
    ensures
      Run(s, BuildSteps(id, commit)[3..]) ==
      s.(lock := None, runs := map[], database := Some(DiskFile(commit, true, s.now)), temp := None, leaked := false,
         builds := s.builds + [commit], returned := s.returned + [Return(id, Built, Some(commit))],
         lastWrite := s.now, standing := Some(Build(commit, s.now)))
  {
    hide DatabaseEpoch, Run, Next;
    var steps := BuildSteps(id, commit)[3..];
    var s1, s2, s3, s4 := BuildStates(s, id, commit);
    RenameEnds(s4, id, commit);
    RunFirst(s, Encode(id, 1), steps[1..]);
    RunFirst(s1, Create(id), steps[2..]);
    RunFirst(s2, WriteAll(id), steps[3..]);
    RunFirst(s3, Sync(id), steps[4..]);
    RunFirst(s4, Rename(id), steps[5..]);
    assert steps == [Encode(id, 1)] + steps[1..] && steps[1..] == [Create(id)] + steps[2..];
    assert steps[2..] == [WriteAll(id)] + steps[3..] && steps[3..] == [Sync(id)] + steps[4..];
    assert steps[4..] == [Rename(id)] + steps[5..] && steps[5..] == [];
    RunOver(Next(s4, Rename(id)), [], id);
  }

  lemma BuildStates(s: State, id: nat, commit: i64) returns (s1: State, s2: State, s3: State, s4: State)
    requires s.runs == map[id := Newest(commit)] && 0 < commit
    ensures Next(s, Encode(id, 1)) == s1 && Next(s1, Create(id)) == s2
    ensures Next(s2, WriteAll(id)) == s3 && Next(s3, Sync(id)) == s4
    ensures
      s4 ==
      s.(runs := map[id := Synced(commit)], temp := Some(DiskFile(commit, true, s.now)), leaked := false,
         lastWrite := s.now)
  {
    hide Next;
    s1 := s.(runs := map[id := Encoded(commit)]);
    s2 := s.(runs := map[id := Writing(commit)], temp := Some(DiskFile(commit, false, s.now)), leaked := false);
    s3 := s.(runs := map[id := Written(commit)], temp := Some(DiskFile(commit, true, s.now)), leaked := false,
             lastWrite := s.now);
    s4 := s3.(runs := map[id := Synced(commit)]);
    EncodeStep(s, id, commit);
    CreateStep(s1, id, commit);
    WriteStep(s2, id, commit);
    SyncStep(s3, id, commit);
  }

  lemma EncodeStep(s: State, id: nat, commit: i64)
    requires s.runs == map[id := Newest(commit)] && 0 < commit
    ensures Next(s, Encode(id, 1)) == s.(runs := map[id := Encoded(commit)])
  {
    assert s.runs[id := Encoded(commit)] == map[id := Encoded(commit)];
  }

  lemma CreateStep(s: State, id: nat, commit: i64)
    requires s.runs == map[id := Encoded(commit)]
    ensures
      Next(s, Create(id)) ==
      s.(runs := map[id := Writing(commit)], temp := Some(DiskFile(commit, false, s.now)), leaked := false)
  {
    assert s.runs[id := Writing(commit)] == map[id := Writing(commit)];
  }

  lemma WriteStep(s: State, id: nat, commit: i64)
    requires s.runs == map[id := Writing(commit)]
    ensures
      Next(s, WriteAll(id)) ==
      s.(runs := map[id := Written(commit)], temp := Some(DiskFile(commit, true, s.now)), lastWrite := s.now)
  {
    assert s.runs[id := Written(commit)] == map[id := Written(commit)];
  }

  lemma SyncStep(s: State, id: nat, commit: i64)
    requires s.runs == map[id := Written(commit)]
    ensures Next(s, Sync(id)) == s.(runs := map[id := Synced(commit)])
  {
    assert s.runs[id := Synced(commit)] == map[id := Synced(commit)];
  }

  lemma RenameEnds(s: State, id: nat, commit: i64)
    requires s.runs == map[id := Synced(commit)]
    ensures
      Next(s, Rename(id)) ==
      s.(lock := None, runs := map[], database := s.temp, temp := None,
         builds := s.builds + [commit], returned := s.returned + [Return(id, Built, Some(commit))],
         standing := Some(Build(commit, s.lastWrite)))
  {
    assert s.runs - {id} == map[];
  }

  /**
   * Two runs in a row see the same new tip, with any time in between: the second one skips it if and only
   * if the commit was not dated after the clock when the first one wrote its file.
   */
  lemma RebuiltIffFuture(steps: seq<Step>, a: nat, b: nat, commit: i64, delay: int)
    requires After(steps).lock.None? && DatabaseEpoch(After(steps)) < commit
    ensures
      After(steps + BuildSteps(a, commit) + [Tick(delay)] + BuildSteps(b, commit)).builds ==
      After(steps).builds + if commit * NANOS <= After(steps).now then [commit] else [commit, commit]
  {
    hide After, Run, Exit, Next, DatabaseEpoch, Inv;
    Always(steps);
    var s := After(steps);
    FreeLock(s);
    RunStat(s, a, commit);
    RunBuild(s.(lock := Some(a), runs := map[a := Newest(commit)]), a, commit);
    RunContinues(steps, BuildSteps(a, commit));
    var first := steps + BuildSteps(a, commit) + [Tick(delay)];
    AfterTick(steps + BuildSteps(a, commit), delay);
    Always(first);
    var t := After(first);
    RunStat(t, b, commit);
    StandingDecides(t, commit);
    if commit <= DatabaseEpoch(t) {
      RunOver(t.(returned := t.returned + [Return(b, Unchanged, Some(commit))]), BuildSteps(b, commit)[3..], b);
    } else {
      RunBuild(t.(lock := Some(b), runs := map[b := Newest(commit)]), b, commit);
    }
    RunContinues(first, BuildSteps(b, commit));
  }

  /** The tip is dated after 1970 and after the last write of the database file, if there is one. */
  predicate NewsTo(database: Option<DiskFile>, commit: i64) {
    0 < commit && (database.Some? ==> database.value.mtime < commit * NANOS)
  }

  lemma EpochDecides(s: State, commit: i64)
    ensures commit <= DatabaseEpoch(s) <==> !NewsTo(s.database, commit)
  {}

  /**
   * From every reachable state with a free lock, a run builds its tip if and only if the tip is newer than
   * the file at the path; without a file that is every tip dated after 1970. Otherwise nothing changes.
   */
  lemma BuildsIffNewer(steps: seq<Step>, id: nat, commit: i64)
    requires After(steps).lock.None?
    ensures
      var s, t := After(steps), After(steps + BuildSteps(id, commit));
      if NewsTo(s.database, commit) then
        && t.database == Some(DiskFile(commit, true, s.now)) && t.temp.None?
        && t.builds == s.builds + [commit] && t.returned == s.returned + [Return(id, Built, Some(commit))]
      else
        t == s.(returned := s.returned + [Return(id, Unchanged, Some(commit))])
  {
    hide After, Run, Exit, Next, Inv, NewsTo, DatabaseEpoch;
    Always(steps);
    var s := After(steps);
    FreeLock(s);
    EpochDecides(s, commit);
    RunStat(s, id, commit);
    RunContinues(steps, BuildSteps(id, commit));
    if commit <= DatabaseEpoch(s) {
      RunOver(s.(returned := s.returned + [Return(id, Unchanged, Some(commit))]), BuildSteps(id, commit)[3..], id);
    } else {
      assert 0 < commit;
      RunBuild(s.(lock := Some(id), runs := map[id := Newest(commit)]), id, commit);
    }
  }

  /** What the environment does: a touch keeps the file and dates it, a crash ends the run and frees the lock. */
  lemma EnvironmentMeaning(s: State, delay: int, mtime: int)
    ensures
      var touched := Next(s, Touch(mtime));
      && touched == s.(database := touched.database, standing := touched.standing)
      && match s.database
         case None => touched.database == None
         case Some(file) => touched.database == Some(DiskFile(file.commit, file.complete, mtime))
    ensures Next(s, Tick(delay)) == s.(now := s.now + delay)
    ensures Next(s, Delete) == s.(database := None, standing := None)
    ensures
      var crashed := Next(s, Crash);
      && crashed == s.(lock := None, runs := map[], leaked := crashed.leaked)
      && (crashed.leaked <==> s.leaked || exists id :: id in s.runs && Owns(s.runs[id]))
  {}

  lemma FreeLock(s: State)
    requires Inv(s) && s.lock.None?
    ensures s.runs == map[]
  {}

  lemma AfterTick(steps: seq<Step>, delay: int)
    ensures After(steps + [Tick(delay)]) == After(steps).(now := After(steps).now + delay)
  {
    assert (steps + [Tick(delay)])[..|steps|] == steps;
  }
}
