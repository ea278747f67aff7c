/**
 * Hot reload as a protocol (src/mmdb.rs, `load`, `reload_if_changed`, `lookup`): loads, lookups and
 * changes of the file interleave step by step.
 */
module HotReload {
  import opened Bits
  import opened Wrappers
  import opened Builder
  import opened Mmdb

  /** One content of the database path: a rename or a touch makes a new version. */
  datatype Version = Version(mtime: int, bytes: seq<byte>)

  datatype Kind = Load | Reload

  /** A snapshot with its origin: the versions its modification time and its bytes were read from. */
  datatype Served = Served(snapshot: Snapshot, statted: Option<nat>, version: nat)

  /** Where the holder of the load lock is. */
  datatype Phase =
    | Locked
    | Statted(stat: Option<nat>)
    | Reading(stat: Option<nat>)
    | Parsing(stat: Option<nat>, read: nat)
    | Publishing(next: Served)
    | Done

  datatype Outcome = Skipped | Published | Failed(error: LoadError)

  /** A load in progress: its kind, the snapshot served when it took the lock, and what it has seen. */
  datatype Loading = Loading(
    kind: Kind, phase: Phase, before: Option<Served>, changes: nat, stat: Option<nat>, read: Option<nat>,
    outcome: Option<Outcome>)

  /** A finished load. `quiet`: the file did not change while the lock was held. */
  datatype Return = Return(
    kind: Kind, before: Option<Served>, after: Option<Served>, stat: Option<nat>, read: Option<nat>,
    outcome: Outcome, quiet: bool, present: bool, newest: nat)

  /** A lookup in flight, then a finished one. Positions count the snapshots served so far. */
  datatype Lookup = Entered(entered: nat) | Took(entered: nat, took: nat, served: Option<Served>)

  datatype Answer = Answer(entered: nat, took: nat, left: nat, served: Option<Served>)

  datatype State = State(
    history: seq<Version>,
    present: bool,
    changes: nat,
    current: Option<Served>,
    past: seq<Option<Served>>,
    loading: Option<Loading>,
    finished: seq<Return>,
    lookups: map<nat, Lookup>,
    answers: seq<Answer>)

  const INIT := State([], false, 0, None, [None], None, [], map[], [])

  datatype Step =
    // the file system
    | Replace(version: Version)
    | Touch(mtime: int)
    | Remove
    // the thread that loads
    | Acquire(kind: Kind)
    | Stat(ok: bool)
    | Compare
    | Read(ok: bool)
    | Parse
    | Publish
    | Release
    // the threads that look up
    | Enter(id: nat)
    | TakeSnapshot(id: nat)
    | Finish(id: nat)

  // ----- steps; a step that is not enabled changes nothing -----

  function Newest(s: State): Option<nat> {
    if s.present && s.history != [] then Some(|s.history| - 1) else None
  }

  function Mtime(history: seq<Version>, v: Option<nat>): Option<int> {
    match v case Some(i) => (if i < |history| then Some(history[i].mtime) else None) case None => None
  }

  function SnapshotOf(served: Option<Served>): Option<Snapshot> {
    match served case Some(sv) => Some(sv.snapshot) case None => None
  }

  function Finished(l: Loading, outcome: Outcome): Loading {
    l.(phase := Done, outcome := Some(outcome))
  }

  function FileStep(s: State, step: Step): State {
    match step
    case Replace(v) => s.(history := s.history + [v], present := true, changes := s.changes + 1)
    case Touch(mtime) =>
      if Newest(s).Some? then
        s.(history := s.history + [Version(mtime, s.history[Newest(s).value].bytes)], changes := s.changes + 1)
      else s
    case Remove => s.(present := false, changes := s.changes + 1)
    case _ => s
  }

  /** One step of the thread that holds the load lock. */
  function LoadStep(reader: Reader, s: State, l: Loading, step: Step): State
    requires l.phase.Statted? && l.phase.stat.Some? ==> l.phase.stat.value < |s.history|
    requires l.phase.Parsing? ==> l.phase.read < |s.history|
  {
    match (l.phase, step)
    case (Locked, Stat(ok)) =>
      var v := if ok then Newest(s) else None;
      if l.kind == Reload && v.None? then s.(loading := Some(Finished(l, Failed(NoMetadata))))
      else s.(loading := Some(l.(phase := Statted(v), stat := v)))
    case (Statted(stat), Compare) =>
      if l.kind == Reload && stat.Some? && Matches(SnapshotOf(s.current), s.history[stat.value].mtime) then
        s.(loading := Some(Finished(l, Skipped)))
      else s.(loading := Some(l.(phase := Reading(stat))))
    case (Reading(stat), Read(ok)) =>
      var v := Newest(s);
      if ok && v.Some? then s.(loading := Some(l.(phase := Parsing(stat, v.value), read := v)))
      else s.(loading := Some(Finished(l, Failed(Unreadable))))
    case (Parsing(stat, read), Parse) =>
      var bytes := s.history[read].bytes;
      (match reader(bytes)
       case None => s.(loading := Some(Finished(l, Failed(Corrupt))))
       case Some(tree) =>
         var next := Served(Snapshot(bytes, tree, Mtime(s.history, stat)), stat, read);
         s.(loading := Some(l.(phase := Publishing(next)))))
    case (Publishing(next), Publish) =>
      s.(current := Some(next), past := s.past + [Some(next)], loading := Some(Finished(l, Published)))
    case (Done, Release) =>
      if l.outcome.None? then s
      else
        var done := Return(l.kind, l.before, s.current, l.stat, l.read, l.outcome.value,
                           l.changes == s.changes, s.present, |s.history|);
        s.(loading := None, finished := s.finished + [done])
    case _ => s
  }

  function LookupStep(s: State, step: Step): State
    requires s.past != []
  {
    match step
    case Enter(id) =>
      if id in s.lookups then s else s.(lookups := s.lookups[id := Entered(|s.past| - 1)])
    case TakeSnapshot(id) =>
      if id in s.lookups && s.lookups[id].Entered? then
        s.(lookups := s.lookups[id := Took(s.lookups[id].entered, |s.past| - 1, s.current)])
      else s
    case Finish(id) =>
      if id in s.lookups && s.lookups[id].Took? then
        var l := s.lookups[id];
        s.(lookups := s.lookups - {id}, answers := s.answers + [Answer(l.entered, l.took, |s.past| - 1, l.served)])
      else s
    case _ => s
  }

  predicate IsFileStep(step: Step) {
    step.Replace? || step.Touch? || step.Remove?
  }

  predicate IsLookupStep(step: Step) {
    step.Enter? || step.TakeSnapshot? || step.Finish?
  }

  function Next(reader: Reader, s: State, step: Step): State
    requires WellFormed(s)
  {
    if IsFileStep(step) then FileStep(s, step)
    else if IsLookupStep(step) then LookupStep(s, step)
    else if step.Acquire? then
      // The mutex admits one load at a time.
      if s.loading.None? then
        s.(loading := Some(Loading(step.kind, Locked, s.current, s.changes, None, None, None)))
      else s
    else if s.loading.Some? then LoadStep(reader, s, s.loading.value, step)
    else s
  }

  /** Version numbers name versions the file really had. */
  predicate WellFormed(s: State) {
    && s.past != []
    && (s.loading.Some? ==>
          var p := s.loading.value.phase;
          && (p.Statted? && p.stat.Some? ==> p.stat.value < |s.history|)
          && (p.Parsing? ==> p.read < |s.history|))
  }

  lemma NextWellFormed(reader: Reader, s: State, step: Step)
    requires WellFormed(s)
    ensures WellFormed(Next(reader, s, step))
  {}

  /** The state after a run: any sequence of steps. */
  function After(reader: Reader, steps: seq<Step>): (s: State)
    ensures WellFormed(s)
  {
    if steps == [] then INIT
    else
      var before := After(reader, steps[..|steps| - 1]);
      NextWellFormed(reader, before, steps[|steps| - 1]);
      Next(reader, before, steps[|steps| - 1])
  }

  // ----- what every step keeps -----

  /** A served snapshot is the complete parse of a version the file had; its time was read no later. */
  ghost predicate Genuine(reader: Reader, history: seq<Version>, sv: Served) {
    && sv.version < |history|
    && sv.snapshot.bytes == history[sv.version].bytes
    && reader(sv.snapshot.bytes) == Some(sv.snapshot.tree)
    && (sv.statted.Some? ==>
          && sv.statted.value <= sv.version
          && sv.snapshot.modified == Some(history[sv.statted.value].mtime))
    && (sv.statted.None? ==> sv.snapshot.modified == None)
  }

  /** Serving `b` after `a` does not go back to an earlier version. */
  ghost predicate Forward(a: Option<Served>, b: Option<Served>) {
    a.Some? ==> b.Some? && a.value.version <= b.value.version
  }

  function Bytes(history: seq<Version>, v: Option<nat>): Option<seq<byte>> {
    match v case Some(i) => (if i < |history| then Some(history[i].bytes) else None) case None => None
  }

  /**
   * A finished load did to the snapshot exactly what one atomic call does, given the modification time
   * and the bytes it saw.
   */
  ghost predicate Atomic(
    reader: Reader, history: seq<Version>, kind: Kind, before: Option<Served>, after: Option<Served>,
    stat: Option<nat>, read: Option<nat>, outcome: Outcome)
  {
    var old_, new_ := SnapshotOf(before), SnapshotOf(after);
    var mtime, bytes := Mtime(history, stat), Bytes(history, read);
    && (kind == Load ==>
          Loaded(old_, mtime, bytes, reader) ==
          (new_, match outcome case Failed(e) => Err(e) case _ => Ok(())))
    && (kind == Reload ==>
          Reloaded(old_, mtime, bytes, reader) ==
          (new_, match outcome case Failed(e) => Err(e) case Skipped => Ok(false) case Published => Ok(true)))
    && (outcome != Published ==> after == before)
    && (outcome == Failed(NoMetadata) ==> read.None?)
    && (outcome == Published ==>
          && read.Some? && after.Some?
          && after.value.statted == stat && after.value.version == read.value)
    && (outcome == Skipped ==>
          && kind == Reload && stat.Some? && read.None? && before.Some?
          && before.value.version <= stat.value < |history|)
  }

  ghost predicate LoadingInv(reader: Reader, s: State, l: Loading) {
    && (l.stat.Some? ==> l.stat.value < |s.history|)
    && (l.read.Some? ==> l.read.value < |s.history|)
    && (l.before.Some? ==> Genuine(reader, s.history, l.before.value))
    && (l.stat.Some? && l.before.Some? ==> l.before.value.version <= l.stat.value)
    && (l.phase.Done? <==> l.outcome.Some?)
    && (l.phase.Done? ==> Atomic(reader, s.history, l.kind, l.before, s.current, l.stat, l.read, l.outcome.value))
    && (!l.phase.Done? ==> l.before == s.current)
    && (l.phase.Locked? ==> l.stat == None && l.read == None)
    && (l.phase.Statted? ==> l.phase.stat == l.stat && l.read == None && (l.kind == Reload ==> l.stat.Some?))
    && (l.phase.Reading? ==> l.phase.stat == l.stat && l.read == None && Passed(s.history, l))
    && (l.phase.Parsing? ==>
          && l.phase.stat == l.stat && l.read == Some(l.phase.read) && Passed(s.history, l))
    && (l.phase.Publishing? ==>
          && Genuine(reader, s.history, l.phase.next) && Passed(s.history, l)
          && l.phase.next.statted == l.stat && l.read == Some(l.phase.next.version))
    && (l.read.Some? ==> Ordered(l.stat, l.before, l.read.value))
    && (l.phase.Done? ==> Forward(l.before, s.current))
    && Quiet(s, l)
  }

  /** The comparison let the load through. */
  ghost predicate Passed(history: seq<Version>, l: Loading) {
    l.kind == Reload ==>
      && l.stat.Some?
      && !(Mtime(history, l.stat).Some? && Matches(SnapshotOf(l.before), Mtime(history, l.stat).value))
  }

  /** The bytes read are no older than the time read and no older than what is served. */
  ghost predicate Ordered(stat: Option<nat>, before: Option<Served>, read: nat) {
    (stat.Some? ==> stat.value <= read) && (before.Some? ==> before.value.version <= read)
  }

  /** If the file did not change since the lock was taken, what was seen of it is what is there. */
  ghost predicate Quiet(s: State, l: Loading) {
    && l.changes <= s.changes
    && (l.changes == s.changes ==>
          && (l.stat.Some? ==> l.stat == Newest(s))
          && (l.read.Some? ==> l.read == Newest(s)))
  }

  ghost predicate ReturnInv(reader: Reader, history: seq<Version>, r: Return) {
    && Atomic(reader, history, r.kind, r.before, r.after, r.stat, r.read, r.outcome)
    && (r.before.Some? ==> Genuine(reader, history, r.before.value))
    && (r.after.Some? ==> Genuine(reader, history, r.after.value))
    && (r.stat.Some? ==> r.stat.value < |history|)
    && (r.read.Some? ==> r.read.value < |history|)
    && (r.stat.Some? && r.before.Some? ==> r.before.value.version <= r.stat.value)
    && (r.present ==> 0 < r.newest)
    && r.newest <= |history|
    && Forward(r.before, r.after)
    && (r.after.Some? ==> r.after.value.version < r.newest)
    && (r.read.Some? ==> Ordered(r.stat, r.before, r.read.value))
    && (r.quiet ==>
          && (r.stat.Some? ==> r.present && r.stat == Some(r.newest - 1))
          && (r.read.Some? ==> r.present && r.read == Some(r.newest - 1)))
  }

  ghost predicate LookupInv(past: seq<Option<Served>>, l: Lookup) {
    match l
    case Entered(e) => e < |past|
    case Took(e, t, served) => e <= t < |past| && past[t] == served
  }

  ghost predicate AnswerInv(past: seq<Option<Served>>, a: Answer) {
    a.entered <= a.took <= a.left < |past| && past[a.took] == a.served
  }

  ghost predicate Inv(reader: Reader, s: State) {
    && WellFormed(s)
    && s.past[|s.past| - 1] == s.current
    && (s.present ==> s.history != [])
    && (forall i :: 0 <= i < |s.past| && s.past[i].Some? ==> Genuine(reader, s.history, s.past[i].value))
    && (forall i, j :: 0 <= i < j < |s.past| ==> Forward(s.past[i], s.past[j]))
    && (s.loading.Some? ==> LoadingInv(reader, s, s.loading.value))
    && (forall r <- s.finished :: ReturnInv(reader, s.history, r))
    && (forall id <- s.lookups :: LookupInv(s.past, s.lookups[id]))
    && (forall a <- s.answers :: AnswerInv(s.past, a))
  }

  // ----- preservation -----

  lemma GenuineStable(reader: Reader, history: seq<Version>, more: seq<Version>, sv: Served)
    requires history <= more && Genuine(reader, history, sv)
    ensures Genuine(reader, more, sv)
  {}

  lemma ReturnStable(reader: Reader, history: seq<Version>, more: seq<Version>, r: Return)
    requires history <= more && ReturnInv(reader, history, r)
    ensures ReturnInv(reader, more, r)
  {}

  lemma LoadingStable(reader: Reader, s: State, step: Step, l: Loading)
    requires IsFileStep(step) && (s.present ==> s.history != [])
    requires LoadingInv(reader, s, l)
    ensures LoadingInv(reader, FileStep(s, step), l)
  {
    assert s.history <= FileStep(s, step).history;
  }

  lemma FileKeeps(reader: Reader, s: State, step: Step)
    requires Inv(reader, s) && IsFileStep(step)
    ensures Inv(reader, FileStep(s, step))
  {
    hide Genuine, LoadingInv, ReturnInv, LookupInv, AnswerInv, Forward;
    var s' := FileStep(s, step);
    forall i | 0 <= i < |s.past| && s.past[i].Some? ensures Genuine(reader, s'.history, s.past[i].value) {
      GenuineStable(reader, s.history, s'.history, s.past[i].value);
    }
    forall r | r in s.finished ensures ReturnInv(reader, s'.history, r) {
      ReturnStable(reader, s.history, s'.history, r);
    }
    if s.loading.Some? {
      LoadingStable(reader, s, step, s.loading.value);
    }
  }

  lemma LookupKeeps(reader: Reader, s: State, step: Step)
    requires Inv(reader, s) && IsLookupStep(step)
    ensures Inv(reader, LookupStep(s, step))
  {
    hide Genuine, LoadingInv, ReturnInv, Forward;
    LoadingUnaffected(reader, s, LookupStep(s, step));
  }

  /** The invariant of a load in progress speaks only of the file and of the served snapshot. */
  lemma LoadingUnaffected(reader: Reader, s: State, s': State)
    requires s'.history == s.history && s'.present == s.present && s'.changes == s.changes && s'.current == s.current
    ensures forall l :: LoadingInv(reader, s, l) ==> LoadingInv(reader, s', l)
  {}

  lemma AcquireKeeps(reader: Reader, s: State, step: Step)
    requires Inv(reader, s) && step.Acquire?
    ensures Inv(reader, Next(reader, s, step))
  {
    hide Genuine, ReturnInv, LookupInv, AnswerInv, Forward;
  }

  /** A step that only moves the load on keeps everything else. */
  lemma LoadingMoves(reader: Reader, s: State, l: Loading)
    requires Inv(reader, s) && LoadingInv(reader, s, l) && WellFormed(s.(loading := Some(l)))
    ensures Inv(reader, s.(loading := Some(l)))
  {
    hide Genuine, LoadingInv, ReturnInv, LookupInv, AnswerInv, Forward;
    LoadingUnaffected(reader, s, s.(loading := Some(l)));
  }

  /** The step only moves the load on. */
  ghost predicate Moved(reader: Reader, s: State, s': State) {
    && s'.loading.Some?
    && s' == s.(loading := s'.loading)
    && LoadingInv(reader, s, s'.loading.value)
    && WellFormed(s')
  }

  lemma StatKeeps(reader: Reader, s: State, ok: bool)
    requires Inv(reader, s) && s.loading.Some?
    ensures Moved(reader, s, LoadStep(reader, s, s.loading.value, Stat(ok)))
  {
    hide ReturnInv, LookupInv, AnswerInv;
    CurrentGenuine(reader, s);
  }

  lemma CompareKeeps(reader: Reader, s: State)
    requires Inv(reader, s) && s.loading.Some?
    ensures Moved(reader, s, LoadStep(reader, s, s.loading.value, Compare))
  {
    hide Genuine, ReturnInv, LookupInv, AnswerInv;
  }

  lemma ReadKeeps(reader: Reader, s: State, ok: bool)
    requires Inv(reader, s) && s.loading.Some?
    ensures Moved(reader, s, LoadStep(reader, s, s.loading.value, Read(ok)))
  {
    hide ReturnInv, LookupInv, AnswerInv;
    CurrentGenuine(reader, s);
  }

  lemma ParseKeeps(reader: Reader, s: State)
    requires Inv(reader, s) && s.loading.Some?
    ensures Moved(reader, s, LoadStep(reader, s, s.loading.value, Parse))
  {
    hide ReturnInv, LookupInv, AnswerInv;
  }

  lemma CurrentGenuine(reader: Reader, s: State)
    requires Inv(reader, s)
    ensures s.current.Some? ==> Genuine(reader, s.history, s.current.value)
  {}

  lemma PublishedLoading(reader: Reader, s: State)
    requires Inv(reader, s) && s.loading.Some? && s.loading.value.phase.Publishing?
    ensures
      var s' := LoadStep(reader, s, s.loading.value, Publish);
      s'.loading.Some? && LoadingInv(reader, s', s'.loading.value)
    ensures Forward(s.current, Some(s.loading.value.phase.next))
    ensures Genuine(reader, s.history, s.loading.value.phase.next)
  {
    hide ReturnInv, LookupInv, AnswerInv;
  }

  lemma PublishKeeps(reader: Reader, s: State)
    requires Inv(reader, s) && s.loading.Some?
    ensures Inv(reader, LoadStep(reader, s, s.loading.value, Publish))
  {
    hide ReturnInv, LoadingInv, Genuine;
    if s.loading.value.phase.Publishing? {
      PublishedLoading(reader, s);
    }
  }

  lemma ReleaseKeeps(reader: Reader, s: State)
    requires Inv(reader, s) && s.loading.Some?
    ensures Inv(reader, LoadStep(reader, s, s.loading.value, Release))
  {
    hide LookupInv, AnswerInv, Forward, Genuine, Atomic;
    CurrentGenuine(reader, s);
  }

  lemma NextKeeps(reader: Reader, s: State, step: Step)
    requires Inv(reader, s)
    ensures Inv(reader, Next(reader, s, step))
  {
    if IsFileStep(step) {
      FileKeeps(reader, s, step);
    } else if IsLookupStep(step) {
      LookupKeeps(reader, s, step);
    } else if step.Acquire? {
      AcquireKeeps(reader, s, step);
    } else if s.loading.Some? {
      if step.Publish? {
        PublishKeeps(reader, s);
      } else if step.Release? {
        ReleaseKeeps(reader, s);
      } else {
        var s' := Next(reader, s, step);
        assert Moved(reader, s, s') by {
          match step {
            case Stat(ok) => StatKeeps(reader, s, ok);
            case Compare => CompareKeeps(reader, s);
            case Read(ok) => ReadKeeps(reader, s, ok);
            case _ => ParseKeeps(reader, s);
          }
        }
        LoadingMoves(reader, s, s'.loading.value);
      }
    }
  }

  /** Every state of every run satisfies the invariant. */
  lemma {:induction false} Always(reader: Reader, steps: seq<Step>)
    ensures Inv(reader, After(reader, steps))
  {
    if steps != [] {
      Always(reader, steps[..|steps| - 1]);
      NextKeeps(reader, After(reader, steps[..|steps| - 1]), steps[|steps| - 1]);
    }
  }

  // ----- what the protocol promises -----

  ghost predicate DistinctTimes(history: seq<Version>) {
    forall i, j :: 0 <= i < j < |history| ==> history[i].mtime != history[j].mtime
  }

  /**
   * Skipping is sound in every interleaving: if no two versions of the file share a modification time,
   * a reload that answers "unchanged" serves exactly the bytes that were at the path when it read the
   * modification time, even if the file was replaced between the two reads of an earlier load.
   */
  lemma SkipIsSound(reader: Reader, steps: seq<Step>, r: Return)
    requires r in After(reader, steps).finished && r.outcome == Skipped
    requires DistinctTimes(After(reader, steps).history)
    ensures
      var history := After(reader, steps).history;
      && r.stat.Some? && r.stat.value < |history|
      && r.after.Some?
      && r.after.value.version == r.stat.value
      && r.after.value.snapshot.bytes == history[r.stat.value].bytes
  {
    hide Genuine, LookupInv, AnswerInv, LoadingInv, ReturnInv, After;
    Always(reader, steps);
    SkipInv(reader, After(reader, steps).history, r);
  }

  lemma SkipInv(reader: Reader, history: seq<Version>, r: Return)
    requires ReturnInv(reader, history, r) && r.outcome == Skipped && DistinctTimes(history)
    ensures r.stat.Some? && r.stat.value < |history| && r.after.Some? && r.after.value.version == r.stat.value
    ensures r.after.value.snapshot.bytes == history[r.stat.value].bytes
  {}

  /** Content of the path when the load returned. */
  function ContentAt(history: seq<Version>, r: Return): Option<seq<byte>> {
    if r.present && 0 < r.newest <= |history| then Some(history[r.newest - 1].bytes) else None
  }

  /** A load fails before it parses only if the file system does not answer. */
  predicate Unanswered(outcome: Outcome) {
    outcome == Failed(NoMetadata) || outcome == Failed(Unreadable)
  }

  /**
   * Once the file stops changing, one trigger is enough: a reload during which a well-formed file is there
   * and does not change leaves exactly its content in service, unless the file system does not answer.
   */
  lemma OneTriggerSuffices(reader: Reader, steps: seq<Step>, r: Return)
    requires r in After(reader, steps).finished && r.kind == Reload && r.quiet && r.present
    requires DistinctTimes(After(reader, steps).history)
    requires
      match ContentAt(After(reader, steps).history, r) case Some(bytes) => reader(bytes).Some? case None => true
    ensures
      || (Unanswered(r.outcome) && r.after == r.before)
      || (&& !r.outcome.Failed?
          && r.after.Some?
          && ContentAt(After(reader, steps).history, r) == Some(r.after.value.snapshot.bytes)
          && r.after.value.version == r.newest - 1)
  {
    hide Genuine, LookupInv, AnswerInv, LoadingInv, ReturnInv, After;
    Always(reader, steps);
    OneTriggerInv(reader, After(reader, steps).history, r);
  }

  lemma OneTriggerInv(reader: Reader, history: seq<Version>, r: Return)
    requires ReturnInv(reader, history, r) && r.kind == Reload && r.quiet && r.present && DistinctTimes(history)
    requires match ContentAt(history, r) case Some(bytes) => reader(bytes).Some? case None => true
    ensures
      || (Unanswered(r.outcome) && r.after == r.before)
      || (&& !r.outcome.Failed?
          && r.after.Some?
          && ContentAt(history, r) == Some(r.after.value.snapshot.bytes)
          && r.after.value.version == r.newest - 1)
  {
    if r.outcome == Skipped {
      SkipInv(reader, history, r);
    } else if !Unanswered(r.outcome) {
      QuietInv(reader, history, r);
    }
  }

  lemma QuietInv(reader: Reader, history: seq<Version>, r: Return)
    requires ReturnInv(reader, history, r) && r.kind == Reload && r.quiet && r.present
    requires reader(history[r.newest - 1].bytes).Some?
    requires r.outcome != Skipped && !Unanswered(r.outcome)
    ensures r.outcome == Published && r.after.Some? && r.after.value.version == r.newest - 1
    ensures r.after.value.snapshot.bytes == history[r.newest - 1].bytes
  {}

  /** The newest version of the file is in service. */
  ghost predicate UpToDate(s: State) {
    s.present && s.current.Some? && s.current.value.version == |s.history| - 1
  }

  /** From then on, until the file changes again, no load and no lookup takes it out of service. */
  lemma StaysUpToDate(reader: Reader, steps: seq<Step>, step: Step)
    requires UpToDate(After(reader, steps)) && !IsFileStep(step)
    ensures UpToDate(After(reader, steps + [step]))
  {
    hide Genuine, LookupInv, AnswerInv, After;
    Always(reader, steps);
    AfterOneMore(reader, steps, step);
    var s := After(reader, steps);
    if step.Publish? && s.loading.Some? && s.loading.value.phase.Publishing? {
      StaysCurrentPublish(reader, s);
    }
  }

  lemma StaysCurrentPublish(reader: Reader, s: State)
    requires Inv(reader, s) && UpToDate(s) && s.loading.Some? && s.loading.value.phase.Publishing?
    ensures s.loading.value.phase.next.version == |s.history| - 1
  {
    hide LookupInv, AnswerInv, ReturnInv;
  }

  lemma AfterOneMore(reader: Reader, steps: seq<Step>, step: Step)
    ensures After(reader, steps + [step]) == Next(reader, After(reader, steps), step)
  {
    assert (steps + [step])[..|steps|] == steps;
  }

  /** The version served never goes backwards, and every served snapshot is one the file really had. */
  lemma ServedMovesForward(reader: Reader, steps: seq<Step>, i: nat, j: nat)
    requires i <= j < |After(reader, steps).past|
    ensures
      var s := After(reader, steps);
      && s.past[|s.past| - 1] == s.current
      && (s.past[i].Some? ==>
            && Genuine(reader, s.history, s.past[i].value)
            && s.past[j].Some? && s.past[i].value.version <= s.past[j].value.version)
  {
    hide Genuine, LookupInv, AnswerInv, ReturnInv, LoadingInv, After;
    Always(reader, steps);
  }

  /**
   * Each finished load acted on the snapshot like one atomic call on the modification time and the
   * bytes it saw; unless it published, it left the snapshot alone.
   */
  lemma LoadsAreAtomic(reader: Reader, steps: seq<Step>, r: Return)
    requires r in After(reader, steps).finished
    ensures Atomic(reader, After(reader, steps).history, r.kind, r.before, r.after, r.stat, r.read, r.outcome)
  {
    hide Genuine, LookupInv, AnswerInv, LoadingInv, Atomic, After;
    Always(reader, steps);
  }

  /** A reload only publishes when the modification time differs from the one served before. */
  lemma ReloadsDiffer(reader: Reader, steps: seq<Step>, r: Return)
    requires r in After(reader, steps).finished && r.kind == Reload && r.outcome == Published
    ensures r.after.Some? && r.after.value.snapshot.modified.Some?
    ensures r.before.Some? ==> r.before.value.snapshot.modified != r.after.value.snapshot.modified
  {
    hide Genuine, LookupInv, AnswerInv, LoadingInv, After;
    Always(reader, steps);
  }

  /** Each lookup answers from one snapshot, served at some moment between its start and its end. */
  lemma LookupsAreConsistent(reader: Reader, steps: seq<Step>, a: Answer)
    requires a in After(reader, steps).answers
    ensures
      var past := After(reader, steps).past;
      a.entered <= a.took <= a.left < |past| && past[a.took] == a.served
  {
    hide Genuine, LookupInv, ReturnInv, LoadingInv, After;
    Always(reader, steps);
  }

  // ----- one load after the other -----

  /** What is in service after these loads. */
  function LastServed(finished: seq<Return>): Option<Served> {
    if finished == [] then None else finished[|finished| - 1].after
  }

  /** What the next load starts from: the snapshot in service when nobody loads. */
  function Base(s: State): Option<Served> {
    match s.loading case Some(l) => l.before case None => s.current
  }

  /** Every load starts from what the load before it left in service. */
  ghost predicate Chained(s: State) {
    && (forall k :: 0 <= k < |s.finished| ==> s.finished[k].before == LastServed(s.finished[..k]))
    && LastServed(s.finished) == Base(s)
  }

  lemma FinishedStep(reader: Reader, s: State, step: Step)
    requires WellFormed(s)
    ensures
      var s' := Next(reader, s, step);
      || (s'.finished == s.finished && Base(s') == Base(s))
      || (exists r :: s'.finished == s.finished + [r] && r.before == Base(s) && r.after == Base(s'))
  {
    if s.loading.Some? && step.Release? {
      var s' := Next(reader, s, step);
      if s' != s {
        assert s'.finished == s.finished + [s'.finished[|s.finished|]];
      }
    }
  }

  lemma ChainedKeeps(reader: Reader, s: State, step: Step)
    requires WellFormed(s) && Chained(s)
    ensures Chained(Next(reader, s, step))
  {
    var s' := Next(reader, s, step);
    FinishedStep(reader, s, step);
    hide Next, Base;
    assert forall k :: 0 <= k <= |s.finished| ==> s'.finished[..k] == s.finished[..k];
  }

  lemma {:induction false} AlwaysChained(reader: Reader, steps: seq<Step>)
    ensures Chained(After(reader, steps))
  {
    if steps != [] {
      AlwaysChained(reader, steps[..|steps| - 1]);
      ChainedKeeps(reader, After(reader, steps[..|steps| - 1]), steps[|steps| - 1]);
    }
  }

  /** Loads only move forward from what load `k` left in service. */
  lemma {:induction false} ServedSince(reader: Reader, s: State, k: nat, m: nat)
    requires Inv(reader, s) && Chained(s) && k < m < |s.finished|
    ensures Forward(s.finished[k].after, s.finished[m].before)
  {
    hide Inv, Chained;
    Successive(s, m - 1);
    if k < m - 1 {
      ServedSince(reader, s, k, m - 1);
      OnlyPublishing(reader, s, m - 1);
    }
  }

  /** The load that put in service what load `m` starts from; load `k` before it published. */
  lemma {:induction false} PublishedBy(reader: Reader, s: State, k: nat, m: nat) returns (j: nat)
    requires Inv(reader, s) && Chained(s) && k < m < |s.finished|
    requires s.finished[k].outcome == Published
    ensures k <= j < m && s.finished[j].outcome == Published && s.finished[j].after == s.finished[m].before
    decreases m
  {
    hide Inv, Chained;
    Successive(s, m - 1);
    j := m - 1;
    if s.finished[m - 1].outcome != Published {
      OnlyPublishing(reader, s, m - 1);
      j := PublishedBy(reader, s, k, m - 1);
    }
  }

  lemma Successive(s: State, k: nat)
    requires Chained(s) && k + 1 < |s.finished|
    ensures s.finished[k + 1].before == s.finished[k].after
  {
    assert s.finished[..k + 1][k] == s.finished[k];
  }

  lemma ReturnAt(reader: Reader, s: State, k: nat)
    requires Inv(reader, s) && k < |s.finished|
    ensures ReturnInv(reader, s.history, s.finished[k]) && s.finished[k].newest <= |s.history|
  {
    hide Genuine, LookupInv, AnswerInv, LoadingInv;
  }

  lemma OnlyPublishing(reader: Reader, s: State, k: nat)
    requires Inv(reader, s) && k < |s.finished|
    ensures s.finished[k].outcome != Published ==> s.finished[k].after == s.finished[k].before
    ensures Forward(s.finished[k].before, s.finished[k].after)
  {
    hide Genuine, LookupInv, AnswerInv, LoadingInv;
    assert ReturnInv(reader, s.history, s.finished[k]);
  }

  /** The parse of version `v` left nothing that would tell a later reload: it failed, or the file was replaced. */
  predicate LeavesNoTrace(r: Return, v: nat) {
    r.read == Some(v) && (r.outcome.Failed? || r.stat != r.read)
  }

  /**
   * Load `k` parsed version `v`, and so does the later reload `m`: then `k` or a load between them parsed
   * `v` and failed, or read another modification time than that of `v` before it read the bytes.
   */
  lemma ParsedOnce(reader: Reader, steps: seq<Step>, k: nat, m: nat, v: nat)
    requires k < m < |After(reader, steps).finished|
    requires
      var finished := After(reader, steps).finished;
      finished[m].kind == Reload && finished[k].read == Some(v) && finished[m].read == Some(v)
    ensures exists j :: k <= j < m && LeavesNoTrace(After(reader, steps).finished[j], v)
  {
    hide After, Inv, Chained, ReturnInv, Forward, LeavesNoTrace;
    Always(reader, steps);
    AlwaysChained(reader, steps);
    var s := After(reader, steps);
    if !LeavesNoTrace(s.finished[k], v) {
      ReturnAt(reader, s, k);
      ReturnAt(reader, s, m);
      PublishedIfTraced(reader, s.history, s.finished[k], v);
      ServedSince(reader, s, k, m);
      var j := PublishedBy(reader, s, k, m);
      ReturnAt(reader, s, j);
      RepeatedParse(reader, s.history, s.finished[k], s.finished[j], s.finished[m], v);
      assert LeavesNoTrace(s.finished[j], v);
    }
  }

  lemma PublishedIfTraced(reader: Reader, history: seq<Version>, r: Return, v: nat)
    requires ReturnInv(reader, history, r) && r.read == Some(v) && !LeavesNoTrace(r, v)
    ensures r.outcome == Published && r.after.Some? && r.after.value.version == v
  {}

  lemma RepeatedParse(reader: Reader, history: seq<Version>, first: Return, last: Return, again: Return, v: nat)
    requires ReturnInv(reader, history, last) && ReturnInv(reader, history, again)
    requires first.after.Some? && first.after.value.version == v && Forward(first.after, again.before)
    requires last.outcome == Published && last.after == again.before
    requires again.kind == Reload && again.read == Some(v)
    ensures LeavesNoTrace(last, v)
  {}

  /**
   * So a load that published version `v`, with the modification time of `v`, keeps reloads from parsing `v`
   * ever again.
   */
  lemma {:induction false} NeverParsedAgain(reader: Reader, steps: seq<Step>, k: nat, m: nat, v: nat)
    requires k < m < |After(reader, steps).finished|
    requires
      var finished := After(reader, steps).finished;
      && finished[k].outcome == Published && finished[k].read == finished[k].stat == Some(v)
      && forall j :: k < j <= m ==> finished[j].kind == Reload
    ensures After(reader, steps).finished[m].read != Some(v)
    decreases m
  {
    var finished := After(reader, steps).finished;
    hide After;
    if finished[m].read == Some(v) {
      ParsedOnce(reader, steps, k, m, v);
      var j :| k <= j < m && LeavesNoTrace(finished[j], v);
      if k < j { NeverParsedAgain(reader, steps, k, j, v); }
    }
  }

  /**
   * The exact condition for two successive loads. The first one parsed version `v`; the second one is a
   * reload during which `v` stays the newest version and the file system answers. It parses `v` again if
   * and only if the first parse failed, or its load had not read the modification time of `v`.
   */
  lemma ParsedAgainIff(reader: Reader, steps: seq<Step>, k: nat, v: nat)
    requires k + 1 < |After(reader, steps).finished| && DistinctTimes(After(reader, steps).history)
    requires
      var first, second := After(reader, steps).finished[k], After(reader, steps).finished[k + 1];
      && first.read == Some(v)
      && second.kind == Reload && second.quiet && second.present && second.newest == v + 1
      && !Unanswered(second.outcome)
    ensures
      var first, second := After(reader, steps).finished[k], After(reader, steps).finished[k + 1];
      second.read == Some(v) <==> first.outcome.Failed? || first.stat != first.read
  {
    hide After, Inv, Chained, ReturnInv, DistinctTimes;
    Always(reader, steps);
    AlwaysChained(reader, steps);
    var s := After(reader, steps);
    Successive(s, k);
    ReturnAt(reader, s, k);
    ReturnAt(reader, s, k + 1);
    ParsedAgainInv(reader, s.history, s.finished[k], s.finished[k + 1], v);
  }

  lemma ParsedAgainInv(reader: Reader, history: seq<Version>, first: Return, second: Return, v: nat)
    requires ReturnInv(reader, history, first) && ReturnInv(reader, history, second) && DistinctTimes(history)
    requires first.read == Some(v) && second.before == first.after
    requires second.kind == Reload && second.quiet && second.present && second.newest == v + 1
    requires !Unanswered(second.outcome)
    ensures second.read == Some(v) <==> first.outcome.Failed? || first.stat != first.read
  {
    assert second.read == Some(v) <==> second.outcome != Skipped;
    if first.outcome.Failed? {
      FailedParse(reader, history, first, v);
    }
    if second.outcome == Skipped {
      SkipServesParsed(reader, history, second);
    }
  }

  lemma FailedParse(reader: Reader, history: seq<Version>, r: Return, v: nat)
    requires ReturnInv(reader, history, r) && r.outcome.Failed? && r.read == Some(v)
    ensures v < |history| && reader(history[v].bytes).None?
  {}

  lemma SkipServesParsed(reader: Reader, history: seq<Version>, r: Return)
    requires ReturnInv(reader, history, r) && r.outcome == Skipped && DistinctTimes(history)
    ensures r.stat.Some? && r.stat.value < |history| && reader(history[r.stat.value].bytes).Some?
  {
    SkipInv(reader, history, r);
  }

  // ----- what it does not promise -----

  /** The steps of a reload between `steps` and its first read of the bytes. */
  lemma FirstSteps(reader: Reader, steps: seq<Step>)
    requires
      var s := After(reader, steps);
      s.loading.None? && s.present && s.history != []
    ensures
      var s := After(reader, steps);
      var v := Some(|s.history| - 1);
      After(reader, steps + [Acquire(Reload)] + [Stat(true)]) ==
      s.(loading := Some(Loading(Reload, Statted(v), s.current, s.changes, v, None, None)))
  {
    AfterOneMore(reader, steps, Acquire(Reload));
    AfterOneMore(reader, steps + [Acquire(Reload)], Stat(true));
  }

  lemma SkipSteps(reader: Reader, steps: seq<Step>)
    requires
      var s := After(reader, steps);
      && s.loading.None? && s.present && s.history != []
      && Matches(SnapshotOf(s.current), s.history[|s.history| - 1].mtime)
    ensures
      var s := After(reader, steps);
      var r := Return(Reload, s.current, s.current, Some(|s.history| - 1), None, Skipped, true, true, |s.history|);
      After(reader, steps + [Acquire(Reload)] + [Stat(true)] + [Compare] + [Release]) ==
      s.(finished := s.finished + [r])
  {
    hide After;
    FirstSteps(reader, steps);
    var steps2 := steps + [Acquire(Reload)] + [Stat(true)];
    AfterOneMore(reader, steps2, Compare);
    AfterOneMore(reader, steps2 + [Compare], Release);
  }

  lemma ReadNext(reader: Reader, s: State, l: Loading)
    requires WellFormed(s) && s.present && s.history != [] && s.loading == Some(l) && l.phase == Reading(l.stat)
    ensures
      var v := |s.history| - 1;
      Next(reader, s, Read(true)) == s.(loading := Some(l.(phase := Parsing(l.stat, v), read := Some(v))))
  {}

  lemma ParseNext(reader: Reader, s: State, l: Loading, v: nat)
    requires WellFormed(s) && s.loading == Some(l) && l.phase == Parsing(l.stat, v)
    ensures
      Next(reader, s, Parse) ==
      s.(loading := Some(
           match reader(s.history[v].bytes)
           case None => Finished(l, Failed(Corrupt))
           case Some(tree) =>
             l.(phase := Publishing(
                  Served(Snapshot(s.history[v].bytes, tree, Mtime(s.history, l.stat)), l.stat, v)))))
  {}

  lemma PublishNext(reader: Reader, s: State, l: Loading, next: Served)
    requires WellFormed(s) && s.loading == Some(l) && l.phase == Publishing(next)
    ensures
      Next(reader, s, Publish) ==
      s.(current := Some(next), past := s.past + [Some(next)], loading := Some(Finished(l, Published)))
  {}

  lemma ReleaseNext(reader: Reader, s: State, l: Loading, outcome: Outcome)
    requires WellFormed(s) && s.loading == Some(Finished(l, outcome))
    ensures
      var r := Return(l.kind, l.before, s.current, l.stat, l.read, outcome,
                      l.changes == s.changes, s.present, |s.history|);
      Next(reader, s, Release) == s.(loading := None, finished := s.finished + [r])
  {}

  /** The rest of a load that is about to read bytes that parse. */
  lemma PublishSteps(reader: Reader, steps: seq<Step>, l: Loading, tree: Tree)
    requires
      var s := After(reader, steps);
      && s.present && s.history != []
      && s.loading == Some(l) && l.phase == Reading(l.stat)
      && reader(s.history[|s.history| - 1].bytes) == Some(tree)
    ensures
      var s := After(reader, steps);
      var n := |s.history|;
      var served := Some(Served(Snapshot(s.history[n - 1].bytes, tree, Mtime(s.history, l.stat)), l.stat, n - 1));
      var r := Return(l.kind, l.before, served, l.stat, Some(n - 1), Published, l.changes == s.changes, true, n);
      After(reader, steps + [Read(true)] + [Parse] + [Publish] + [Release]) ==
      s.(current := served, past := s.past + [served], loading := None, finished := s.finished + [r])
  {
    hide After, Next, Mtime;
    var s := After(reader, steps);
    var v := |s.history| - 1;
    var next := Served(Snapshot(s.history[v].bytes, tree, Mtime(s.history, l.stat)), l.stat, v);
    var read := l.(phase := Parsing(l.stat, v), read := Some(v));
    var parsed := read.(phase := Publishing(next));
    AfterOneMore(reader, steps, Read(true));
    ReadNext(reader, s, l);
    var steps1 := steps + [Read(true)];
    AfterOneMore(reader, steps1, Parse);
    ParseNext(reader, After(reader, steps1), read, v);
    var steps2 := steps1 + [Parse];
    AfterOneMore(reader, steps2, Publish);
    PublishNext(reader, After(reader, steps2), parsed, next);
    AfterOneMore(reader, steps2 + [Publish], Release);
    ReleaseNext(reader, After(reader, steps2 + [Publish]), parsed, Published);
  }

  /** A fresh database, about to read the bytes of its first content. */
  lemma AboutToRead(reader: Reader, first: Version) returns (steps: seq<Step>, l: Loading)
    ensures l == Loading(Reload, Reading(Some(0)), None, 1, Some(0), None, None)
    ensures After(reader, steps) == INIT.(history := [first], present := true, changes := 1, loading := Some(l))
  {
    steps := FirstTime(reader, [first], 0);
    assert [first][..1] == [first];
    l := After(reader, steps).loading.value;
  }

  /** First content of a fresh database, replaced by `later` between the two reads of its first load. */
  lemma FirstLoad(reader: Reader, first: Version, later: Version, tree: Tree)
    returns (steps: seq<Step>, served: Served)
    requires reader(later.bytes) == Some(tree)
    ensures
      var s := After(reader, steps);
      && s.history == [first, later] && s.present && s.loading.None?
      && served == Served(Snapshot(later.bytes, tree, Some(first.mtime)), Some(0), 1)
      && s.current == Some(served)
      && s.finished == [Return(Reload, None, Some(served), Some(0), Some(1), Published, false, true, 2)]
  {
    hide After;
    var l;
    steps, l := AboutToRead(reader, first);
    AfterOneMore(reader, steps, Replace(later));
    steps := steps + [Replace(later)];
    PublishSteps(reader, steps, l, tree);
    steps := steps + [Read(true)] + [Parse] + [Publish] + [Release];
    served := After(reader, steps).current.value;
  }

  /**
   * The lock alone does not keep two triggers from parsing the same content twice: when the file is
   * replaced during a load, the next reload publishes the same version again.
   */
  lemma ParsedTwice(reader: Reader, old_: Version, new_: Version, tree: Tree)
    returns (steps: seq<Step>, first: Return, second: Return)
    requires old_.mtime != new_.mtime && reader(new_.bytes) == Some(tree)
    ensures
      var s := After(reader, steps);
      && DistinctTimes(s.history)
      && s.finished == [first, second]
      && first.outcome == Published && second.outcome == Published
      && second.before == first.after && first.read == second.read == Some(1)
  {
    hide After;
    var served;
    steps, served := FirstLoad(reader, old_, new_, tree);
    FirstSteps(reader, steps);
    steps := steps + [Acquire(Reload)] + [Stat(true)];
    AfterOneMore(reader, steps, Compare);
    steps := steps + [Compare];
    PublishSteps(reader, steps, After(reader, steps).loading.value, tree);
    steps := steps + [Read(true)] + [Parse] + [Publish] + [Release];
    var s := After(reader, steps);
    first, second := s.finished[0], s.finished[1];
  }

  /** The rest of a load whose bytes do not parse. */
  lemma CorruptSteps(reader: Reader, steps: seq<Step>, l: Loading)
    requires
      var s := After(reader, steps);
      && s.present && s.history != []
      && s.loading == Some(l) && l.phase == Reading(l.stat)
      && reader(s.history[|s.history| - 1].bytes) == None
    ensures
      var s := After(reader, steps);
      var n := |s.history|;
      var r :=
        Return(l.kind, l.before, s.current, l.stat, Some(n - 1), Failed(Corrupt), l.changes == s.changes, true, n);
      After(reader, steps + [Read(true)] + [Parse] + [Release]) ==
      s.(loading := None, finished := s.finished + [r])
  {
    hide After, Next, Mtime;
    var s := After(reader, steps);
    var v := |s.history| - 1;
    var read := l.(phase := Parsing(l.stat, v), read := Some(v));
    AfterOneMore(reader, steps, Read(true));
    ReadNext(reader, s, l);
    var steps1 := steps + [Read(true)];
    AfterOneMore(reader, steps1, Parse);
    ParseNext(reader, After(reader, steps1), read, v);
    AfterOneMore(reader, steps1 + [Parse], Release);
    ReleaseNext(reader, After(reader, steps1 + [Parse]), read, Failed(Corrupt));
  }

  /**
   * A file that does not parse is parsed by every reload, although nothing changes: a failed load
   * records no modification time.
   */
  lemma MalformedParsedAgain(reader: Reader, version: Version)
    returns (steps: seq<Step>, first: Return, second: Return)
    requires reader(version.bytes) == None
    ensures
      var s := After(reader, steps);
      && s.history == [version]
      && s.finished == [first, second]
      && first.kind == Reload && second.kind == Reload && first.quiet && second.quiet
      && first.outcome == Failed(Corrupt) && second.outcome == Failed(Corrupt)
      && first.stat == first.read == second.read == Some(0)
  {
    hide After;
    var l;
    steps, l := AboutToRead(reader, version);
    CorruptSteps(reader, steps, l);
    steps := steps + [Read(true)] + [Parse] + [Release];
    FirstSteps(reader, steps);
    steps := steps + [Acquire(Reload)] + [Stat(true)];
    AfterOneMore(reader, steps, Compare);
    steps := steps + [Compare];
    CorruptSteps(reader, steps, After(reader, steps).loading.value);
    steps := steps + [Read(true)] + [Parse] + [Release];
    var s := After(reader, steps);
    first, second := s.finished[0], s.finished[1];
  }

  // ----- when skipping is sound -----

  /** In every run through these versions, a reload that skips serves the version it read the time of. */
  ghost predicate SkipsSoundly(reader: Reader, history: seq<Version>) {
    forall steps: seq<Step>, r: Return ::
      r in After(reader, steps).finished && After(reader, steps).history == history && r.outcome == Skipped ==>
        r.stat.Some? && r.after.Some? && r.after.value.version == r.stat.value
  }

  /**
   * No later version has the modification time of a version up to which a parsing one could be read
   * with that time.
   */
  ghost predicate NoTimeReturns(reader: Reader, history: seq<Version>) {
    forall w, x, j :: 0 <= w <= x < j < |history| && history[w].mtime == history[j].mtime ==>
      reader(history[x].bytes).None?
  }

  /** If every version parses, that is: all modification times differ. */
  lemma DistinctTimesSuffice(reader: Reader, history: seq<Version>)
    requires forall v <- history :: reader(v.bytes).Some?
    ensures NoTimeReturns(reader, history) <==> DistinctTimes(history)
  {
    if NoTimeReturns(reader, history) {
      forall i, j | 0 <= i < j < |history| ensures history[i].mtime != history[j].mtime {
        assert history[i] in history;
      }
    }
  }

  /** Skipping is sound in all runs through these versions if and only if no modification time returns. */
  lemma SkipsSoundlyIff(reader: Reader, history: seq<Version>)
    ensures SkipsSoundly(reader, history) <==> NoTimeReturns(reader, history)
    ensures
      (forall v <- history :: reader(v.bytes).Some?) ==>
        (SkipsSoundly(reader, history) <==> DistinctTimes(history))
  {
    if NoTimeReturns(reader, history) {
      forall steps: seq<Step>, r: Return |
        r in After(reader, steps).finished && After(reader, steps).history == history && r.outcome == Skipped
        ensures r.stat.Some? && r.after.Some? && r.after.value.version == r.stat.value
      {
        Always(reader, steps);
        SkipAt(reader, history, r);
      }
    }
    if SkipsSoundly(reader, history) {
      forall w, x, j | 0 <= w <= x < j < |history| && history[w].mtime == history[j].mtime
        ensures reader(history[x].bytes).None?
      {
        if reader(history[x].bytes).Some? {
          var steps, r := SkipsStale(reader, history, w, x, j, reader(history[x].bytes).value);
        }
      }
    }
    if forall v <- history :: reader(v.bytes).Some? {
      DistinctTimesSuffice(reader, history);
    }
  }

  /** In every run through these versions, a reload that skips serves the bytes that were at the path. */
  ghost predicate SkipsServeTheBytes(reader: Reader, history: seq<Version>) {
    forall steps: seq<Step>, r: Return ::
      r in After(reader, steps).finished && After(reader, steps).history == history && r.outcome == Skipped ==>
        && r.stat.Some? && r.stat.value < |history| && r.after.Some?
        && r.after.value.snapshot.bytes == history[r.stat.value].bytes
  }

  /** Where a modification time returns, so do the bytes that could be served under it. */
  ghost predicate BytesReturn(reader: Reader, history: seq<Version>) {
    forall w, x, j :: 0 <= w <= x < j < |history| && history[w].mtime == history[j].mtime ==>
      reader(history[x].bytes).None? || history[x].bytes == history[j].bytes
  }

  /**
   * The exact condition under which a skip serves exactly the bytes that were at the path when it read the
   * modification time.
   */
  lemma SkipsServeTheBytesIff(reader: Reader, history: seq<Version>)
    ensures SkipsServeTheBytes(reader, history) <==> BytesReturn(reader, history)
  {
    if BytesReturn(reader, history) {
      forall steps: seq<Step>, r: Return |
        r in After(reader, steps).finished && After(reader, steps).history == history && r.outcome == Skipped
        ensures r.stat.Some? && r.stat.value < |history| && r.after.Some?
        ensures r.after.value.snapshot.bytes == history[r.stat.value].bytes
      {
        Always(reader, steps);
        SkipBytesAt(reader, history, r);
      }
    }
    if SkipsServeTheBytes(reader, history) {
      forall w, x, j | 0 <= w <= x < j < |history| && history[w].mtime == history[j].mtime
        ensures reader(history[x].bytes).None? || history[x].bytes == history[j].bytes
      {
        if reader(history[x].bytes).Some? {
          var steps, r := SkipsStale(reader, history, w, x, j, reader(history[x].bytes).value);
        }
      }
    }
  }

  lemma SkipBytesAt(reader: Reader, history: seq<Version>, r: Return)
    requires ReturnInv(reader, history, r) && r.outcome == Skipped && BytesReturn(reader, history)
    ensures r.stat.Some? && r.stat.value < |history| && r.after.Some?
    ensures r.after.value.snapshot.bytes == history[r.stat.value].bytes
  {
    var sv := r.before.value;
    assert Matches(SnapshotOf(r.before), history[r.stat.value].mtime);
    assert history[sv.statted.value].mtime == history[r.stat.value].mtime;
  }

  lemma SkipAt(reader: Reader, history: seq<Version>, r: Return)
    requires ReturnInv(reader, history, r) && r.outcome == Skipped && NoTimeReturns(reader, history)
    ensures r.stat.Some? && r.after.Some? && r.after.value.version == r.stat.value
  {
    var sv := r.before.value;
    assert Matches(SnapshotOf(r.before), history[r.stat.value].mtime);
    assert history[sv.statted.value].mtime == history[r.stat.value].mtime;
  }

  function Replacements(versions: seq<Version>): (steps: seq<Step>)
    ensures |steps| == |versions|
  {
    seq(|versions|, i requires 0 <= i < |versions| => Replace(versions[i]))
  }

  lemma {:induction false} AfterReplacements(reader: Reader, steps: seq<Step>, versions: seq<Version>)
    ensures
      var s := After(reader, steps);
      After(reader, steps + Replacements(versions)) ==
      s.(history := s.history + versions, present := s.present || versions != [], changes := s.changes + |versions|)
  {
    hide After;
    if versions == [] {
      assert steps + Replacements(versions) == steps;
    } else {
      var n := |versions| - 1;
      AfterReplacements(reader, steps, versions[..n]);
      AfterOneMore(reader, steps + Replacements(versions[..n]), Replace(versions[n]));
      assert steps + Replacements(versions) == steps + Replacements(versions[..n]) + [Replace(versions[n])];
      assert versions == versions[..n] + [versions[n]];
    }
  }

  /** A first load has read the time of version `w`, and is about to read the bytes. */
  lemma FirstTime(reader: Reader, history: seq<Version>, w: nat) returns (steps: seq<Step>)
    requires w < |history|
    ensures
      var l := Loading(Reload, Reading(Some(w)), None, w + 1, Some(w), None, None);
      After(reader, steps) ==
      INIT.(history := history[..w + 1], present := true, changes := w + 1, loading := Some(l))
  {
    hide After;
    assert After(reader, []) == INIT by { AfterNothing(reader); }
    AfterReplacements(reader, [], history[..w + 1]);
    steps := [] + Replacements(history[..w + 1]);
    FirstSteps(reader, steps);
    steps := steps + [Acquire(Reload)] + [Stat(true)];
    AfterOneMore(reader, steps, Compare);
    steps := steps + [Compare];
  }

  /** It reads the bytes of version `x`. */
  lemma FirstLoadOf(reader: Reader, history: seq<Version>, w: nat, x: nat, tree: Tree) returns (steps: seq<Step>)
    requires w <= x < |history| && reader(history[x].bytes) == Some(tree)
    ensures
      var s := After(reader, steps);
      && s.history == history[..x + 1] && s.present && s.loading.None?
      && s.current == Some(Served(Snapshot(history[x].bytes, tree, Some(history[w].mtime)), Some(w), x))
  {
    hide After, Replacements;
    steps := FirstTime(reader, history, w);
    AfterReplacements(reader, steps, history[w + 1..x + 1]);
    steps := steps + Replacements(history[w + 1..x + 1]);
    assert history[..w + 1] + history[w + 1..x + 1] == history[..x + 1];
    PublishSteps(reader, steps, After(reader, steps).loading.value, tree);
    steps := steps + [Read(true)] + [Parse] + [Publish] + [Release];
  }

  /** Then version `j`, which has the time of version `w`, is skipped. */
  lemma SkipsStale(reader: Reader, history: seq<Version>, w: nat, x: nat, j: nat, tree: Tree)
    returns (steps: seq<Step>, r: Return)
    requires w <= x < j < |history| && history[w].mtime == history[j].mtime
    requires reader(history[x].bytes) == Some(tree)
    ensures
      var s := After(reader, steps);
      && s.history == history && r in s.finished && r.outcome == Skipped
      && r.stat == Some(j) && r.after.Some? && r.after.value.version == x
      && r.after.value.snapshot.bytes == history[x].bytes
  {
    hide After;
    steps := FirstLoadOf(reader, history, w, x, tree);
    AfterReplacements(reader, steps, history[x + 1..j + 1]);
    steps := steps + Replacements(history[x + 1..j + 1]);
    assert history[..x + 1] + history[x + 1..j + 1] == history[..j + 1];
    SkipSteps(reader, steps);
    steps := steps + [Acquire(Reload)] + [Stat(true)] + [Compare] + [Release];
    var finished := After(reader, steps).finished;
    r := finished[|finished| - 1];
    AfterReplacements(reader, steps, history[j + 1..]);
    steps := steps + Replacements(history[j + 1..]);
    assert history[..j + 1] + history[j + 1..] == history;
  }

  /** Distinct modification times are needed: a replacement that keeps the time is skipped. */
  lemma StaleSkip(reader: Reader, mtime: int, a: seq<byte>, b: seq<byte>, tree: Tree)
    returns (steps: seq<Step>, r: Return)
    requires a != b && reader(a) == Some(tree)
    ensures
      var s := After(reader, steps);
      && r in s.finished && r.outcome == Skipped && r.after.Some?
      && r.stat == Some(1) && s.history == [Version(mtime, a), Version(mtime, b)]
      && r.after.value.snapshot.bytes == a
  {
    steps, r := SkipsStale(reader, [Version(mtime, a), Version(mtime, b)], 0, 0, 1, tree);
  }

  lemma AfterNothing(reader: Reader)
    ensures After(reader, []) == INIT
  {}
}
