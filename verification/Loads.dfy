/**
 * Single loads of the reload protocol (src/mmdb.rs, `load`, `reload_if_changed`, `load_locked`): what a
 * load does that nothing interrupts, and why a load ended the way it did.
 */
module Loads {
  import opened Bits
  import opened Wrappers
  import opened Builder
  import opened Mmdb
  import opened HotReload

  // ----- what changes of the file mean -----

  /** What is at the path: the version of the latest change, unless it was removed. */
  lemma FileMeaning(reader: Reader, steps: seq<Step>, version: Version, mtime: int)
    ensures
      var s := After(reader, steps);
      var replaced, touched, removed :=
        Next(reader, s, Replace(version)), Next(reader, s, Touch(mtime)), Next(reader, s, Remove);
      && StatAnswer(replaced, true) == Some(version.mtime) && ReadAnswer(replaced, true) == Some(version.bytes)
      && StatAnswer(touched, true) == (if ReadAnswer(s, true).None? then None else Some(mtime))
      && ReadAnswer(touched, true) == ReadAnswer(s, true)
      && StatAnswer(removed, true) == None && ReadAnswer(removed, true) == None
      && (forall t :: t in {replaced, touched, removed} ==> s.history <= t.history && t.current == s.current)
  {
    hide After;
  }

  // ----- a load that nothing interrupts -----

  /** All steps of one load. Those after its end do nothing, up to the release of the lock. */
  function WholeLoad(kind: Kind, ok: bool, readOk: bool): seq<Step> {
    [Acquire(kind), Stat(ok), Compare, Read(readOk), Parse, Publish, Release]
  }

  /** The modification time the file system answers. */
  function StatAnswer(s: State, ok: bool): Option<int> {
    if ok && s.present && s.history != [] then Some(s.history[|s.history| - 1].mtime) else None
  }

  /** The bytes the file system answers. */
  function ReadAnswer(s: State, ok: bool): Option<seq<byte>> {
    if ok && s.present && s.history != [] then Some(s.history[|s.history| - 1].bytes) else None
  }

  /** The snapshot and the outcome of `load` and of `reload_if_changed` as single calls. */
  function OutcomeOfLoad(
    kind: Kind, before: Option<Snapshot>, stat: Option<int>, read: Option<seq<byte>>, reader: Reader)
    : (Option<Snapshot>, Outcome)
  {
    if kind == Load then
      match Loaded(before, stat, read, reader)
      case (after, Ok(_)) => (after, Published)
      case (after, Err(e)) => (after, Failed(e))
    else
      match Reloaded(before, stat, read, reader)
      case (after, Ok(published)) => (after, if published then Published else Skipped)
      case (after, Err(e)) => (after, Failed(e))
  }

  /** The state from the start of a load to its end, step by step. */
  lemma SevenSteps(reader: Reader, steps: seq<Step>, kind: Kind, ok: bool, readOk: bool)
    returns (s1: State, s2: State, s3: State, s4: State, s5: State, s6: State)
    ensures WellFormed(s1) && WellFormed(s2) && WellFormed(s3) && WellFormed(s4) && WellFormed(s5) && WellFormed(s6)
    ensures s1 == Next(reader, After(reader, steps), Acquire(kind)) && s2 == Next(reader, s1, Stat(ok))
    ensures s3 == Next(reader, s2, Compare) && s4 == Next(reader, s3, Read(readOk))
    ensures s5 == Next(reader, s4, Parse) && s6 == Next(reader, s5, Publish)
    ensures After(reader, steps + WholeLoad(kind, ok, readOk)) == Next(reader, s6, Release)
  {
    hide Next, After;
    var run := steps + [Acquire(kind)];
    AfterOneMore(reader, steps, Acquire(kind));
    s1 := After(reader, run);
    AfterOneMore(reader, run, Stat(ok));
    run := run + [Stat(ok)];
    s2 := After(reader, run);
    AfterOneMore(reader, run, Compare);
    run := run + [Compare];
    s3 := After(reader, run);
    AfterOneMore(reader, run, Read(readOk));
    run := run + [Read(readOk)];
    s4 := After(reader, run);
    AfterOneMore(reader, run, Parse);
    run := run + [Parse];
    s5 := After(reader, run);
    AfterOneMore(reader, run, Publish);
    run := run + [Publish];
    s6 := After(reader, run);
    AfterOneMore(reader, run, Release);
    assert run + [Release] == steps + WholeLoad(kind, ok, readOk);
  }

  lemma StatNext(reader: Reader, s: State, kind: Kind, ok: bool)
    requires WellFormed(s) && s.loading.None?
    ensures
      var l := Loading(kind, Locked, s.current, s.changes, None, None, None);
      var s1 := Next(reader, s, Acquire(kind));
      && s1 == s.(loading := Some(l))
      && Next(reader, s1, Stat(ok)) ==
         s.(loading := Some(
              if StatAnswer(s, ok).Some? then
                l.(phase := Statted(Some(|s.history| - 1)), stat := Some(|s.history| - 1))
              else if kind == Load then l.(phase := Statted(None)) else Finished(l, Failed(NoMetadata))))
  {}

  lemma CompareNext(reader: Reader, s: State, l: Loading)
    requires WellFormed(s) && s.loading == Some(l) && l.phase == Statted(l.stat)
    requires l.stat.Some? ==> l.stat.value < |s.history|
    ensures
      Next(reader, s, Compare) ==
      s.(loading := Some(
           if l.kind == Reload && l.stat.Some? && s.current.Some?
              && s.current.value.snapshot.modified == Some(s.history[l.stat.value].mtime)
           then Finished(l, Skipped)
           else l.(phase := Reading(l.stat))))
  {}

  /** Once a load is over only the release of the lock does anything. */
  lemma OverStays(reader: Reader, s: State, step: Step)
    requires WellFormed(s) && s.loading.Some? && s.loading.value.phase.Done?
    requires step.Compare? || step.Read? || step.Parse? || step.Publish?
    ensures Next(reader, s, step) == s
  {}

  lemma ReadFails(reader: Reader, s: State, l: Loading, ok: bool)
    requires WellFormed(s) && s.loading == Some(l) && l.phase == Reading(l.stat) && ReadAnswer(s, ok).None?
    ensures Next(reader, s, Read(ok)) == s.(loading := Some(Finished(l, Failed(Unreadable))))
  {}

  /** A load of this kind, started in `s`, is over in `t` with this outcome. */
  ghost predicate Over(s: State, t: State, kind: Kind, outcome: Outcome) {
    && t.loading.None? && t.history == s.history && t.present == s.present
    && (exists r :: t.finished == s.finished + [r] && r.kind == kind && r.outcome == outcome)
    && (outcome == Published ==> t.current.Some? && t.current.value.version == |s.history| - 1)
    && (outcome != Published ==> t.current == s.current)
  }

  /** It did to the snapshot what the call with these answers does, and ended as it ends. */
  ghost predicate ActsAs(
    reader: Reader, s: State, t: State, kind: Kind, stat: Option<int>, read: Option<seq<byte>>)
  {
    var (snapshot, outcome) := OutcomeOfLoad(kind, SnapshotOf(s.current), stat, read, reader);
    SnapshotOf(t.current) == snapshot && Over(s, t, kind, outcome)
  }

  lemma EndReleased(reader: Reader, s: State, l: Loading, outcome: Outcome)
    requires WellFormed(s) && s.loading == Some(Finished(l, outcome))
    ensures
      var t := Next(reader, s, Release);
      && t.loading.None? && t.current == s.current && t.history == s.history && t.present == s.present
      && exists r :: t.finished == s.finished + [r] && r.kind == l.kind && r.outcome == outcome
  {
    ReleaseNext(reader, s, l, outcome);
    hide Next;
    var t := Next(reader, s, Release);
    assert t.finished == s.finished + [t.finished[|s.finished|]];
  }

  /** What the single calls do, case by case. */
  lemma OutcomeCases(
    kind: Kind, before: Option<Snapshot>, stat: Option<int>, read: Option<seq<byte>>, reader: Reader)
    ensures
      OutcomeOfLoad(kind, before, stat, read, reader) ==
      if kind == Reload && stat.None? then (before, Failed(NoMetadata))
      else if kind == Reload && before.Some? && before.value.modified == stat then (before, Skipped)
      else
        match read
        case None => (before, Failed(Unreadable))
        case Some(bytes) =>
          match reader(bytes)
          case None => (before, Failed(Corrupt))
          case Some(tree) => (Some(Snapshot(bytes, tree, stat)), Published)
  {}

  /** `Over` does not look at the load in progress. */
  lemma OverFrom(s: State, s2: State, t: State, kind: Kind, outcome: Outcome)
    requires s2 == s.(loading := s2.loading) && Over(s2, t, kind, outcome)
    ensures Over(s, t, kind, outcome)
  {}

  lemma SkippedRest(reader: Reader, s3: State, s4: State, s5: State, s6: State, t: State, l: Loading, readOk: bool)
    requires WellFormed(s3) && WellFormed(s4) && WellFormed(s5) && WellFormed(s6)
    requires s4 == Next(reader, s3, Read(readOk)) && s5 == Next(reader, s4, Parse)
    requires s6 == Next(reader, s5, Publish) && t == Next(reader, s6, Release)
    requires s3.loading == Some(Finished(l, Skipped))
    ensures Over(s3, t, l.kind, Skipped)
  {
    hide Next, WellFormed;
    OverStays(reader, s3, Read(readOk));
    OverStays(reader, s3, Parse);
    OverStays(reader, s3, Publish);
    EndReleased(reader, s3, l, Skipped);
  }

  lemma UnreadableRest(reader: Reader, s3: State, s4: State, s5: State, s6: State, t: State, l: Loading, readOk: bool)
    requires WellFormed(s3) && WellFormed(s4) && WellFormed(s5) && WellFormed(s6)
    requires s4 == Next(reader, s3, Read(readOk)) && s5 == Next(reader, s4, Parse)
    requires s6 == Next(reader, s5, Publish) && t == Next(reader, s6, Release)
    requires s3.loading == Some(l) && l.phase == Reading(l.stat) && ReadAnswer(s3, readOk).None?
    ensures Over(s3, t, l.kind, Failed(Unreadable))
  {
    hide Next, WellFormed;
    ReadFails(reader, s3, l, readOk);
    OverStays(reader, s4, Parse);
    OverStays(reader, s4, Publish);
    EndReleased(reader, s4, l, Failed(Unreadable));
  }

  /** From the comparison on, with the time read. */
  lemma AfterStat(
    reader: Reader, s2: State, s3: State, s4: State, s5: State, s6: State, t: State, l: Loading, readOk: bool)
    requires WellFormed(s2) && WellFormed(s3) && WellFormed(s4) && WellFormed(s5) && WellFormed(s6)
    requires s3 == Next(reader, s2, Compare) && s4 == Next(reader, s3, Read(readOk))
    requires s5 == Next(reader, s4, Parse) && s6 == Next(reader, s5, Publish) && t == Next(reader, s6, Release)
    requires s2.loading == Some(l) && l.phase == Statted(l.stat) && (l.kind == Reload ==> l.stat.Some?)
    requires l.stat.Some? ==> l.stat.value < |s2.history|
    ensures ActsAs(reader, s2, t, l.kind, Mtime(s2.history, l.stat), ReadAnswer(s2, readOk))
  {
    hide Next, WellFormed, OutcomeOfLoad, Over;
    CompareNext(reader, s2, l);
    OutcomeCases(l.kind, SnapshotOf(s2.current), Mtime(s2.history, l.stat), ReadAnswer(s2, readOk), reader);
    var reading := l.(phase := Reading(l.stat));
    if s3.loading == Some(Finished(l, Skipped)) {
      SkippedRest(reader, s3, s4, s5, s6, t, l, readOk);
      OverFrom(s2, s3, t, l.kind, Skipped);
      Unchanged(s2, t, l.kind, Skipped);
    } else if ReadAnswer(s2, readOk).None? {
      UnreadableRest(reader, s3, s4, s5, s6, t, reading, readOk);
      OverFrom(s2, s3, t, l.kind, Failed(Unreadable));
      Unchanged(s2, t, l.kind, Failed(Unreadable));
    } else {
      AfterRead(reader, s3, s4, s5, s6, t, reading);
      if reader(s3.history[|s3.history| - 1].bytes).Some? {
        OverFrom(s2, s3, t, l.kind, Published);
      } else {
        OverFrom(s2, s3, t, l.kind, Failed(Corrupt));
        Unchanged(s2, t, l.kind, Failed(Corrupt));
      }
    }
  }

  lemma Unchanged(s: State, t: State, kind: Kind, outcome: Outcome)
    requires Over(s, t, kind, outcome) && outcome != Published
    ensures t.current == s.current
  {}

  /** From the read of the bytes on. */
  lemma AfterRead(reader: Reader, s3: State, s4: State, s5: State, s6: State, t: State, l: Loading)
    requires WellFormed(s3) && WellFormed(s4) && WellFormed(s5) && WellFormed(s6)
    requires s4 == Next(reader, s3, Read(true)) && s5 == Next(reader, s4, Parse)
    requires s6 == Next(reader, s5, Publish) && t == Next(reader, s6, Release)
    requires s3.loading == Some(l) && l.phase == Reading(l.stat) && s3.present && s3.history != []
    ensures
      var v := |s3.history| - 1;
      match reader(s3.history[v].bytes)
      case None => Over(s3, t, l.kind, Failed(Corrupt))
      case Some(tree) =>
        && Over(s3, t, l.kind, Published)
        && SnapshotOf(t.current) == Some(Snapshot(s3.history[v].bytes, tree, Mtime(s3.history, l.stat)))
  {
    hide Next, Mtime;
    var v := |s3.history| - 1;
    var read := l.(phase := Parsing(l.stat, v), read := Some(v));
    ReadNext(reader, s3, l);
    ParseNext(reader, s4, read, v);
    match reader(s3.history[v].bytes)
    case None =>
      OverStays(reader, s5, Publish);
      EndReleased(reader, s5, read, Failed(Corrupt));
    case Some(tree) =>
      var next := Served(Snapshot(s3.history[v].bytes, tree, Mtime(s3.history, l.stat)), l.stat, v);
      var parsed := read.(phase := Publishing(next));
      PublishNext(reader, s5, parsed, next);
      EndReleased(reader, s6, parsed, Published);
  }

  lemma NoTimeNoReload(reader: Reader, s2: State, t: State, l: Loading, read: Option<seq<byte>>)
    requires WellFormed(s2) && s2.loading == Some(Finished(l, Failed(NoMetadata))) && l.kind == Reload
    requires t == Next(reader, s2, Release)
    ensures ActsAs(reader, s2, t, Reload, None, read)
  {
    EndReleased(reader, s2, l, Failed(NoMetadata));
    hide Next;
  }

  /** `ActsAs` does not look at the load in progress. */
  lemma FromBefore(
    reader: Reader, s: State, s2: State, t: State, kind: Kind, stat: Option<int>, read: Option<seq<byte>>)
    requires s2 == s.(loading := s2.loading) && ActsAs(reader, s2, t, kind, stat, read)
    ensures ActsAs(reader, s, t, kind, stat, read)
  {
    hide OutcomeOfLoad;
  }

  /**
   * From every reachable state in which nobody loads, a load or a reload that nothing interrupts does to
   * the snapshot exactly what the single call does with what the file system answers, and ends as it ends.
   * If it publishes, the newest version is in service.
   */
  lemma UninterruptedLoad(reader: Reader, steps: seq<Step>, kind: Kind, ok: bool, readOk: bool)
    requires After(reader, steps).loading.None?
    ensures
      var s, t := After(reader, steps), After(reader, steps + WholeLoad(kind, ok, readOk));
      ActsAs(reader, s, t, kind, StatAnswer(s, ok), ReadAnswer(s, readOk))
  {
    hide After, ActsAs, WellFormed, Next;
    var s1, s2, s3, s4, s5, s6 := SevenSteps(reader, steps, kind, ok, readOk);
    var t := After(reader, steps + WholeLoad(kind, ok, readOk));
    SevenActAs(reader, After(reader, steps), s1, s2, s3, s4, s5, s6, t, kind, ok, readOk);
  }

  lemma SevenActAs(
    reader: Reader, s: State, s1: State, s2: State, s3: State, s4: State, s5: State, s6: State, t: State,
    kind: Kind, ok: bool, readOk: bool)
    requires WellFormed(s) && s.loading.None? && WellFormed(s1) && WellFormed(s2) && WellFormed(s3)
    requires WellFormed(s4) && WellFormed(s5) && WellFormed(s6)
    requires s1 == Next(reader, s, Acquire(kind)) && s2 == Next(reader, s1, Stat(ok))
    requires s3 == Next(reader, s2, Compare) && s4 == Next(reader, s3, Read(readOk))
    requires s5 == Next(reader, s4, Parse) && s6 == Next(reader, s5, Publish) && t == Next(reader, s6, Release)
    ensures ActsAs(reader, s, t, kind, StatAnswer(s, ok), ReadAnswer(s, readOk))
  {
    hide ActsAs, WellFormed, Next;
    StatNext(reader, s, kind, ok);
    var start := Loading(kind, Locked, s.current, s.changes, None, None, None);
    var read := ReadAnswer(s, readOk);
    var l := s2.loading.value;
    if kind == Reload && StatAnswer(s, ok).None? {
      OverStays(reader, s2, Compare);
      OverStays(reader, s2, Read(readOk));
      OverStays(reader, s2, Parse);
      OverStays(reader, s2, Publish);
      NoTimeNoReload(reader, s2, t, start, read);
      FromBefore(reader, s, s2, t, kind, None, read);
    } else {
      AfterStat(reader, s2, s3, s4, s5, s6, t, l, readOk);
      FromBefore(reader, s, s2, t, kind, StatAnswer(s, ok), read);
    }
  }

  /**
   * In particular the plain load of the start-up puts a well-formed file in service, under its
   * modification time, or under none when that cannot be read.
   */
  lemma LoadPublishes(reader: Reader, steps: seq<Step>, ok: bool, tree: Tree)
    requires
      var s := After(reader, steps);
      s.loading.None? && s.present && s.history != [] && reader(s.history[|s.history| - 1].bytes) == Some(tree)
    ensures
      var s, t := After(reader, steps), After(reader, steps + WholeLoad(Load, ok, true));
      var newest := s.history[|s.history| - 1];
      && SnapshotOf(t.current) == Some(Snapshot(newest.bytes, tree, if ok then Some(newest.mtime) else None))
      && t.current.value.version == |s.history| - 1
      && t.loading.None? && |t.finished| == |s.finished| + 1 && t.finished[|s.finished|].outcome == Published
  {
    hide After;
    UninterruptedLoad(reader, steps, Load, ok, true);
    var s, t := After(reader, steps), After(reader, steps + WholeLoad(Load, ok, true));
    var r :| t.finished == s.finished + [r] && r.kind == Load && r.outcome == Published;
  }

  // ----- why a load ended as it did -----

  /** This step ends the load `l` with this outcome, for the reason the outcome names. */
  ghost predicate Ends(reader: Reader, s: State, step: Step, l: Loading, outcome: Outcome) {
    match outcome
    case Failed(NoMetadata) => step.Stat? && l.kind == Reload && (!step.ok || !s.present)
    case Skipped =>
      && step.Compare? && l.kind == Reload && l.stat.Some? && l.stat.value < |s.history|
      && s.current.Some? && s.current.value.snapshot.modified == Some(s.history[l.stat.value].mtime)
    case Failed(Unreadable) => step.Read? && (!step.ok || !s.present)
    case Failed(Corrupt) =>
      step.Parse? && l.read.Some? && l.read.value < |s.history| && reader(s.history[l.read.value].bytes).None?
    case Published =>
      step.Publish? && l.read.Some? && l.read.value < |s.history| && reader(s.history[l.read.value].bytes).Some?
  }

  /** Step `k` of the run ends the load, which is then released as `r`. */
  ghost predicate EndedAt(reader: Reader, steps: seq<Step>, k: nat, l: Loading)
    requires k < |steps|
  {
    var s := After(reader, steps[..k]);
    && s.loading.Some? && !s.loading.value.phase.Done?
    && l.outcome.Some? && l == Finished(s.loading.value, l.outcome.value)
    && Ends(reader, s, steps[k], s.loading.value, l.outcome.value)
  }

  ghost predicate Told(r: Return, l: Loading) {
    r.kind == l.kind && r.before == l.before && r.stat == l.stat && r.read == l.read && Some(r.outcome) == l.outcome
  }

  ghost predicate Explained(reader: Reader, steps: seq<Step>, r: Return) {
    exists k, l :: 0 <= k < |steps| && EndedAt(reader, steps, k, l) && Told(r, l)
  }

  lemma EndStep(reader: Reader, s: State, step: Step)
    requires Inv(reader, s)
    ensures
      var s' := Next(reader, s, step);
      s'.loading.Some? && s'.loading.value.phase.Done? && s'.loading != s.loading ==>
        && s.loading.Some? && !s.loading.value.phase.Done?
        && s'.loading.value.outcome.Some?
        && s'.loading.value == Finished(s.loading.value, s'.loading.value.outcome.value)
        && Ends(reader, s, step, s.loading.value, s'.loading.value.outcome.value)
  {
    if s.loading.Some? {
      assert LoadingInv(reader, s, s.loading.value) && (s.present ==> s.history != []);
      hide Inv;
      EndLoadStep(reader, s, s.loading.value, step);
    }
    hide Inv;
  }

  lemma EndLoadStep(reader: Reader, s: State, l: Loading, step: Step)
    requires WellFormed(s) && s.loading == Some(l) && LoadingInv(reader, s, l) && (s.present ==> s.history != [])
    ensures
      var s' := LoadStep(reader, s, l, step);
      s'.loading.Some? && s'.loading.value.phase.Done? && s'.loading != s.loading ==>
        && !l.phase.Done?
        && s'.loading.value.outcome.Some?
        && s'.loading.value == Finished(l, s'.loading.value.outcome.value)
        && Ends(reader, s, step, l, s'.loading.value.outcome.value)
  {
    hide Atomic, Quiet, Ordered, Passed, Forward;
  }

  lemma ReleasedStep(reader: Reader, s: State, step: Step)
    requires Inv(reader, s)
    ensures
      var s' := Next(reader, s, step);
      || s'.finished == s.finished
      || (&& s.loading.Some? && s.loading.value.phase.Done?
          && exists r :: s'.finished == s.finished + [r] && Told(r, s.loading.value))
  {
    hide Genuine, LookupInv, AnswerInv, ReturnInv, LoadingInv, Forward;
    var s' := Next(reader, s, step);
    if s'.finished != s.finished {
      assert s'.finished == s.finished + [s'.finished[|s.finished|]];
    }
  }

  lemma EndedEarlier(reader: Reader, steps: seq<Step>, k: nat, l: Loading)
    requires steps != [] && k < |steps| - 1
    ensures EndedAt(reader, steps, k, l) <==> EndedAt(reader, steps[..|steps| - 1], k, l)
  {
    assert steps[..|steps| - 1][..k] == steps[..k];
  }

  lemma {:induction false} OverByAStep(reader: Reader, steps: seq<Step>, l: Loading)
    requires After(reader, steps).loading == Some(l) && l.phase.Done?
    ensures exists k: nat :: k < |steps| && EndedAt(reader, steps, k, l)
  {
    hide Ends, Inv;
    assert steps != [];
    var n := |steps| - 1;
    Always(reader, steps[..n]);
    EndStep(reader, After(reader, steps[..n]), steps[n]);
    hide Next;
    if After(reader, steps[..n]).loading == Some(l) {
      OverByAStep(reader, steps[..n], l);
      var k: nat :| k < n && EndedAt(reader, steps[..n], k, l);
      EndedEarlier(reader, steps, k, l);
    } else {
      assert EndedAt(reader, steps, n, l);
    }
  }

  /**
   * Every finished load of every run ended at a step of its own for the reason its outcome names: as
   * unreadable only at a read that failed or found no file, as skipped only when the time read was the one
   * served, and so on.
   */
  lemma {:induction false} LoadsAreExplained(reader: Reader, steps: seq<Step>, r: Return)
    requires r in After(reader, steps).finished
    ensures Explained(reader, steps, r)
  {
    hide Inv, EndedAt, Told;
    assert steps != [];
    var n := |steps| - 1;
    var s := After(reader, steps[..n]);
    Always(reader, steps[..n]);
    ReleasedStep(reader, s, steps[n]);
    hide Next;
    if r in s.finished {
      LoadsAreExplained(reader, steps[..n], r);
      var k, l :| 0 <= k < n && EndedAt(reader, steps[..n], k, l) && Told(r, l);
      EndedEarlier(reader, steps, k, l);
    } else {
      OverByAStep(reader, steps[..n], s.loading.value);
      var k: nat :| k < n && EndedAt(reader, steps[..n], k, s.loading.value);
      EndedEarlier(reader, steps, k, s.loading.value);
    }
  }
}
