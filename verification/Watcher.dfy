/**
 * The watcher (src/mmdb_watcher.rs) on top of the reload protocol (src/mmdb.rs): the reloads it triggers
 * interleave with changes of the file, and still add up to its loop.
 */
module Watcher {
  import opened Bits
  import opened Wrappers
  import opened Mmdb
  import opened HotReload

  /** What the file system answered to these loads. */
  function AnswersOf(history: seq<Version>, loads: seq<Return>): (answers: seq<Answers>)
    ensures |answers| == |loads|
    ensures
      forall k :: 0 <= k < |loads| ==>
        answers[k] == Answers(Mtime(history, loads[k].stat), Bytes(history, loads[k].read))
  {
    seq(|loads|, k requires 0 <= k < |loads| =>
      Answers(Mtime(history, loads[k].stat), Bytes(history, loads[k].read)))
  }

  /** What is in service after these loads, `start` before them. */
  function ServedAfter(start: Option<Served>, loads: seq<Return>): Option<Served> {
    if loads == [] then start else LastServed(loads)
  }

  ghost predicate Linked(start: Option<Served>, loads: seq<Return>) {
    forall k :: 0 <= k < |loads| ==> loads[k].before == ServedAfter(start, loads[..k])
  }

  /** What makes a reload: a batch that reaches the watcher, or an update run that built a database. */
  datatype Event = Watch(batch: Batch, answers: Answers) | Update(answers: Answers)

  predicate Reloading(event: Event, fileName: string) {
    event.Watch? ==> Triggers(event.batch, fileName)
  }

  /** The answers to the events that reload, in order. */
  function ReloadAnswers(events: seq<Event>, fileName: string): seq<Answers> {
    if events == [] then []
    else
      var n := |events| - 1;
      var before := ReloadAnswers(events[..n], fileName);
      if Reloading(events[n], fileName) then before + [events[n].answers] else before
  }

  /** The snapshot after the events: the loop of the watcher with reloads of update runs in between. */
  function AfterEvents(snapshot: Option<Snapshot>, events: seq<Event>, fileName: string, reader: Reader)
    : Option<Snapshot>
  {
    if events == [] then snapshot
    else
      var n := |events| - 1;
      var before := AfterEvents(snapshot, events[..n], fileName, reader);
      if Reloading(events[n], fileName) then
        Reloaded(before, events[n].answers.stat, events[n].answers.read, reader).0
      else before
  }

  /** An update run always reloads, and a batch does if and only if it is no error and names the file. */
  lemma EventMeaning(
    snapshot: Option<Snapshot>, events: seq<Event>, event: Event, fileName: string, reader: Reader)
    ensures
      var before := AfterEvents(snapshot, events, fileName, reader);
      AfterEvents(snapshot, events + [event], fileName, reader) ==
      if event.Update? || (event.batch.Events? && fileName in event.batch.names) then
        Reloaded(before, event.answers.stat, event.answers.read, reader).0
      else before
  {
    hide Reloaded;
    assert (events + [event])[..|events|] == events;
  }

  function WatchEvents(batches: seq<Batch>, answers: seq<Answers>): (events: seq<Event>)
    requires |answers| == |batches|
    ensures |events| == |batches|
  {
    seq(|batches|, k requires 0 <= k < |batches| => Watch(batches[k], answers[k]))
  }

  /** Without update runs that is the watcher's loop. */
  lemma {:induction false} WatchAlone(
    snapshot: Option<Snapshot>, batches: seq<Batch>, answers: seq<Answers>, fileName: string, reader: Reader)
    requires |answers| == |batches|
    ensures
      AfterEvents(snapshot, WatchEvents(batches, answers), fileName, reader) ==
      Watched(snapshot, batches, answers, fileName, reader)
  {
    if batches != [] {
      var n := |batches| - 1;
      WatchAlone(snapshot, batches[..n], answers[..n], fileName, reader);
      assert WatchEvents(batches, answers)[..n] == WatchEvents(batches[..n], answers[..n]);
    }
  }

  lemma OneReload(reader: Reader, history: seq<Version>, r: Return)
    requires r.kind == Reload && ReturnInv(reader, history, r)
    ensures
      SnapshotOf(r.after) ==
      Reloaded(SnapshotOf(r.before), Mtime(history, r.stat), HotReload.Bytes(history, r.read), reader).0
  {}

  /** Reloads one after the other act on the snapshot like the events that made them. */
  lemma {:induction false} EventsFold(
    reader: Reader, history: seq<Version>, start: Option<Served>, loads: seq<Return>, events: seq<Event>,
    fileName: string)
    requires forall r <- loads :: r.kind == Reload && ReturnInv(reader, history, r)
    requires Linked(start, loads) && ReloadAnswers(events, fileName) == AnswersOf(history, loads)
    ensures AfterEvents(SnapshotOf(start), events, fileName, reader) == SnapshotOf(ServedAfter(start, loads))
  {
    hide Linked, AnswersOf, ReturnInv, Reloaded, Reloading;
    if events == [] {
      assert loads == [] by { assert |AnswersOf(history, loads)| == |loads|; }
    } else {
      var n := |events| - 1;
      if Reloading(events[n], fileName) {
        var m := LastAnswered(history, start, loads, ReloadAnswers(events[..n], fileName), events[n].answers);
        EventsFold(reader, history, start, loads[..m], events[..n], fileName);
        OneReload(reader, history, loads[m]);
      } else {
        EventsFold(reader, history, start, loads, events[..n], fileName);
      }
    }
  }

  /** The last load is the one that got the last answer. */
  lemma LastAnswered(
    history: seq<Version>, start: Option<Served>, loads: seq<Return>, answers: seq<Answers>, last: Answers)
    returns (m: nat)
    requires Linked(start, loads) && answers + [last] == AnswersOf(history, loads)
    ensures m == |loads| - 1 && Linked(start, loads[..m]) && answers == AnswersOf(history, loads[..m])
    ensures loads[m].before == ServedAfter(start, loads[..m])
    ensures last == Answers(Mtime(history, loads[m].stat), HotReload.Bytes(history, loads[m].read))
  {
    hide Mtime, HotReload.Bytes, ServedAfter;
    assert |AnswersOf(history, loads)| == |loads|;
    m := |loads| - 1;
    assert answers == AnswersOf(history, loads)[..m] && last == AnswersOf(history, loads)[m];
    assert forall k :: 0 <= k < m ==> loads[..m][..k] == loads[..k];
  }

  /**
   * In every interleaving: if the loads from number `from` on are the reloads of the watcher and of update
   * runs, in whatever order, the snapshot they leave in service is the one the watcher's loop and those
   * reloads compute from what the file system answered.
   */
  lemma ProtocolRunsTheLoop(reader: Reader, steps: seq<Step>, from: nat, events: seq<Event>, fileName: string)
    requires from <= |After(reader, steps).finished|
    requires forall r <- After(reader, steps).finished[from..] :: r.kind == Reload
    requires
      ReloadAnswers(events, fileName) == AnswersOf(After(reader, steps).history, After(reader, steps).finished[from..])
    ensures
      var finished := After(reader, steps).finished;
      AfterEvents(SnapshotOf(LastServed(finished[..from])), events, fileName, reader) ==
      SnapshotOf(LastServed(finished))
  {
    hide Genuine, LookupInv, AnswerInv, LoadingInv, ReturnInv, After, AnswersOf, ReloadAnswers, AfterEvents;
    var s := After(reader, steps);
    var start, loads := LastServed(s.finished[..from]), s.finished[from..];
    LoadsFrom(reader, steps, from);
    EventsFold(reader, s.history, start, loads, events, fileName);
  }

  /** The loads of a run from number `from` on. */
  lemma LoadsFrom(reader: Reader, steps: seq<Step>, from: nat)
    requires from <= |After(reader, steps).finished|
    ensures
      var s := After(reader, steps);
      var start, loads := LastServed(s.finished[..from]), s.finished[from..];
      && (forall r <- loads :: ReturnInv(reader, s.history, r))
      && Linked(start, loads)
      && LastServed(s.finished) == ServedAfter(start, loads)
  {
    hide Genuine, LookupInv, AnswerInv, LoadingInv, ReturnInv, After;
    Always(reader, steps);
    AlwaysChained(reader, steps);
    LinkedFrom(After(reader, steps), from);
  }

  lemma LinkedFrom(s: State, from: nat)
    requires Chained(s) && from <= |s.finished|
    ensures Linked(LastServed(s.finished[..from]), s.finished[from..])
    ensures LastServed(s.finished) == ServedAfter(LastServed(s.finished[..from]), s.finished[from..])
  {
    var start, loads := LastServed(s.finished[..from]), s.finished[from..];
    hide LastServed, ServedAfter;
    forall k | 0 <= k < |loads| ensures loads[k].before == ServedAfter(start, loads[..k]) {
      LastOfRange(s.finished, from, k);
      assert s.finished[from + k] == loads[k];
    }
    LastOfRange(s.finished, from, |loads|);
    assert loads[..|loads|] == loads && s.finished[..from + |loads|] == s.finished;
  }

  lemma LastOfRange(finished: seq<Return>, from: nat, k: nat)
    requires from + k <= |finished|
    ensures LastServed(finished[..from + k]) == ServedAfter(LastServed(finished[..from]), finished[from..][..k])
  {}

  /**
   * The watcher catches up: once some reload `k` runs while a well-formed file is there and does not change,
   * and the file system answers, and no new version appears after it, exactly the content of the file is in
   * service in the end, whatever other reloads there were before and after.
   */
  lemma WatcherCatchesUp(
    reader: Reader, steps: seq<Step>, from: nat, k: nat, events: seq<Event>, fileName: string)
    requires from <= k < |After(reader, steps).finished|
    requires forall r <- After(reader, steps).finished[from..] :: r.kind == Reload
    requires
      ReloadAnswers(events, fileName) == AnswersOf(After(reader, steps).history, After(reader, steps).finished[from..])
    requires DistinctTimes(After(reader, steps).history)
    requires
      var s := After(reader, steps);
      var r := s.finished[k];
      && r.quiet && r.present && !Unanswered(r.outcome)
      && s.finished[|s.finished| - 1].newest == r.newest
      && match ContentAt(s.history, r) case Some(bytes) => reader(bytes).Some? case None => true
    ensures
      var s := After(reader, steps);
      var after := AfterEvents(SnapshotOf(LastServed(s.finished[..from])), events, fileName, reader);
      after.Some? && ContentAt(s.history, s.finished[k]) == Some(after.value.bytes)
  {
    hide After, Inv, Chained, AnswersOf, ReloadAnswers, AfterEvents, ContentAt;
    var finished := After(reader, steps).finished;
    assert finished[from..][k - from] == finished[k];
    ProtocolRunsTheLoop(reader, steps, from, events, fileName);
    Always(reader, steps);
    AlwaysChained(reader, steps);
    StillServed(reader, After(reader, steps), k);
  }

  lemma StillServed(reader: Reader, s: State, k: nat)
    requires Inv(reader, s) && Chained(s) && DistinctTimes(s.history) && k < |s.finished|
    requires
      var r := s.finished[k];
      && r.kind == Reload && r.quiet && r.present && !Unanswered(r.outcome)
      && s.finished[|s.finished| - 1].newest == r.newest
      && match ContentAt(s.history, r) case Some(bytes) => reader(bytes).Some? case None => true
    ensures
      var after := LastServed(s.finished);
      after.Some? && ContentAt(s.history, s.finished[k]) == Some(after.value.snapshot.bytes)
  {
    hide Inv, Chained, ReturnInv, DistinctTimes;
    var last := |s.finished| - 1;
    ReturnAt(reader, s, k);
    ReturnAt(reader, s, last);
    OneTriggerInv(reader, s.history, s.finished[k]);
    if k < last {
      ServedSince(reader, s, k, last);
      NotNewer(reader, s.history, s.finished[k], s.finished[last]);
    }
  }

  lemma NotNewer(reader: Reader, history: seq<Version>, r: Return, last: Return)
    requires ReturnInv(reader, history, last) && Forward(r.after, last.before) && last.newest == r.newest
    requires r.after.Some? && r.after.value.version == r.newest - 1 && r.newest <= |history|
    ensures last.after.Some? && last.after.value.snapshot.bytes == history[r.newest - 1].bytes
  {}
}
