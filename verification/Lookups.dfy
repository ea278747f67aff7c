/** Lookups of the reload protocol (src/mmdb.rs, `lookup`), step by step. */
module Lookups {
  import opened Wrappers
  import opened Builder
  import opened Mmdb
  import opened HotReload

  /** Position of the snapshot in service after these steps, counted from the start. */
  function Position(reader: Reader, steps: seq<Step>): nat {
    |After(reader, steps).past| - 1
  }

  /** The lookup came in at step `i`. */
  ghost predicate EnteredAt(reader: Reader, steps: seq<Step>, i: nat, id: nat, entered: nat) {
    i < |steps| && steps[i] == Enter(id) && entered == Position(reader, steps[..i])
  }

  /** It took the snapshot that was in service at its step `k`. */
  ghost predicate TookAt(
    reader: Reader, steps: seq<Step>, i: nat, k: nat, id: nat, entered: nat, took: nat, served: Option<Served>)
  {
    && i < k < |steps| && EnteredAt(reader, steps, i, id, entered) && steps[k] == TakeSnapshot(id)
    && took == Position(reader, steps[..k]) && served == After(reader, steps[..k]).current
  }

  /** It came back at step `j` with that snapshot. */
  ghost predicate LeftAt(reader: Reader, steps: seq<Step>, i: nat, k: nat, j: nat, id: nat, a: Answer) {
    && k < j < |steps| && TookAt(reader, steps, i, k, id, a.entered, a.took, a.served)
    && steps[j] == Finish(id) && a.left == Position(reader, steps[..j])
  }

  /** What is known of a lookup in flight. */
  ghost predicate Begun(reader: Reader, steps: seq<Step>, id: nat, lookup: Lookup) {
    match lookup
    case Entered(entered) => exists i :: EnteredAt(reader, steps, i, id, entered)
    case Took(entered, took, served) => exists i, k :: TookAt(reader, steps, i, k, id, entered, took, served)
  }

  ghost predicate Answered(reader: Reader, steps: seq<Step>, a: Answer) {
    exists i, k, j, id :: LeftAt(reader, steps, i, k, j, id, a)
  }

  // ----- one step more -----

  lemma EnteredEarlier(reader: Reader, steps: seq<Step>, step: Step, i: nat, id: nat, entered: nat)
    requires EnteredAt(reader, steps, i, id, entered)
    ensures EnteredAt(reader, steps + [step], i, id, entered)
  {
    assert (steps + [step])[..i] == steps[..i];
  }

  lemma TookEarlier(
    reader: Reader, steps: seq<Step>, step: Step, i: nat, k: nat, id: nat, entered: nat, took: nat,
    served: Option<Served>)
    requires TookAt(reader, steps, i, k, id, entered, took, served)
    ensures TookAt(reader, steps + [step], i, k, id, entered, took, served)
  {
    EnteredEarlier(reader, steps, step, i, id, entered);
    assert (steps + [step])[..k] == steps[..k];
  }

  lemma BegunEarlier(reader: Reader, steps: seq<Step>, step: Step, id: nat, lookup: Lookup)
    requires Begun(reader, steps, id, lookup)
    ensures Begun(reader, steps + [step], id, lookup)
  {
    hide EnteredAt, TookAt;
    match lookup
    case Entered(entered) =>
      var i :| EnteredAt(reader, steps, i, id, entered);
      EnteredEarlier(reader, steps, step, i, id, entered);
    case Took(entered, took, served) =>
      var i, k :| TookAt(reader, steps, i, k, id, entered, took, served);
      TookEarlier(reader, steps, step, i, k, id, entered, took, served);
  }

  lemma AnsweredEarlier(reader: Reader, steps: seq<Step>, step: Step, a: Answer)
    requires Answered(reader, steps, a)
    ensures Answered(reader, steps + [step], a)
  {
    hide EnteredAt, Position, After;
    var i: nat, k: nat, j: nat, id: nat :| LeftAt(reader, steps, i, k, j, id, a);
    TookEarlier(reader, steps, step, i, k, id, a.entered, a.took, a.served);
    assert (steps + [step])[..j] == steps[..j];
    assert LeftAt(reader, steps + [step], i, k, j, id, a);
  }

  /** What a step does to the lookups and the answers. */
  lemma LookupNext(reader: Reader, s: State, step: Step)
    requires WellFormed(s)
    ensures
      var t := Next(reader, s, step);
      var position := |s.past| - 1;
      match step
      case Enter(id) =>
        t.answers == s.answers
        && t.lookups == if id in s.lookups then s.lookups else s.lookups[id := Entered(position)]
      case TakeSnapshot(id) =>
        t.answers == s.answers
        && t.lookups ==
           if id in s.lookups && s.lookups[id].Entered?
           then s.lookups[id := Took(s.lookups[id].entered, position, s.current)] else s.lookups
      case Finish(id) =>
        if id in s.lookups && s.lookups[id].Took? then
          var l := s.lookups[id];
          t.lookups == s.lookups - {id} && t.answers == s.answers + [Answer(l.entered, l.took, position, l.served)]
        else t.lookups == s.lookups && t.answers == s.answers
      case _ => t.lookups == s.lookups && t.answers == s.answers
    ensures IsLookupStep(step) ==> Next(reader, s, step).past == s.past && Next(reader, s, step).current == s.current
  {}

  lemma BegunStep(reader: Reader, steps: seq<Step>, step: Step, id: nat)
    requires forall x :: x in After(reader, steps).lookups ==> Begun(reader, steps, x, After(reader, steps).lookups[x])
    requires id in After(reader, steps + [step]).lookups
    ensures Begun(reader, steps + [step], id, After(reader, steps + [step]).lookups[id])
  {
    hide Next, After, WellFormed;
    var s := After(reader, steps);
    var more := steps + [step];
    AfterOneMore(reader, steps, step);
    LookupNext(reader, s, step);
    var n := |steps|;
    assert more[..n] == steps && more[n] == step;
    if id in s.lookups && After(reader, more).lookups[id] == s.lookups[id] {
      BegunEarlier(reader, steps, step, id, s.lookups[id]);
    } else if step == Enter(id) {
      assert EnteredAt(reader, more, n, id, |s.past| - 1);
    } else {
      var entered := s.lookups[id].entered;
      var i :| EnteredAt(reader, steps, i, id, entered);
      EnteredEarlier(reader, steps, step, i, id, entered);
      assert TookAt(reader, more, i, n, id, entered, |s.past| - 1, s.current);
    }
  }

  lemma AnsweredStep(reader: Reader, steps: seq<Step>, step: Step, a: Answer)
    requires forall x :: x in After(reader, steps).lookups ==> Begun(reader, steps, x, After(reader, steps).lookups[x])
    requires a in After(reader, steps + [step]).answers && a !in After(reader, steps).answers
    ensures Answered(reader, steps + [step], a)
  {
    hide Next, After, WellFormed, EnteredAt;
    var s := After(reader, steps);
    var more := steps + [step];
    AfterOneMore(reader, steps, step);
    LookupNext(reader, s, step);
    var n := |steps|;
    assert more[..n] == steps && more[n] == step;
    var id := step.id;
    assert Begun(reader, steps, id, s.lookups[id]);
    var Took(entered, took, served) := s.lookups[id];
    var i, k :| TookAt(reader, steps, i, k, id, entered, took, served);
    TookEarlier(reader, steps, step, i, k, id, entered, took, served);
    assert LeftAt(reader, more, i, k, n, id, a);
  }

  lemma {:induction false} AllBegun(reader: Reader, steps: seq<Step>, id: nat)
    requires id in After(reader, steps).lookups
    ensures Begun(reader, steps, id, After(reader, steps).lookups[id])
  {
    hide Begun, Next;
    assert steps != [];
    var before, step := steps[..|steps| - 1], steps[|steps| - 1];
    forall x | x in After(reader, before).lookups
      ensures Begun(reader, before, x, After(reader, before).lookups[x])
    {
      AllBegun(reader, before, x);
    }
    assert steps == before + [step];
    BegunStep(reader, before, step, id);
  }

  /**
   * In every run, each answer is that of a lookup which came in at one step, took at a later step the very
   * snapshot in service there, and came back at a still later step.
   */
  lemma {:induction false} LookupsTakeWhatIsServed(reader: Reader, steps: seq<Step>, a: Answer)
    requires a in After(reader, steps).answers
    ensures Answered(reader, steps, a)
  {
    hide Answered, Begun, Next;
    assert steps != [];
    var before, step := steps[..|steps| - 1], steps[|steps| - 1];
    assert steps == before + [step];
    if a in After(reader, before).answers {
      LookupsTakeWhatIsServed(reader, before, a);
      AnsweredEarlier(reader, before, step, a);
    } else {
      forall x | x in After(reader, before).lookups
        ensures Begun(reader, before, x, After(reader, before).lookups[x])
      {
        AllBegun(reader, before, x);
      }
      AnsweredStep(reader, before, step, a);
    }
  }

  /** A lookup that nothing interrupts answers from the snapshot in service. */
  lemma UninterruptedLookup(reader: Reader, steps: seq<Step>, id: nat)
    requires id !in After(reader, steps).lookups
    ensures
      var s, t := After(reader, steps), After(reader, steps + [Enter(id)] + [TakeSnapshot(id)] + [Finish(id)]);
      && t.answers == s.answers + [Answer(|s.past| - 1, |s.past| - 1, |s.past| - 1, s.current)]
      && t.lookups == s.lookups && t.current == s.current
  {
    hide After, Next, WellFormed;
    var s := After(reader, steps);
    var entered := steps + [Enter(id)];
    var took := entered + [TakeSnapshot(id)];
    AfterOneMore(reader, steps, Enter(id));
    AfterOneMore(reader, entered, TakeSnapshot(id));
    AfterOneMore(reader, took, Finish(id));
    LookupNext(reader, s, Enter(id));
    LookupNext(reader, After(reader, entered), TakeSnapshot(id));
    LookupNext(reader, After(reader, took), Finish(id));
    assert s.lookups[id := Entered(|s.past| - 1)] - {id} == s.lookups;
  }
}
