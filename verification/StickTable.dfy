/**
 * The stick table in front of the agent (haproxy/haproxy.cfg, frontend `http-in`). Requests of many
 * sessions interleave between any two rules, table entries expire at any moment, answers may be lost.
 */
module StickTable {
  import opened Wrappers
  import opened Bits

  /** An entry's `gpt0` and the session whose request wrote it. */
  datatype Entry = Entry(mark: nat, writer: nat)

  /** `verdict` is the variable `sess.iprep.ip_bad`. */
  datatype Session = Session(src: u32, verdict: Option<bool>)

  /** The `http-request` rules in order; `Waiting` is inside `send-spoe-group`. */
  datatype Rule = Track | Ask | Waiting | SetGood | SetBad | Drop | Done

  datatype Request = Request(session: nat, at: Rule)

  datatype Answer = Answer(session: nat, ip: u32, blocked: bool)

  datatype Decision = Decision(request: nat, ip: u32, dropped: bool)

  datatype State = State(
    table: map<u32, Entry>,
    sessions: map<nat, Session>,
    requests: map<nat, Request>,
    asked: seq<u32>,
    answers: seq<Answer>,
    decisions: seq<Decision>)

  const INIT := State(map[], map[], map[], [], [], [])

  /** A step that is not possible does nothing. */
  datatype Step =
    | Open(session: nat, src: u32)
    | Arrive(request: nat, session: nat)
    | Rule(request: nat)
    | Reply(request: nat, blocked: bool)
    | Lost(request: nat)
    | Expire(ip: u32)

  /** `sc_get_gpt0(0)` */
  function Mark(s: State, ip: u32): nat {
    if ip in s.table then s.table[ip].mark else 0
  }

  function Moved(s: State, request: nat, at: Rule): State
    requires request in s.requests
  {
    s.(requests := s.requests[request := s.requests[request].(at := at)])
  }

  /** `sc-set-gpt0(0) mark if ip_unknown { var(sess.iprep.ip_bad) -m int eq … }` */
  function SetMark(s: State, session: nat, verdict: bool, mark: nat): State
    requires session in s.sessions
  {
    var src := s.sessions[session].src;
    if Mark(s, src) == 0 && s.sessions[session].verdict == Some(verdict)
    then s.(table := s.table[src := Entry(mark, session)])
    else s
  }

  /** `http-request track-sc0 src` */
  function Tracked(s: State, session: nat): State
    requires session in s.sessions
  {
    var src := s.sessions[session].src;
    if src in s.table then s else s.(table := s.table[src := Entry(0, session)])
  }

  predicate Live(s: State, request: nat) {
    request in s.requests && s.requests[request].session in s.sessions
  }

  /** The address a request comes from. */
  function Source(s: State, request: nat): u32
    requires Live(s, request)
  {
    s.sessions[s.requests[request].session].src
  }

  /** The next rule of a request. */
  function RunRule(s: State, request: nat): State
    requires Live(s, request)
  {
    var session := s.requests[request].session;
    var src := Source(s, request);
    match s.requests[request].at
    case Track => Moved(Tracked(s, session), request, Ask)
    case Ask =>
      if Mark(s, src) == 0 then Moved(s.(asked := s.asked + [src]), request, Waiting)
      else Moved(s, request, SetGood)
    case SetGood => Moved(SetMark(s, session, false, 1), request, SetBad)
    case SetBad => Moved(SetMark(s, session, true, 2), request, Drop)
    case Drop =>
      Moved(s.(decisions := s.decisions + [Decision(request, src, Mark(s, src) == 2)]), request, Done)
    case Waiting => s
    case Done => s
  }

  /** The agent's answer sets the session variable. */
  function Answered(s: State, session: nat, blocked: bool): State
    requires session in s.sessions
  {
    var src := s.sessions[session].src;
    s.(sessions := s.sessions[session := Session(src, Some(blocked))],
       answers := s.answers + [Answer(session, src, blocked)])
  }

  function Next(s: State, step: Step): State {
    match step
    case Open(session, src) =>
      if session in s.sessions then s else s.(sessions := s.sessions[session := Session(src, None)])
    case Arrive(request, session) =>
      if request in s.requests || session !in s.sessions then s
      else s.(requests := s.requests[request := Request(session, Track)])
    case Rule(request) => if Live(s, request) then RunRule(s, request) else s
    case Reply(request, blocked) =>
      if Live(s, request) && s.requests[request].at.Waiting?
      then Moved(Answered(s, s.requests[request].session, blocked), request, SetGood)
      else s
    case Lost(request) =>
      if Live(s, request) && s.requests[request].at.Waiting? then Moved(s, request, SetGood) else s
    case Expire(ip) => s.(table := s.table - {ip})
  }

  function Run(s: State, steps: seq<Step>): State {
    if steps == [] then s else Next(Run(s, steps[..|steps| - 1]), steps[|steps| - 1])
  }

  function After(steps: seq<Step>): State {
    Run(INIT, steps)
  }

  // ----- what every step keeps -----

  /** The latest answer the agent gave in a session. */
  function Latest(answers: seq<Answer>, session: nat): (r: Option<bool>)
    ensures r.None? <==> forall a :: a in answers ==> a.session != session
  {
    if answers == [] then None
    else
      var n := |answers| - 1;
      assert answers == answers[..n] + [answers[n]];
      if answers[n].session == session then Some(answers[n].blocked)
      else Latest(answers[..n], session)
  }

  lemma LatestAppend(answers: seq<Answer>, a: Answer, session: nat)
    ensures
      Latest(answers + [a], session) == if a.session == session then Some(a.blocked) else Latest(answers, session)
  {
    assert (answers + [a])[..|answers|] == answers;
  }

  /** The session variable holds the latest answer given in the session. */
  ghost predicate SessionInv(s: State, id: nat)
    requires id in s.sessions
  {
    && s.sessions[id].verdict == Latest(s.answers, id)
    && (s.sessions[id].verdict.Some? ==> Answer(id, s.sessions[id].src, s.sessions[id].verdict.value) in s.answers)
  }

  /** A mark is an answer given for the address in the session that wrote it. */
  ghost predicate EntryInv(s: State, ip: u32)
    requires ip in s.table
  {
    var e := s.table[ip];
    && e.mark <= 2
    && (e.mark != 0 ==> Answer(e.writer, ip, e.mark == 2) in s.answers)
  }

  ghost predicate DecisionInv(s: State, d: Decision) {
    d.dropped ==> exists session :: Answer(session, d.ip, true) in s.answers
  }

  ghost predicate Inv(s: State) {
    && (forall id :: id in s.sessions ==> SessionInv(s, id))
    && (forall a :: a in s.answers ==> a.session in s.sessions && s.sessions[a.session].src == a.ip)
    && (forall ip :: ip in s.table ==> EntryInv(s, ip))
    && (forall d :: d in s.decisions ==> DecisionInv(s, d))
    && (forall r :: r in s.requests ==> s.requests[r].session in s.sessions)
  }

  lemma NextKeeps(s: State, step: Step)
    requires Inv(s)
    ensures Inv(Next(s, step))
  {
    hide RunRule, Answered, Moved, Latest;
    match step
    case Open(session, src) =>
      assert session !in s.sessions ==> Latest(s.answers, session) == None;
    case Reply(id, blocked) =>
      if Live(s, id) {
        AnsweredKeeps(s, s.requests[id].session, blocked);
        if s.requests[id].at.Waiting? { MovedKeeps(Answered(s, s.requests[id].session, blocked), id, SetGood); }
      }
    case Rule(id) =>
      if Live(s, id) { RuleKeeps(s, id); }
    case Lost(id) =>
      if Live(s, id) { MovedKeeps(s, id, SetGood); }
    case _ =>
  }

  lemma MovedKeeps(s: State, request: nat, at: Rule)
    requires Inv(s) && request in s.requests
    ensures Inv(Moved(s, request, at))
  {
    hide Latest;
  }

  lemma AnsweredKeeps(s: State, session: nat, blocked: bool)
    requires Inv(s) && session in s.sessions
    ensures Inv(Answered(s, session, blocked)) && Answered(s, session, blocked).requests == s.requests
  {}

  lemma SetMarkKeeps(s: State, session: nat, verdict: bool)
    requires Inv(s) && session in s.sessions
    ensures Inv(SetMark(s, session, verdict, if verdict then 2 else 1))
  {}

  lemma RuleKeeps(s: State, id: nat)
    requires Inv(s) && Live(s, id)
    ensures Inv(RunRule(s, id))
  {
    hide Latest, Moved, SetMark, Inv;
    var session := s.requests[id].session;
    match s.requests[id].at
    case Track =>
      TrackedKeeps(s, session);
      MovedKeeps(Tracked(s, session), id, Ask);
    case Ask =>
      AskedKeeps(s, Source(s, id));
      MovedKeeps(s.(asked := s.asked + [Source(s, id)]), id, Waiting);
      MovedKeeps(s, id, SetGood);
    case SetGood =>
      SetMarkKeeps(s, session, false);
      SetMarkMoves(s, session, false, 1);
      MovedKeeps(SetMark(s, session, false, 1), id, SetBad);
    case SetBad =>
      SetMarkKeeps(s, session, true);
      SetMarkMoves(s, session, true, 2);
      MovedKeeps(SetMark(s, session, true, 2), id, Drop);
    case Drop =>
      var t := s.(decisions := s.decisions + [Decision(id, Source(s, id), Mark(s, Source(s, id)) == 2)]);
      DecidedKeeps(s, id);
      MovedKeeps(t, id, Done);
    case _ =>
  }

  lemma TrackedKeeps(s: State, session: nat)
    requires Inv(s) && session in s.sessions
    ensures Inv(Tracked(s, session))
  {
    hide Latest;
  }

  lemma AskedKeeps(s: State, ip: u32)
    requires Inv(s)
    ensures Inv(s.(asked := s.asked + [ip]))
  {
    hide Latest;
  }

  lemma SetMarkMoves(s: State, session: nat, verdict: bool, mark: nat)
    requires session in s.sessions
    ensures SetMark(s, session, verdict, mark).requests == s.requests
  {}

  lemma DecidedKeeps(s: State, id: nat)
    requires Inv(s) && Live(s, id)
    ensures Inv(s.(decisions := s.decisions + [Decision(id, Source(s, id), Mark(s, Source(s, id)) == 2)]))
  {}

  lemma {:induction false} RunKeeps(s: State, more: seq<Step>)
    requires Inv(s)
    ensures Inv(Run(s, more))
  {
    if more != [] {
      RunKeeps(s, more[..|more| - 1]);
      NextKeeps(Run(s, more[..|more| - 1]), more[|more| - 1]);
    }
  }

  lemma Always(steps: seq<Step>)
    ensures Inv(After(steps))
  {
    RunKeeps(INIT, steps);
  }

  // ----- what the table promises -----

  /**
   * In every interleaving a mark other than 0 is 1 or 2, and equals an answer the agent gave earlier
   * for that address in the session that wrote the mark.
   */
  lemma MarkIsAnAnswer(steps: seq<Step>, ip: u32)
    requires Mark(After(steps), ip) != 0
    ensures
      var s := After(steps);
      && s.table[ip].mark in {1, 2}
      && Answer(s.table[ip].writer, ip, s.table[ip].mark == 2) in s.answers
  {
    Always(steps);
    assert EntryInv(After(steps), ip);
  }

  /** An address the agent never called bad is never dropped: without an answer the proxy fails open. */
  lemma DroppedOnlyIfCondemned(steps: seq<Step>, d: Decision)
    requires d in After(steps).decisions && d.dropped
    ensures exists session :: Answer(session, d.ip, true) in After(steps).answers
  {
    Always(steps);
    assert DecisionInv(After(steps), d);
  }

  /** Decision `i` of a run falls at its step `k`, a drop rule, and is to drop iff the mark is 2 right then. */
  ghost predicate DecidedAt(steps: seq<Step>, k: nat, i: nat)
    requires k < |steps| && i < |After(steps).decisions|
  {
    var s, d := After(steps[..k]), After(steps).decisions[i];
    && steps[k] == Rule(d.request)
    && Live(s, d.request) && s.requests[d.request].at.Drop?
    && d.ip == Source(s, d.request)
    && d.dropped == (Mark(s, d.ip) == 2)
    && |s.decisions| == i
  }

  lemma DecisionStep(s: State, step: Step)
    ensures
      var t := Next(s, step);
      || t.decisions == s.decisions
      || (&& step.Rule? && Live(s, step.request) && s.requests[step.request].at.Drop?
          && var src := Source(s, step.request);
             t.decisions == s.decisions + [Decision(step.request, src, Mark(s, src) == 2)])
  {}

  /** In every run a request is dropped if and only if the mark is 2 when it reaches the drop rule. */
  lemma {:induction false} DropsIffMarkedBad(steps: seq<Step>, i: nat)
    requires i < |After(steps).decisions|
    ensures exists k: nat :: k < |steps| && DecidedAt(steps, k, i)
  {
    var n := |steps| - 1;
    DecisionStep(After(steps[..n]), steps[n]);
    hide Next, Source;
    if i < |After(steps[..n]).decisions| {
      DropsIffMarkedBad(steps[..n], i);
      var k: nat :| k < n && DecidedAt(steps[..n], k, i);
      assert steps[..n][..k] == steps[..k];
      assert DecidedAt(steps, k, i);
    } else {
      assert DecidedAt(steps, n, i);
    }
  }

  function AskedAbout(asked: seq<u32>, ip: u32): nat {
    if asked == [] then 0
    else AskedAbout(asked[..|asked| - 1], ip) + if asked[|asked| - 1] == ip then 1 else 0
  }

  lemma AskedAppend(asked: seq<u32>, other: u32, ip: u32)
    ensures AskedAbout(asked + [other], ip) == AskedAbout(asked, ip) + if other == ip then 1 else 0
  {
    assert (asked + [other])[..|asked|] == asked;
  }

  /** The decisions after the first `from` about this address are to drop iff the mark is 2. */
  ghost predicate DecidesBy(s: State, from: nat, ip: u32, mark: nat) {
    forall i :: from <= i < |s.decisions| && s.decisions[i].ip == ip ==> s.decisions[i].dropped == (mark == 2)
  }

  /**
   * While an entry with a mark lives, whatever else happens: the mark does not change, the agent is
   * not asked about the address again, and its requests are dropped iff the mark is 2.
   */
  lemma {:induction false} MarkRules(s: State, more: seq<Step>, ip: u32)
    requires Mark(s, ip) != 0 && Expire(ip) !in more
    ensures
      var t := Run(s, more);
      && Mark(t, ip) == Mark(s, ip)
      && t.table[ip].writer == s.table[ip].writer
      && AskedAbout(t.asked, ip) == AskedAbout(s.asked, ip)
      && |s.decisions| <= |t.decisions| && DecidesBy(t, |s.decisions|, ip, Mark(s, ip))
  {
    if more != [] {
      var n := |more| - 1;
      MarkRules(s, more[..n], ip);
      MarkRulesStep(Run(s, more[..n]), more[n], ip);
    }
  }

  lemma MarkRulesStep(s: State, step: Step, ip: u32)
    requires Mark(s, ip) != 0 && step != Expire(ip)
    ensures
      var t := Next(s, step);
      && Mark(t, ip) == Mark(s, ip)
      && t.table[ip].writer == s.table[ip].writer
      && AskedAbout(t.asked, ip) == AskedAbout(s.asked, ip)
      && s.decisions <= t.decisions && DecidesBy(t, |s.decisions|, ip, Mark(s, ip))
  {
    hide AskedAbout;
    if step.Rule? && Live(s, step.request) {
      AskedAppend(s.asked, Source(s, step.request), ip);
    }
  }

  /** As long as a session got no answer, its requests set no mark. */
  lemma SilentSessionWritesNothing(steps: seq<Step>, request: nat, ip: u32)
    requires Live(After(steps), request)
    requires Latest(After(steps).answers, After(steps).requests[request].session) == None
    ensures Mark(Next(After(steps), Rule(request)), ip) == Mark(After(steps), ip)
  {
    Always(steps);
    hide After, Latest;
    assert SessionInv(After(steps), After(steps).requests[request].session);
  }

  // ----- who writes a mark -----

  /** The step is a set rule for `ip`, whose mark is 0, and the latest answer in its session is the one it waits for. */
  ghost predicate Writes(s: State, step: Step, ip: u32, mark: nat) {
    && step.Rule? && Live(s, step.request) && Source(s, step.request) == ip && Mark(s, ip) == 0
    && var request := s.requests[step.request];
       var latest := Latest(s.answers, request.session);
       || (request.at.SetGood? && latest == Some(false) && mark == 1)
       || (request.at.SetBad? && latest == Some(true) && mark == 2)
  }

  /** In every reachable state: a step turns a mark of 0 into another one if and only if it is such a set rule. */
  lemma WrittenBySetRule(steps: seq<Step>, step: Step, ip: u32, mark: nat)
    requires Mark(After(steps), ip) == 0 && mark != 0
    ensures Mark(Next(After(steps), step), ip) == mark <==> Writes(After(steps), step, ip, mark)
  {
    hide Latest;
    Always(steps);
    var s := After(steps);
    hide After;
    if step.Rule? && Live(s, step.request) {
      assert SessionInv(s, s.requests[step.request].session);
    }
  }

  /** Step `w` of the run wrote the mark, and the entry did not expire since. */
  ghost predicate Stands(steps: seq<Step>, w: nat, ip: u32, mark: nat) {
    w < |steps| && Writes(After(steps[..w]), steps[w], ip, mark) && Expire(ip) !in steps[w + 1..]
  }

  /** In every run an address has a mark if and only if a set rule wrote it and the entry did not expire since. */
  lemma {:induction false} MarkHistory(steps: seq<Step>, ip: u32, mark: nat)
    requires mark != 0
    ensures Mark(After(steps), ip) == mark <==> exists w: nat :: Stands(steps, w, ip, mark)
  {
    hide Writes, Next;
    if steps != [] {
      var n := |steps| - 1;
      MarkHistory(steps[..n], ip, mark);
      StandsStep(steps, ip, mark);
      var s := After(steps[..n]);
      if Mark(s, ip) == 0 {
        WrittenBySetRule(steps[..n], steps[n], ip, mark);
      } else if steps[n] == Expire(ip) {
        assert Mark(Next(s, steps[n]), ip) == 0 by { Expired(s, ip); }
      } else {
        MarkRulesStep(s, steps[n], ip);
      }
      assert Writes(s, steps[n], ip, mark) ==> Mark(s, ip) == 0 by { WritesUnmarked(s, steps[n], ip, mark); }
    }
  }

  lemma Expired(s: State, ip: u32)
    ensures Mark(Next(s, Expire(ip)), ip) == 0
  {}

  lemma WritesUnmarked(s: State, step: Step, ip: u32, mark: nat)
    ensures Writes(s, step, ip, mark) ==> Mark(s, ip) == 0 && step != Expire(ip)
  {}

  lemma StandsStep(steps: seq<Step>, ip: u32, mark: nat)
    requires steps != []
    ensures
      var n := |steps| - 1;
      (exists w: nat :: Stands(steps, w, ip, mark)) <==>
      || Writes(After(steps[..n]), steps[n], ip, mark)
      || (steps[n] != Expire(ip) && exists w: nat :: Stands(steps[..n], w, ip, mark))
  {
    hide Writes, Run;
    var n := |steps| - 1;
    forall w: nat | w < n
      ensures Stands(steps, w, ip, mark) <==> Stands(steps[..n], w, ip, mark) && steps[n] != Expire(ip)
    {
      assert steps[..n][..w] == steps[..w];
      assert steps[w + 1..] == steps[..n][w + 1..] + [steps[n]];
    }
    assert Stands(steps, n, ip, mark) <==> Writes(After(steps[..n]), steps[n], ip, mark);
    if w: nat :| Stands(steps, w, ip, mark) {
      assert w < n ==> Stands(steps[..n], w, ip, mark);
    }
    if w: nat :| Stands(steps[..n], w, ip, mark) {
      assert steps[n] != Expire(ip) ==> Stands(steps, w, ip, mark);
    }
  }

  // ----- an uninterrupted request -----

  /** An answer counts, whatever was answered in the session before, and it is the session's verdict from then on. */
  lemma ReplyCounts(steps: seq<Step>, request: nat, blocked: bool)
    requires Live(After(steps), request) && After(steps).requests[request].at.Waiting?
    ensures
      var s, t := After(steps), Next(After(steps), Reply(request, blocked));
      var session, src := s.requests[request].session, Source(s, request);
      && t.answers == s.answers + [Answer(session, src, blocked)]
      && Latest(t.answers, session) == Some(blocked)
      && t.sessions == s.sessions[session := Session(src, Some(blocked))]
      && t.requests == s.requests[request := Request(session, SetGood)]
      && t.table == s.table && t.asked == s.asked && t.decisions == s.decisions
  {
    var s := After(steps);
    hide After, Latest;
    var session := s.requests[request].session;
    LatestAppend(s.answers, Answer(session, Source(s, request), blocked), session);
  }

  function RestOfRules(request: nat): seq<Step> {
    [Rule(request), Rule(request), Rule(request)]
  }

  /** The agent answers and the request goes through the remaining rules. */
  function AnsweredSteps(request: nat, blocked: bool): seq<Step> {
    [Reply(request, blocked)] + RestOfRules(request)
  }

  /**
   * With nothing in between the answer becomes the mark of an address without one, and decides; a mark
   * set while the request waited stays, and decides instead. Earlier answers to the session play no part.
   */
  lemma AnsweredUndisturbed(steps: seq<Step>, request: nat, blocked: bool)
    requires Live(After(steps), request) && After(steps).requests[request].at.Waiting?
    ensures
      var s, t := After(steps), Run(After(steps), AnsweredSteps(request, blocked));
      var src := Source(s, request);
      var mark := if Mark(s, src) != 0 then Mark(s, src) else if blocked then 2 else 1;
      && Mark(t, src) == mark
      && t.asked == s.asked && t.answers == s.answers + [Answer(s.requests[request].session, src, blocked)]
      && t.decisions == s.decisions + [Decision(request, src, mark == 2)]
  {
    var s := After(steps);
    ReplyCounts(steps, request, blocked);
    RunSplit(s, [Reply(request, blocked)], RestOfRules(request));
    RunOne(s, Reply(request, blocked));
    RestFrom(Next(s, Reply(request, blocked)), request);
    hide Run, Next, Latest;
  }

  /** The two set rules and the drop rule, with nothing in between. */
  lemma RestFrom(s: State, request: nat)
    requires Live(s, request) && s.requests[request].at.SetGood?
    ensures
      var t := Run(s, RestOfRules(request));
      var src := Source(s, request);
      && Mark(t, src) == Settled(Mark(s, src), s.sessions[s.requests[request].session].verdict)
      && t.asked == s.asked && t.answers == s.answers
      && t.decisions == s.decisions + [Decision(request, src, Mark(t, src) == 2)]
  {
    RunThree(s, Rule(request), Rule(request), Rule(request));
    hide Run;
    var session, src := s.requests[request].session, Source(s, request);
    var s1 := Moved(SetMark(s, session, false, 1), request, SetBad);
    var s2 := Moved(SetMark(s1, session, true, 2), request, Drop);
    assert Next(s, Rule(request)) == s1;
    assert Next(s1, Rule(request)) == s2;
    DropDecides(s2, request);
    var t := Next(s2, Rule(request));
    assert t.table == s2.table && t.asked == s.asked && t.answers == s.answers;
    assert Source(s2, request) == src;
    assert t.decisions == s.decisions + [Decision(request, src, Mark(t, src) == 2)];
  }

  /** The mark after both set rules: one that is there stays, otherwise the verdict of the session is written. */
  function Settled(mark: nat, verdict: Option<bool>): nat {
    if mark != 0 then mark
    else
      match verdict
      case None => 0
      case Some(blocked) => if blocked then 2 else 1
  }

  lemma RunOne(s: State, step: Step)
    ensures Run(s, [step]) == Next(s, step)
  {
    assert [step][..0] == [];
    assert Run(s, []) == s;
  }

  lemma RunThree(s: State, a: Step, b: Step, c: Step)
    ensures Run(s, [a, b, c]) == Next(Next(Next(s, a), b), c)
  {
    hide Next;
    var more := [a, b, c];
    assert more[..2] == [a, b] && [a, b][..1] == [a];
    RunOne(s, a);
    assert Run(s, [a, b]) == Next(Next(s, a), b);
  }

  lemma {:induction false} RunSplit(s: State, a: seq<Step>, b: seq<Step>)
    ensures Run(s, a + b) == Run(Run(s, a), b)
  {
    if b == [] {
      assert a + b == a;
    } else {
      var n := |b| - 1;
      assert (a + b)[..|a| + n] == a + b[..n];
      RunSplit(s, a, b[..n]);
    }
  }

  /** A request arrives, is tracked and comes to the rule that may ask the agent. */
  function ArrivingSteps(request: nat, session: nat): seq<Step> {
    [Arrive(request, session), Rule(request), Rule(request)]
  }

  /** The agent is asked if and only if the address has no mark. */
  lemma ArrivesAt(s: State, request: nat, session: nat)
    requires session in s.sessions && request !in s.requests
    ensures
      var t := Run(s, ArrivingSteps(request, session));
      var src := s.sessions[session].src;
      && t.requests == s.requests[request := Request(session, if Mark(s, src) == 0 then Waiting else SetGood)]
      && t.asked == s.asked + (if Mark(s, src) == 0 then [src] else [])
      && t.sessions == s.sessions && t.answers == s.answers && t.decisions == s.decisions
      && src in t.table && forall ip :: Mark(t, ip) == Mark(s, ip)
  {
    RunThree(s, Arrive(request, session), Rule(request), Rule(request));
    hide Run;
    var s1 := Next(s, Arrive(request, session));
    var s2 := Next(s1, Rule(request));
    assert s2 == Moved(Tracked(s1, session), request, Ask);
    assert forall ip :: Mark(s2, ip) == Mark(s, ip);
  }

  /**
   * A whole request, from any reachable state. From an address without a mark it asks the agent once, and
   * the answer marks the address and decides. From a marked address nobody is asked and the mark decides.
   */
  lemma WholeRequest(steps: seq<Step>, request: nat, session: nat, blocked: bool)
    requires session in After(steps).sessions && request !in After(steps).requests
    ensures
      var s := After(steps);
      var src := s.sessions[session].src;
      if Mark(s, src) == 0 then
        var t := Run(s, ArrivingSteps(request, session) + AnsweredSteps(request, blocked));
        && Mark(t, src) == (if blocked then 2 else 1) && t.asked == s.asked + [src]
        && t.answers == s.answers + [Answer(session, src, blocked)]
        && t.decisions == s.decisions + [Decision(request, src, blocked)]
      else
        var t := Run(s, ArrivingSteps(request, session) + RestOfRules(request));
        && Mark(t, src) == Mark(s, src) && t.asked == s.asked && t.answers == s.answers
        && t.decisions == s.decisions + [Decision(request, src, Mark(s, src) == 2)]
  {
    var s := After(steps);
    var arriving := ArrivingSteps(request, session);
    ArrivesAt(s, request, session);
    var t := Run(s, arriving);
    RunSplit(INIT, steps, arriving);
    RunSplit(s, arriving, AnsweredSteps(request, blocked));
    RunSplit(s, arriving, RestOfRules(request));
    hide Run;
    if Mark(s, s.sessions[session].src) == 0 {
      AnsweredUndisturbed(steps + arriving, request, blocked);
    } else {
      RestFrom(t, request);
    }
  }

  // ----- when an answer is lost -----

  /** Step `k` of the run finds the request before this rule. */
  ghost predicate Reaches(run: seq<Step>, k: nat, request: nat, rule: Rule) {
    k < |run| && Live(After(run[..k]), request) && After(run[..k]).requests[request].at == rule
  }

  /** A request keeps its session, and the session its address. */
  lemma {:induction false} RequestStays(run: seq<Step>, j: nat, k: nat, request: nat)
    requires j <= k <= |run| && Live(After(run[..j]), request)
    ensures
      var s, t := After(run[..j]), After(run[..k]);
      && Live(t, request)
      && t.requests[request].session == s.requests[request].session && Source(t, request) == Source(s, request)
    decreases k
  {
    if j < k {
      RequestStays(run, j, k - 1, request);
      assert run[..k][..k - 1] == run[..k - 1];
      RequestStaysStep(After(run[..k - 1]), run[k - 1], request);
    }
  }

  lemma RequestStaysStep(s: State, step: Step, request: nat)
    requires Live(s, request)
    ensures
      var t := Next(s, step);
      && Live(t, request)
      && t.requests[request].session == s.requests[request].session && Source(t, request) == Source(s, request)
  {}

  /** The two set rules of a request in a reachable state. */
  lemma SetRules(steps: seq<Step>, request: nat)
    requires Live(After(steps), request)
    ensures
      var s := After(steps);
      var t, src := Next(s, Rule(request)), Source(s, request);
      var latest := Latest(s.answers, s.requests[request].session);
      && (s.requests[request].at.SetGood? ==>
            Mark(t, src) == if Mark(s, src) == 0 && latest == Some(false) then 1 else Mark(s, src))
      && (s.requests[request].at.SetBad? ==>
            Mark(t, src) == if Mark(s, src) == 0 && latest == Some(true) then 2 else Mark(s, src))
  {
    hide Latest;
    Always(steps);
    var s := After(steps);
    hide After;
    assert SessionInv(s, s.requests[request].session);
  }

  /**
   * The answer to a request is lost at step `lost` of a run, and the request passes its remaining rules
   * at steps `good`, `bad` and `drop`, with anything in between. Its first set rule marks the address if
   * and only if the mark is 0 and the latest answer in its session is good right then; its second one,
   * if and only if the mark is 0 and that answer is bad right then. It is dropped if and only if some
   * set rule, of whatever session, has marked the address as bad and the entry did not expire since.
   */
  lemma LostAnswer(run: seq<Step>, request: nat, lost: nat, good: nat, bad: nat, drop: nat)
    requires lost < good < bad < drop
    requires Reaches(run, lost, request, Waiting) && run[lost] == Lost(request)
    requires Reaches(run, good, request, SetGood) && run[good] == Rule(request)
    requires Reaches(run, bad, request, SetBad) && run[bad] == Rule(request)
    requires Reaches(run, drop, request, Drop) && run[drop] == Rule(request)
    ensures
      var src := Source(After(run[..lost]), request);
      var session := After(run[..lost]).requests[request].session;
      var g, b, d := After(run[..good]), After(run[..bad]), After(run[..drop]);
      && Mark(After(run[..good + 1]), src) ==
         (if Mark(g, src) == 0 && Latest(g.answers, session) == Some(false) then 1 else Mark(g, src))
      && Mark(After(run[..bad + 1]), src) ==
         (if Mark(b, src) == 0 && Latest(b.answers, session) == Some(true) then 2 else Mark(b, src))
      && After(run[..drop + 1]).decisions == d.decisions + [Decision(request, src, Mark(d, src) == 2)]
      && (Mark(d, src) == 2 <==> exists w: nat :: Stands(run[..drop], w, src, 2))
  {
    hide Latest, Stands;
    RequestStays(run, lost, good, request);
    RequestStays(run, lost, bad, request);
    RequestStays(run, lost, drop, request);
    SetRules(run[..good], request);
    SetRules(run[..bad], request);
    DecisionStep(After(run[..drop]), run[drop]);
    DropDecides(After(run[..drop]), request);
    hide Next;
    assert run[..good + 1][..good] == run[..good];
    assert run[..bad + 1][..bad] == run[..bad];
    assert run[..drop + 1][..drop] == run[..drop];
    MarkHistory(run[..drop], Source(After(run[..lost]), request), 2);
  }

  lemma DropDecides(s: State, request: nat)
    requires Live(s, request) && s.requests[request].at.Drop?
    ensures
      Next(s, Rule(request)).decisions ==
      s.decisions + [Decision(request, Source(s, request), Mark(s, Source(s, request)) == 2)]
  {}

  /** The agent does not answer in time and the request goes through the remaining rules. */
  function LostSteps(request: nat): seq<Step> {
    [Lost(request)] + RestOfRules(request)
  }

  /**
   * With nothing in between: the mark stays 0 if and only if the session never got an answer before;
   * otherwise the old answer is written again. The request is dropped if and only if that answer is bad.
   */
  lemma LostAnswerUndisturbed(steps: seq<Step>, request: nat)
    requires Live(After(steps), request) && After(steps).requests[request].at.Waiting?
    requires Mark(After(steps), Source(After(steps), request)) == 0
    ensures
      var s, t := After(steps), Run(After(steps), LostSteps(request));
      var src := Source(s, request);
      var earlier := Latest(s.answers, s.requests[request].session);
      && (Mark(t, src) == 0 <==> earlier.None?)
      && (Mark(t, src) != 0 ==> Mark(t, src) == if earlier == Some(true) then 2 else 1)
      && t.answers == s.answers
      && t.decisions == s.decisions + [Decision(request, src, earlier == Some(true))]
  {
    Always(steps);
    var s := After(steps);
    assert SessionInv(s, s.requests[request].session);
    RunSplit(s, [Lost(request)], RestOfRules(request));
    RunOne(s, Lost(request));
    RestFrom(Next(s, Lost(request)), request);
    hide Run;
  }

  lemma RunOneMore(s: State, steps: seq<Step>, step: Step)
    ensures Run(s, steps + [step]) == Next(Run(s, steps), step)
  {
    assert (steps + [step])[..|steps|] == steps;
  }

  // ----- runs in which the proxy does not fail open -----

  /** A request between its track rule and its end keeps the entry of its address alive. */
  ghost predicate Tracks(s: State, ip: u32) {
    exists r :: Live(s, r) && Source(s, r) == ip && s.requests[r].at !in {Track, Done}
  }

  /** Entries expire only while no request tracks them. */
  ghost predicate IdleExpiry(steps: seq<Step>) {
    forall k :: 0 <= k < |steps| && steps[k].Expire? ==> !Tracks(After(steps[..k]), steps[k].ip)
  }

  lemma IdleOneMore(steps: seq<Step>, step: Step)
    requires IdleExpiry(steps) && (step.Expire? ==> !Tracks(After(steps), step.ip))
    ensures IdleExpiry(steps + [step])
  {
    hide Tracks, After;
    var more := steps + [step];
    forall k | 0 <= k < |more| && more[k].Expire? ensures !Tracks(After(more[..k]), more[k].ip) {
      assert more[..k] == steps[..k];
      if k == |steps| { assert steps[..k] == steps; }
    }
  }

  lemma Extend(steps: seq<Step>, step: Step) returns (more: seq<Step>)
    requires IdleExpiry(steps) && (step.Expire? ==> !Tracks(After(steps), step.ip))
    ensures more == steps + [step] && IdleExpiry(more) && After(more) == Next(After(steps), step)
  {
    IdleOneMore(steps, step);
    RunOneMore(INIT, steps, step);
    more := steps + [step];
  }

  /** A request from an address without a mark arrives and asks the agent. */
  lemma AskingSteps(steps: seq<Step>, request: nat, session: nat) returns (more: seq<Step>)
    requires IdleExpiry(steps)
    requires
      var s := After(steps);
      && request !in s.requests && session in s.sessions && Mark(s, s.sessions[session].src) == 0
    ensures IdleExpiry(more) && steps <= more
    ensures
      var s, t := After(steps), After(more);
      && t.requests == s.requests[request := Request(session, Waiting)]
      && t.sessions == s.sessions && t.answers == s.answers && t.decisions == s.decisions
      && t.asked == s.asked + [s.sessions[session].src]
      && Mark(t, s.sessions[session].src) == 0
  {
    hide After, IdleExpiry;
    more := Extend(steps, Arrive(request, session));
    more := Extend(more, Rule(request));
    more := Extend(more, Rule(request));
  }

  lemma OpenOne(src: u32) returns (steps: seq<Step>)
    ensures IdleExpiry(steps) && After(steps) == INIT.(sessions := map[0 := Session(src, None)])
  {
    hide Run, Tracks;
    assert Run(INIT, []) == INIT by { RunNone(INIT); }
    steps := Extend([], Open(0, src));
  }

  /** A good answer, and the request runs to its end. */
  lemma AnsweredGood(steps: seq<Step>, src: u32) returns (more: seq<Step>)
    requires IdleExpiry(steps)
    requires
      var s := After(steps);
      && s.sessions == map[0 := Session(src, None)] && s.requests == map[0 := Request(0, Waiting)]
      && Mark(s, src) == 0
    ensures IdleExpiry(more)
    ensures
      var s, t := After(steps), After(more);
      && t.requests == map[0 := Request(0, Done)] && t.sessions == map[0 := Session(src, Some(false))]
      && t.answers == s.answers + [Answer(0, src, false)] && t.asked == s.asked
      && t.decisions == s.decisions + [Decision(0, src, false)] && Mark(t, src) == 1
  {
    hide After, IdleExpiry;
    more := Extend(steps, Reply(0, false));
    more := Extend(more, Rule(0));
    var s, t := After(steps), After(more);
    assert t == s.(table := s.table[src := Entry(1, 0)], sessions := map[0 := Session(src, Some(false))],
                   requests := map[0 := Request(0, SetBad)], answers := s.answers + [Answer(0, src, false)]);
    more := MarkedGood(more, src);
  }

  /** The last two rules of a request of an address marked as good. */
  lemma MarkedGood(steps: seq<Step>, src: u32) returns (more: seq<Step>)
    requires IdleExpiry(steps)
    requires
      var s := After(steps);
      && s.sessions == map[0 := Session(src, Some(false))] && s.requests == map[0 := Request(0, SetBad)]
      && Mark(s, src) == 1
    ensures IdleExpiry(more)
    ensures
      var s, t := After(steps), After(more);
      t == s.(requests := map[0 := Request(0, Done)], decisions := s.decisions + [Decision(0, src, false)])
  {
    hide After, IdleExpiry;
    more := Extend(steps, Rule(0));
    more := Extend(more, Rule(0));
  }

  /**
   * A session whose first request was answered and served to the end, and whose entry then expired: the
   * answer to its second request is lost, yet the old answer becomes the mark, so that the next request
   * does not ask again.
   */
  lemma StaleVerdict(src: u32) returns (steps: seq<Step>)
    ensures IdleExpiry(steps) && Expire(src) in steps
    ensures
      var s := After(steps);
      && s.asked == [src, src]
      && s.answers == [Answer(0, src, false)] && s.decisions == [Decision(0, src, false)]
      && Live(s, 1) && s.requests == map[0 := Request(0, Done), 1 := Request(0, Waiting)] && Mark(s, src) == 0
    ensures Mark(Run(After(steps), LostSteps(1)), src) == 1
  {
    hide Run, IdleExpiry;
    steps := OpenOne(src);
    steps := AskingSteps(steps, 0, 0);
    steps := AnsweredGood(steps, src);
    assert !Tracks(After(steps), src);
    steps := Extend(steps, Expire(src));
    assert Expire(src) in steps;
    steps := AskingSteps(steps, 1, 0);
    var a := Answer(0, src, false);
    LatestAppend([], a, 0);
    assert [] + [a] == [a];
    LostAnswerUndisturbed(steps, 1);
  }

  /** Two requests wait for their answers, the second one in `session`; nobody was answered yet. */
  lemma TwoWaiting(src: u32, session: nat) returns (steps: seq<Step>)
    requires session <= 1
    ensures IdleExpiry(steps)
    ensures
      var s := After(steps);
      && s.sessions == map[0 := Session(src, None), session := Session(src, None)]
      && s.requests == map[0 := Request(0, Waiting), 1 := Request(session, Waiting)]
      && s.answers == [] && s.decisions == [] && Mark(s, src) == 0
  {
    hide After, IdleExpiry;
    steps := OpenOne(src);
    steps := Extend(steps, Open(session, src));
    steps := AskingSteps(steps, 0, 0);
    steps := AskingSteps(steps, 1, session);
  }

  /** The answer of request 0 is lost, and request 1 is answered. */
  lemma LostThenAnswered(src: u32, session: nat) returns (steps: seq<Step>, run: seq<Step>)
    requires session <= 1
    ensures IdleExpiry(run) && run == steps + [Lost(0)] + [Reply(1, true)]
    ensures
      var s := After(steps);
      s.answers == [] && s.requests == map[0 := Request(0, Waiting), 1 := Request(session, Waiting)]
    ensures
      var t := After(run);
      && t.sessions == map[0 := Session(src, None), session := Session(src, Some(true))]
      && t.requests == map[0 := Request(0, SetGood), 1 := Request(session, SetGood)]
      && t.answers == [Answer(session, src, true)] && t.decisions == [] && Mark(t, src) == 0
  {
    hide After, IdleExpiry;
    steps := TwoWaiting(src, session);
    run := Extend(steps, Lost(0));
    run := Extend(run, Reply(1, true));
  }

  lemma LatestOnly(a: Answer, session: nat)
    ensures Latest([a], session) == if a.session == session then Some(a.blocked) else None
  {
    assert [] + [a] == [a];
    LatestAppend([], a, session);
  }

  /** Before its second set rule, a request whose session was called bad writes that. */
  lemma BadRuleWrites(steps: seq<Step>, request: nat, src: u32) returns (more: seq<Step>)
    requires IdleExpiry(steps) && Live(After(steps), request) && After(steps).requests[request].at.SetBad?
    requires
      var s := After(steps);
      && Source(s, request) == src && Mark(s, src) == 0
      && Latest(s.answers, s.requests[request].session) == Some(true)
    ensures IdleExpiry(more) && more == steps + [Rule(request)]
    ensures Writes(After(steps), Rule(request), src, 2) && Mark(After(more), src) == 2
  {
    hide After, IdleExpiry, Latest;
    WrittenBySetRule(steps, Rule(request), src, 2);
    more := Extend(steps, Rule(request));
  }

  /**
   * The answer of request 0 is lost when its session has no answer yet. Before its set rules another
   * request of the session is answered, and so request 0 itself marks the address.
   */
  lemma AnsweredMeanwhile(src: u32) returns (steps: seq<Step>, run: seq<Step>)
    ensures IdleExpiry(run) && run == steps + [Lost(0)] + [Reply(1, true)] + [Rule(0)] + [Rule(0)]
    ensures
      var s := After(steps);
      s.answers == [] && s.requests == map[0 := Request(0, Waiting), 1 := Request(0, Waiting)]
    ensures
      var last := After(run[..|run| - 1]);
      Writes(last, run[|run| - 1], src, 2) && Mark(After(run), src) == 2
  {
    hide After, IdleExpiry, Latest, Writes;
    steps, run := LostThenAnswered(src, 0);
    LatestOnly(Answer(0, src, true), 0);
    run := Extend(run, Rule(0));
    var last := run;
    hide Next;
    run := BadRuleWrites(last, 0, src);
    assert run[..|run| - 1] == last;
  }

  /**
   * The answer of request 0 is lost and its session never gets one. It is dropped all the same: a
   * request of another session from the same address was answered before it reached the drop rule.
   */
  lemma DroppedByOtherSession(src: u32) returns (steps: seq<Step>, run: seq<Step>)
    ensures IdleExpiry(run)
    ensures
      run == steps + [Lost(0)] + [Reply(1, true)] + [Rule(1)] + [Rule(1)] + [Rule(0)] + [Rule(0)] + [Rule(0)]
    ensures After(steps).requests == map[0 := Request(0, Waiting), 1 := Request(1, Waiting)]
    ensures
      var t := After(run);
      Latest(t.answers, 0) == None && t.decisions == [Decision(0, src, true)]
  {
    hide After, IdleExpiry, Latest;
    steps, run := LostThenAnswered(src, 1);
    LatestOnly(Answer(1, src, true), 0);
    run := Extend(run, Rule(1));
    run := Extend(run, Rule(1));
    assert Mark(After(run), src) == 2;
    hide Next;
    run := MarkedToTheEnd(run, 0);
  }

  /** A request of a marked address passes its last three rules. */
  lemma MarkedToTheEnd(steps: seq<Step>, request: nat) returns (more: seq<Step>)
    requires IdleExpiry(steps) && Live(After(steps), request) && After(steps).requests[request].at.SetGood?
    requires Mark(After(steps), Source(After(steps), request)) != 0
    ensures IdleExpiry(more) && more == steps + [Rule(request)] + [Rule(request)] + [Rule(request)]
    ensures
      var s, t := After(steps), After(more);
      var src := Source(s, request);
      && t.answers == s.answers
      && t.decisions == s.decisions + [Decision(request, src, Mark(s, src) == 2)]
  {
    hide After, IdleExpiry;
    more := Extend(steps, Rule(request));
    more := Extend(more, Rule(request));
    more := Extend(more, Rule(request));
  }

  lemma RunNone(s: State)
    ensures Run(s, []) == s
  {}
}
