/** The load generator's workers and their statistics (benches/spoe/main.rs). */
module LoadGenerator {
  import opened Bits
  import opened Wrappers
  import opened Workload
  import opened Samples

  datatype Reply = Reply(latency: nat, blocked: bool, tx: nat, rx: nat)

  /** How `Connection::check` ends. */
  datatype Outcome = Answered(reply: Reply) | Failed

  /** The figures a `WorkerReport` and the `Summary` have in common. */
  datatype Stats = Stats(
    count: nat, blocked: nat, tx: nat, rx: nat, total: nat, min: Option<nat>, max: nat)

  /** `firstError` is the number of the request that failed. */
  datatype Report = Report(stats: Stats, errors: nat, firstError: Option<nat>, samples: seq<nat>)

  const NO_STATS := Stats(0, 0, 0, 0, 0, None, 0)
  const NO_REPORT := Report(NO_STATS, 0, None, [])

  // ----- the figures of a sequence of replies -----

  function Least(a: Option<nat>, b: Option<nat>): Option<nat> {
    if a.None? then b else if b.None? || a.value <= b.value then a else b
  }

  function Greatest(a: nat, b: nat): nat {
    if a <= b then b else a
  }

  function Single(r: Reply): Stats {
    Stats(1, if r.blocked then 1 else 0, r.tx, r.rx, r.latency, Some(r.latency), r.latency)
  }

  function Combine(a: Stats, b: Stats): Stats {
    Stats(a.count + b.count, a.blocked + b.blocked, a.tx + b.tx, a.rx + b.rx, a.total + b.total,
          Least(a.min, b.min), Greatest(a.max, b.max))
  }

  function StatsOf(replies: seq<Reply>): Stats {
    if replies == [] then NO_STATS
    else Combine(StatsOf(replies[..|replies| - 1]), Single(replies[|replies| - 1]))
  }

  function Latencies(replies: seq<Reply>): (r: seq<nat>)
    ensures |r| == |replies| && forall k :: 0 <= k < |r| ==> r[k] == replies[k].latency
  {
    seq(|replies|, k requires 0 <= k < |replies| => replies[k].latency)
  }

  lemma CombineLaws(a: Stats, b: Stats, c: Stats)
    ensures Combine(a, NO_STATS) == a == Combine(NO_STATS, a)
    ensures Combine(Combine(a, b), c) == Combine(a, Combine(b, c))
    ensures Combine(a, b) == Combine(b, a)
  {}

  lemma StatsStep(replies: seq<Reply>, r: Reply)
    ensures StatsOf(replies + [r]) == Combine(StatsOf(replies), Single(r))
  {
    hide Combine, Single;
    assert (replies + [r])[..|replies|] == replies;
  }

  lemma StatsCount(replies: seq<Reply>)
    ensures StatsOf(replies).count == |replies|
  {
    BoundsMeaning(replies);
  }

  lemma LatenciesStep(replies: seq<Reply>, r: Reply)
    ensures Latencies(replies + [r]) == Latencies(replies) + [r.latency]
  {}

  lemma {:induction false} StatsAppend(a: seq<Reply>, b: seq<Reply>)
    ensures StatsOf(a + b) == Combine(StatsOf(a), StatsOf(b))
  {
    hide Combine, Single;
    if b == [] {
      assert a + b == a;
      CombineLaws(StatsOf(a), NO_STATS, NO_STATS);
    } else {
      var n := |b| - 1;
      StatsAppend(a, b[..n]);
      assert a + b == a + b[..n] + [b[n]] && b == b[..n] + [b[n]];
      StatsStep(a + b[..n], b[n]);
      StatsStep(b[..n], b[n]);
      CombineLaws(StatsOf(a), StatsOf(b[..n]), Single(b[n]));
    }
  }

  function Sum(values: seq<nat>): nat {
    if values == [] then 0 else values[0] + Sum(values[1..])
  }

  /** With these three equations `Sum` can be nothing else. */
  lemma {:induction false} SumLaws(a: seq<nat>, b: seq<nat>, x: nat)
    ensures Sum([]) == 0 && Sum([x]) == x && Sum(a + b) == Sum(a) + Sum(b)
  {
    assert [x][1..] == [];
    if a == [] {
      assert a + b == b;
    } else {
      SumLaws(a[1..], b, x);
      assert (a + b)[1..] == a[1..] + b;
    }
  }

  function Sent(replies: seq<Reply>): (r: seq<nat>)
    ensures |r| == |replies| && forall k :: 0 <= k < |r| ==> r[k] == replies[k].tx
  {
    seq(|replies|, k requires 0 <= k < |replies| => replies[k].tx)
  }

  function Received(replies: seq<Reply>): (r: seq<nat>)
    ensures |r| == |replies| && forall k :: 0 <= k < |r| ==> r[k] == replies[k].rx
  {
    seq(|replies|, k requires 0 <= k < |replies| => replies[k].rx)
  }

  /**
   * The counts are exact, of all replies and of the blocked ones; the sums are those of the replies'
   * figures; and the minimum and the maximum are attained and bound every latency.
   */
  lemma {:induction false} StatsMeaning(replies: seq<Reply>)
    ensures
      var stats := StatsOf(replies);
      && stats.count == |replies|
      && stats.blocked == |set k | 0 <= k < |replies| && replies[k].blocked|
      && stats.tx == Sum(Sent(replies)) && stats.rx == Sum(Received(replies))
      && stats.total == Sum(Latencies(replies))
      && (stats.min.None? <==> replies == [])
      && (forall r :: r in replies ==> stats.min.Some? && stats.min.value <= r.latency <= stats.max)
      && (stats.min.Some? ==> exists r :: r in replies && r.latency == stats.min.value)
      && (replies != [] ==> exists r :: r in replies && r.latency == stats.max)
      && stats.blocked <= stats.count
  {
    BoundsMeaning(replies);
    SumsMeaning(replies);
    BlockedMeaning(replies);
    hide StatsOf, Sum;
  }

  lemma {:induction false} BlockedMeaning(replies: seq<Reply>)
    ensures StatsOf(replies).blocked == |set k | 0 <= k < |replies| && replies[k].blocked|
  {
    if replies != [] {
      var n := |replies| - 1;
      BlockedMeaning(replies[..n]);
      var before := set k | 0 <= k < n && replies[..n][k].blocked;
      var all := set k | 0 <= k < |replies| && replies[k].blocked;
      assert all == before + if replies[n].blocked then {n} else {};
    }
  }

  lemma {:induction false} SumsMeaning(replies: seq<Reply>)
    ensures StatsOf(replies).tx == Sum(Sent(replies)) && StatsOf(replies).rx == Sum(Received(replies))
    ensures StatsOf(replies).total == Sum(Latencies(replies))
  {
    if replies != [] {
      var n := |replies| - 1;
      SumsMeaning(replies[..n]);
      assert Sent(replies) == Sent(replies[..n]) + [replies[n].tx];
      assert Received(replies) == Received(replies[..n]) + [replies[n].rx];
      assert Latencies(replies) == Latencies(replies[..n]) + [replies[n].latency];
      SumLaws(Sent(replies[..n]), [replies[n].tx], replies[n].tx);
      SumLaws(Received(replies[..n]), [replies[n].rx], replies[n].rx);
      SumLaws(Latencies(replies[..n]), [replies[n].latency], replies[n].latency);
    }
  }

  lemma {:induction false} BoundsMeaning(replies: seq<Reply>)
    ensures
      var stats := StatsOf(replies);
      && stats.count == |replies|
      && (stats.min.None? <==> replies == [])
      && (forall r :: r in replies ==> stats.min.Some? && stats.min.value <= r.latency <= stats.max)
      && (stats.min.Some? ==> exists r :: r in replies && r.latency == stats.min.value)
      && (replies != [] ==> exists r :: r in replies && r.latency == stats.max)
      && stats.blocked <= stats.count
  {
    if replies != [] {
      var n := |replies| - 1;
      BoundsMeaning(replies[..n]);
      assert replies == replies[..n] + [replies[n]];
      assert replies[n] in replies;
    }
  }

  /** The figures do not depend on the order of the replies. */
  lemma {:induction false} StatsOfRearranged(a: seq<Reply>, b: seq<Reply>)
    requires multiset(a) == multiset(b)
    ensures StatsOf(a) == StatsOf(b)
  {
    if a == [] {
      assert |b| == |multiset(a)|;
    } else {
      var n := |a| - 1;
      var c, d := Without(a, b);
      StatsOfRearranged(a[..n], c + d);
      hide StatsOf;
      StatsMoved(c, a[n], d);
      StatsStep(a[..n], a[n]);
      assert a == a[..n] + [a[n]];
    }
  }

  lemma StatsMoved(c: seq<Reply>, r: Reply, d: seq<Reply>)
    ensures StatsOf(c + [r] + d) == Combine(StatsOf(c + d), Single(r))
  {
    hide StatsOf, Combine, Single;
    StatsAppend(c, d);
    StatsStep(c, r);
    StatsAppend(c + [r], d);
    CombineLaws(StatsOf(c), Single(r), StatsOf(d));
    CombineLaws(Single(r), StatsOf(d), NO_STATS);
    CombineLaws(StatsOf(c), StatsOf(d), Single(r));
  }

  /** The last element of `a`, taken out of the rearranged `b`. */
  lemma Without<T>(a: seq<T>, b: seq<T>) returns (c: seq<T>, d: seq<T>)
    requires a != [] && multiset(a) == multiset(b)
    ensures b == c + [a[|a| - 1]] + d && multiset(a[..|a| - 1]) == multiset(c + d)
  {
    var n := |a| - 1;
    assert a == a[..n] + [a[n]];
    assert a[n] in multiset(b);
    var k :| 0 <= k < |b| && b[k] == a[n];
    c, d := b[..k], b[k + 1..];
    assert b == c + [a[n]] + d;
    Cancel(multiset(a[..n]), multiset(c + d), a[n]);
  }

  lemma Cancel<T>(a: multiset<T>, b: multiset<T>, x: T)
    ensures a + multiset{x} == b + multiset{x} ==> a == b
  {
    assert a == a + multiset{x} - multiset{x} && b == b + multiset{x} - multiset{x};
  }

  // ----- one worker -----

  /** The replies before the first failure. */
  function Served(outcomes: seq<Outcome>): (r: seq<Reply>)
    ensures |r| <= |outcomes|
    ensures |r| == |outcomes| <==> Failed !in outcomes
  {
    if outcomes == [] || outcomes[0].Failed? then []
    else
      assert outcomes == [outcomes[0]] + outcomes[1..];
      [outcomes[0].reply] + Served(outcomes[1..])
  }

  /** They are the longest run of replies at the beginning. */
  lemma {:induction false} ServedMeaning(outcomes: seq<Outcome>)
    ensures
      var replies := Served(outcomes);
      && (forall k :: 0 <= k < |replies| ==> outcomes[k] == Answered(replies[k]))
      && (|replies| < |outcomes| ==> outcomes[|replies|] == Failed)
  {
    if outcomes != [] && outcomes[0].Answered? { ServedMeaning(outcomes[1..]); }
  }

  /** A report that tells about exactly these replies. */
  ghost predicate Reports(report: Report, replies: seq<Reply>) {
    && report.stats == StatsOf(replies)
    && |report.samples| == (if |replies| < RESERVOIR then |replies| else RESERVOIR)
    && multiset(report.samples) <= multiset(Latencies(replies))
  }

  /** The samples of these replies, and the state the generator has reached. */
  ghost predicate Keeps(samples: seq<nat>, state: u64, replies: seq<Reply>, start: u64) {
    samples == Reservoir(Latencies(replies), start) && state == StateAfter(start, Draws(|replies|))
  }

  class Worker {
    const reservoirRng: SplitMix64
    var sequence: nat
    var report: Report

    constructor (reservoirRng: SplitMix64)
      ensures this.reservoirRng == reservoirRng && sequence == 0 && report == NO_REPORT
    {
      this.reservoirRng := reservoirRng;
      sequence := 0;
      report := NO_REPORT;
    }

    /** `start` is the state of the generator before the first of the replies. */
    method Record(reply: Reply, ghost before: seq<Reply>, ghost start: u64)
      requires Reports(report, before) && |before| + 1 < TWO_64
      requires Keeps(report.samples, reservoirRng.state, before, start)
      modifies `report, reservoirRng
      ensures Reports(report, before + [reply])
      ensures Keeps(report.samples, reservoirRng.state, before + [reply], start)
      ensures report.errors == old(report.errors) && report.firstError == old(report.firstError)
    {
      hide StatsOf, Latencies, Least, Greatest, Reservoir, Draws, StateAfter, Mix;
      StatsCount(before);
      StatsStep(before, reply);
      LatenciesStep(before, reply);
      var stats := report.stats;
      stats := stats.(count := stats.count + 1);
      stats := stats.(blocked := stats.blocked + if reply.blocked then 1 else 0);
      stats := stats.(tx := stats.tx + reply.tx);
      stats := stats.(rx := stats.rx + reply.rx);
      stats := stats.(total := stats.total + reply.latency);
      stats := stats.(min := Least(stats.min, Some(reply.latency)));
      stats := stats.(max := Greatest(stats.max, reply.latency));
      assert stats == Combine(report.stats, Single(reply));
      hide Combine, Single;
      report := report.(stats := stats);
      Keep(reply.latency, Latencies(before), start);
      ReservoirPart(Latencies(before + [reply]), start);
    }

    /** The reservoir: every latency until it is full, then a random one makes room for a random choice. */
    method Keep(latency: nat, ghost latencies: seq<nat>, ghost start: u64)
      requires report.stats.count == |latencies| + 1 < TWO_64
      requires report.samples == Reservoir(latencies, start)
      requires reservoirRng.state == StateAfter(start, Draws(|latencies|))
      modifies `report, reservoirRng
      ensures report == old(report).(samples := report.samples)
      ensures report.samples == Reservoir(latencies + [latency], start)
      ensures reservoirRng.state == StateAfter(start, Draws(|latencies| + 1))
      ensures
        report.samples ==
        if |old(report.samples)| < RESERVOIR then old(report.samples) + [latency]
        else
          var index := Draw(start, |latencies| + 1 - RESERVOIR) % (|latencies| + 1);
          if index < RESERVOIR then old(report.samples)[index := latency] else old(report.samples)
    {
      hide Mix;
      ReservoirStep(latencies, latency, start);
      if |report.samples| < RESERVOIR {
        report := report.(samples := report.samples + [latency]);
      } else {
        var index := reservoirRng.Below(report.stats.count);
        if index < RESERVOIR {
          report := report.(samples := report.samples[index := latency]);
        }
      }
    }

    /** Sends `requests` requests one at a time, up to the first error. */
    method Run(requests: nat, outcomes: seq<Outcome>)
      requires report == NO_REPORT && requests <= |outcomes| && requests < TWO_64
      modifies `sequence, `report, reservoirRng
      ensures Reports(report, Served(outcomes[..requests]))
      ensures report.samples == Reservoir(Latencies(Served(outcomes[..requests])), old(reservoirRng.state))
      ensures report.errors == if Failed in outcomes[..requests] then 1 else 0
      ensures
        report.firstError ==
        if Failed in outcomes[..requests] then Some(old(sequence) + |Served(outcomes[..requests])| + 1) else None
    {
      hide StatsOf, Latencies, Served, Keeps, Reports, Reservoir, Draws, StateAfter;
      ghost var replies, start := [], reservoirRng.state;
      ReportsNone(start);
      for i := 0 to requests
        invariant Failed !in outcomes[..i] && |replies| == i && replies == Served(outcomes[..i])
        invariant sequence == old(sequence) + i
        invariant Reports(report, replies) && Keeps(report.samples, reservoirRng.state, replies, start)
        invariant report.errors == 0 && report.firstError == None
      {
        sequence := sequence + 1;
        ServedStep(outcomes[..requests], i);
        assert outcomes[..requests][..i] == outcomes[..i] && outcomes[..requests][..i + 1] == outcomes[..i + 1];
        match outcomes[i]
        case Answered(reply) =>
          Record(reply, replies, start);
          replies := replies + [reply];
        case Failed =>
          assert outcomes[..requests][i] == Failed;
          ErrorsAside(report, replies, report.errors + 1, Some(sequence));
          report := report.(
            errors := report.errors + 1,
            firstError := if report.firstError.None? then Some(sequence) else report.firstError);
          break;
      }
      KeepsMeaning(report.samples, reservoirRng.state, replies, start);
    }

    /** `std::mem::take(&mut worker.report)` */
    method TakeReport() returns (taken: Report)
      modifies `report
      ensures taken == old(report) && report == NO_REPORT
    {
      taken := report;
      report := NO_REPORT;
    }
  }

  lemma KeepsMeaning(samples: seq<nat>, state: u64, replies: seq<Reply>, start: u64)
    requires Keeps(samples, state, replies, start)
    ensures samples == Reservoir(Latencies(replies), start)
  {}

  /** What a report tells about replies does not depend on the errors it counts. */
  lemma ErrorsAside(report: Report, replies: seq<Reply>, errors: nat, firstError: Option<nat>)
    requires Reports(report, replies)
    ensures Reports(report.(errors := errors, firstError := firstError), replies)
  {}

  lemma ReportsNone(start: u64)
    ensures Reports(NO_REPORT, []) && Keeps([], start, [], start) && Served([]) == []
  {}

  lemma {:induction false} ServedStep(outcomes: seq<Outcome>, i: nat)
    requires i < |outcomes| && Failed !in outcomes[..i]
    ensures
      match outcomes[i]
      case Failed => Served(outcomes) == Served(outcomes[..i])
      case Answered(reply) => Served(outcomes[..i + 1]) == Served(outcomes[..i]) + [reply]
  {
    if i > 0 {
      assert outcomes[0] == outcomes[..i][0] && outcomes[..i][1..] == outcomes[1..][..i - 1];
      assert outcomes[..i + 1][1..] == outcomes[1..][..i];
      ServedStep(outcomes[1..], i - 1);
    }
  }

  // ----- the work split -----

  function Share(iters: nat, workers: nat, index: nat): nat
    requires 0 < workers
  {
    iters / workers + if index < iters % workers then 1 else 0
  }

  function ShareSum(iters: nat, workers: nat, n: nat): nat
    requires 0 < workers
  {
    if n == 0 then 0 else ShareSum(iters, workers, n - 1) + Share(iters, workers, n - 1)
  }

  lemma {:induction false} ShareSumValue(iters: nat, workers: nat, n: nat)
    requires 0 < workers
    ensures
      ShareSum(iters, workers, n) == n * (iters / workers) + if n < iters % workers then n else iters % workers
  {
    if n > 0 {
      ShareSumValue(iters, workers, n - 1);
      assert n * (iters / workers) == (n - 1) * (iters / workers) + iters / workers;
    }
  }

  /** All the requests are handed out, and no worker gets more than one more than another. */
  lemma SharesAreFair(iters: nat, workers: nat, i: nat, j: nat)
    requires i < workers && j < workers
    ensures ShareSum(iters, workers, workers) == iters
    ensures Share(iters, workers, i) <= Share(iters, workers, j) + 1
  {
    ShareSumValue(iters, workers, workers);
  }

  // ----- all workers -----

  /** The replies worker `w` gets for its share of the requests. */
  function Part(iters: nat, outcomes: seq<seq<Outcome>>, w: nat): seq<Reply>
    requires w < |outcomes| && Share(iters, |outcomes|, w) <= |outcomes[w]|
  {
    Served(outcomes[w][..Share(iters, |outcomes|, w)])
  }

  predicate LongEnough(iters: nat, outcomes: seq<seq<Outcome>>) {
    forall w :: 0 <= w < |outcomes| ==> Share(iters, |outcomes|, w) <= |outcomes[w]|
  }

  function Parts(iters: nat, outcomes: seq<seq<Outcome>>): (r: seq<seq<Reply>>)
    requires LongEnough(iters, outcomes)
    ensures |r| == |outcomes| && forall w :: 0 <= w < |r| ==> r[w] == Part(iters, outcomes, w)
  {
    seq(|outcomes|, w requires 0 <= w < |outcomes| => Part(iters, outcomes, w))
  }

  /** The parts listed in `order`, one after the other. */
  function Gathered(parts: seq<seq<Reply>>, order: seq<nat>): seq<Reply> {
    if order == [] then []
    else
      var w := order[|order| - 1];
      Gathered(parts, order[..|order| - 1]) + if w < |parts| then parts[w] else []
  }

  function Upto(n: nat): (r: seq<nat>)
    ensures |r| == n && forall k :: 0 <= k < n ==> r[k] == k
  {
    seq(n, k => k)
  }

  lemma GatheredStep(parts: seq<seq<Reply>>, order: seq<nat>, w: nat)
    ensures Gathered(parts, order + [w]) == Gathered(parts, order) + if w < |parts| then parts[w] else []
  {
    assert (order + [w])[..|order|] == order;
  }

  lemma {:induction false} GatheredAppend(parts: seq<seq<Reply>>, a: seq<nat>, b: seq<nat>)
    ensures Gathered(parts, a + b) == Gathered(parts, a) + Gathered(parts, b)
  {
    if b == [] {
      assert a + b == a;
    } else {
      var n := |b| - 1;
      GatheredAppend(parts, a, b[..n]);
      assert a + b == a + b[..n] + [b[n]] && b == b[..n] + [b[n]];
      GatheredStep(parts, a + b[..n], b[n]);
      GatheredStep(parts, b[..n], b[n]);
      hide Gathered;
      var part := if b[n] < |parts| then parts[b[n]] else [];
      Regroup(Gathered(parts, a), Gathered(parts, b[..n]), part);
    }
  }

  /** Reports may arrive in any order. */
  lemma {:induction false} GatheredRearranged(parts: seq<seq<Reply>>, a: seq<nat>, b: seq<nat>)
    requires multiset(a) == multiset(b)
    ensures multiset(Gathered(parts, a)) == multiset(Gathered(parts, b))
  {
    if a == [] {
      assert |b| == |multiset(a)|;
    } else {
      var n := |a| - 1;
      var c, d := Without(a, b);
      GatheredRearranged(parts, a[..n], c + d);
      hide Gathered;
      assert a == a[..n] + [a[n]];
      GatheredStep(parts, a[..n], a[n]);
      GatheredStep(parts, c, a[n]);
      GatheredAppend(parts, c, d);
      GatheredAppend(parts, c + [a[n]], d);
    }
  }

  /** Whether worker `w` met an error within its share. */
  predicate WorkerFailed(iters: nat, outcomes: seq<seq<Outcome>>, w: nat) {
    && w < |outcomes| && Share(iters, |outcomes|, w) <= |outcomes[w]|
    && Failed in outcomes[w][..Share(iters, |outcomes|, w)]
  }

  predicate NoneFailed(iters: nat, outcomes: seq<seq<Outcome>>, order: seq<nat>) {
    forall w :: w in order ==> !WorkerFailed(iters, outcomes, w)
  }

  lemma NoneFailedEmpty(iters: nat, outcomes: seq<seq<Outcome>>)
    ensures NoneFailed(iters, outcomes, [])
  {}

  lemma NoneFailedStep(iters: nat, outcomes: seq<seq<Outcome>>, order: seq<nat>, w: nat)
    ensures
      NoneFailed(iters, outcomes, order + [w]) <==>
      NoneFailed(iters, outcomes, order) && !WorkerFailed(iters, outcomes, w)
  {}

  /** Every worker reports once. */
  lemma AllArrive(iters: nat, outcomes: seq<seq<Outcome>>, order: seq<nat>)
    requires multiset(order) == multiset(Upto(|outcomes|))
    ensures forall w :: w in order ==> w < |outcomes|
    ensures
      NoneFailed(iters, outcomes, order) <==>
      forall w :: 0 <= w < |outcomes| ==> !WorkerFailed(iters, outcomes, w)
  {
    hide WorkerFailed;
    var all := Upto(|outcomes|);
    assert forall w :: w in order <==> w in multiset(order);
    assert forall w :: w in all <==> w in multiset(all);
    forall w | w in all ensures w < |outcomes| {}
    forall w | 0 <= w < |outcomes| ensures w in order {
      assert all[w] in all;
    }
  }

  lemma {:induction false} GatheredCount(iters: nat, outcomes: seq<seq<Outcome>>, n: nat)
    requires n <= |outcomes| && outcomes != [] && LongEnough(iters, outcomes)
    ensures |Gathered(Parts(iters, outcomes), Upto(n))| <= ShareSum(iters, |outcomes|, n)
    ensures
      |Gathered(Parts(iters, outcomes), Upto(n))| == ShareSum(iters, |outcomes|, n) <==>
      NoneFailed(iters, outcomes, Upto(n))
  {
    hide Share, WorkerFailed, NoneFailed, Part, Gathered, Upto;
    if n > 0 {
      GatheredCount(iters, outcomes, n - 1);
      assert Upto(n) == Upto(n - 1) + [n - 1];
      GatheredStep(Parts(iters, outcomes), Upto(n - 1), n - 1);
      NoneFailedStep(iters, outcomes, Upto(n - 1), n - 1);
      PartCount(iters, outcomes, n - 1);
    } else {
      assert Upto(0) == [];
      GatheredNone(Parts(iters, outcomes));
      NoneFailedEmpty(iters, outcomes);
    }
  }

  lemma PartCount(iters: nat, outcomes: seq<seq<Outcome>>, w: nat)
    requires w < |outcomes| && Share(iters, |outcomes|, w) <= |outcomes[w]|
    ensures |Part(iters, outcomes, w)| <= Share(iters, |outcomes|, w)
    ensures |Part(iters, outcomes, w)| == Share(iters, |outcomes|, w) <==> !WorkerFailed(iters, outcomes, w)
  {
    hide Share;
  }

  /** The count grows by exactly the number of requests if and only if no worker failed. */
  lemma CountsAllIffNoneFailed(iters: nat, outcomes: seq<seq<Outcome>>)
    requires outcomes != [] && LongEnough(iters, outcomes)
    ensures
      |Gathered(Parts(iters, outcomes), Upto(|outcomes|))| == iters <==>
      forall w :: 0 <= w < |outcomes| ==> !WorkerFailed(iters, outcomes, w)
  {
    GatheredCount(iters, outcomes, |outcomes|);
    AllArrive(iters, outcomes, Upto(|outcomes|));
    SharesAreFair(iters, |outcomes|, 0, 0);
  }

  /** The samples stand for exactly these replies, and their latencies are some of theirs. */
  ghost predicate StandFor(samples: seq<Sample>, replies: seq<Reply>) {
    && TotalWeight(samples) == |replies| as real
    && Positive(samples)
    && multiset(LatenciesOf(samples)) <= multiset(Latencies(replies))
  }

  /** The samples of a report join those of the summary. */
  lemma StandForMore(samples: seq<Sample>, before: seq<Reply>, report: Report, replies: seq<Reply>)
    requires StandFor(samples, before) && Reports(report, replies)
    ensures
      var more :=
        if report.samples == [] then []
        else Weigh(report.samples, report.stats.count as real / |report.samples| as real);
      StandFor(samples + more, before + replies)
  {
    StatsCount(replies);
    hide StatsOf, TotalWeight;
    if report.samples == [] {
      assert samples + [] == samples && before + replies == before;
    } else {
      var weight := report.stats.count as real / |report.samples| as real;
      var more := Weigh(report.samples, weight);
      SharedWeight(report.samples, report.stats.count);
      TotalAppend(samples, more);
      assert LatenciesOf(samples + more) == LatenciesOf(samples) + report.samples;
      assert Latencies(before + replies) == Latencies(before) + Latencies(replies);
    }
  }

  lemma StandForNothing()
    ensures StandFor([], [])
  {}

  class Summary {
    var stats: Stats
    var errors: nat
    var firstError: Option<nat>
    var samples: seq<Sample>

    constructor ()
      ensures stats == NO_STATS && errors == 0 && firstError == None && samples == []
    {
      stats, errors, firstError, samples := NO_STATS, 0, None, [];
    }

    method Merge(report: Report)
      modifies this
      ensures stats == Combine(old(stats), report.stats)
      ensures errors == old(errors) + report.errors
      ensures firstError == if old(firstError).Some? then old(firstError) else report.firstError
      ensures
        samples ==
        old(samples) +
        if report.samples == [] then []
        else Weigh(report.samples, report.stats.count as real / |report.samples| as real)
    {
      stats := stats.(count := stats.count + report.stats.count);
      stats := stats.(blocked := stats.blocked + report.stats.blocked);
      errors := errors + report.errors;
      if firstError.None? {
        firstError := report.firstError;
      }
      stats := stats.(tx := stats.tx + report.stats.tx);
      stats := stats.(rx := stats.rx + report.stats.rx);
      stats := stats.(total := stats.total + report.stats.total);
      if report.stats.min.Some? {
        stats := stats.(min := Least(stats.min, report.stats.min));
      }
      stats := stats.(max := Greatest(stats.max, report.stats.max));
      if report.samples != [] {
        var weight := report.stats.count as real / |report.samples| as real;
        samples := samples + Weigh(report.samples, weight);
      }
    }
  }

  class Workers {
    const workers: seq<Worker>
    const summary: Summary

    ghost predicate Ready()
      reads workers
    {
      && (forall i, j :: 0 <= i < j < |workers| ==> workers[i] != workers[j])
      && (forall i :: 0 <= i < |workers| ==> workers[i].report == NO_REPORT)
    }

    constructor (workers: seq<Worker>)
      ensures this.workers == workers && fresh(summary) && summary.stats == NO_STATS && summary.errors == 0
      ensures StandFor(summary.samples, [])
    {
      StandForNothing();
      this.workers := workers;
      summary := new Summary();
    }

    /** Hands out `iters` requests and lets every worker run. */
    method RunAll(iters: u64, outcomes: seq<seq<Outcome>>) returns (reports: seq<Report>)
      requires Ready() && workers != [] && |outcomes| == |workers| && LongEnough(iters, outcomes)
      modifies workers, set w | w in workers :: w.reservoirRng
      ensures Ready()
      ensures |reports| == |workers|
      ensures forall w :: 0 <= w < |reports| ==> Reports(reports[w], Part(iters, outcomes, w))
      ensures forall w :: 0 <= w < |reports| ==> reports[w].errors == if WorkerFailed(iters, outcomes, w) then 1 else 0
    {
      hide Reports;
      reports := [];
      for i := 0 to |workers|
        invariant |reports| == i
        invariant Ready()
        invariant forall j :: 0 <= j < i ==> Reports(reports[j], Part(iters, outcomes, j))
        invariant forall j :: 0 <= j < i ==> reports[j].errors == if WorkerFailed(iters, outcomes, j) then 1 else 0
      {
        ShareBound(iters, |workers|, i);
        workers[i].Run(Share(iters, |outcomes|, i), outcomes[i]);
        var report := workers[i].TakeReport();
        reports := reports + [report];
      }
    }

    /**
     * `Workers::run`: the reports are merged in the order `order` they arrive in. The summary then
     * tells about all replies, those of earlier calls and those of this one.
     */
    method Run(iters: u64, outcomes: seq<seq<Outcome>>, order: seq<nat>, ghost before: seq<Reply>)
      returns (ghost after: seq<Reply>)
      requires Ready() && workers != [] && |outcomes| == |workers| && LongEnough(iters, outcomes)
      requires multiset(order) == multiset(Upto(|workers|))
      requires summary.stats == StatsOf(before) && StandFor(summary.samples, before)
      modifies workers, (set w | w in workers :: w.reservoirRng), summary
      ensures Ready()
      ensures summary.stats == StatsOf(after) && StandFor(summary.samples, after)
      ensures
        multiset(after) == multiset(before) + multiset(Gathered(Parts(iters, outcomes), Upto(|workers|)))
      ensures
        summary.stats.count == old(summary.stats.count) + iters <==>
        forall w :: 0 <= w < |outcomes| ==> !WorkerFailed(iters, outcomes, w)
      ensures
        summary.errors == old(summary.errors) <==>
        forall w :: 0 <= w < |outcomes| ==> !WorkerFailed(iters, outcomes, w)
    {
      hide StatsOf, Gathered, Combine, Parts, Part, WorkerFailed, NoneFailed, LongEnough, Upto, StandFor, Weigh;
      AllArrive(iters, outcomes, order);
      assert NoneFailed(iters, outcomes, []) by { NoneFailedEmpty(iters, outcomes); }
      ghost var parts := Parts(iters, outcomes);
      var reports := RunAll(iters, outcomes);
      after := before;
      assert order[..0] == [] && Gathered(parts, []) == [] by { GatheredNone(parts); }
      assert before + [] == before;
      for k := 0 to |order|
        invariant Ready()
        invariant after == before + Gathered(parts, order[..k])
        invariant summary.stats == StatsOf(after) && StandFor(summary.samples, after)
        invariant summary.errors >= old(summary.errors)
        invariant summary.errors == old(summary.errors) <==> NoneFailed(iters, outcomes, order[..k])
      {
        var w := order[k];
        assert w in order;
        StandForMore(summary.samples, after, reports[w], parts[w]);
        summary.Merge(reports[w]);
        StatsAppend(after, parts[w]);
        assert order[..k + 1] == order[..k] + [w];
        GatheredStep(parts, order[..k], w);
        NoneFailedStep(iters, outcomes, order[..k], w);
        after := after + parts[w];
      }
      assert order[..|order|] == order;
      Counted(before, after, iters, outcomes, order);
    }
  }

  lemma Counted(before: seq<Reply>, after: seq<Reply>, iters: nat, outcomes: seq<seq<Outcome>>, order: seq<nat>)
    requires outcomes != [] && LongEnough(iters, outcomes)
    requires multiset(order) == multiset(Upto(|outcomes|))
    requires after == before + Gathered(Parts(iters, outcomes), order)
    ensures
      multiset(after) == multiset(before) + multiset(Gathered(Parts(iters, outcomes), Upto(|outcomes|)))
    ensures
      StatsOf(after).count == StatsOf(before).count + iters <==>
      forall w :: 0 <= w < |outcomes| ==> !WorkerFailed(iters, outcomes, w)
  {
    hide StatsOf, Gathered, Parts, WorkerFailed, LongEnough, Upto;
    var parts := Parts(iters, outcomes);
    GatheredRearranged(parts, order, Upto(|outcomes|));
    assert |multiset(Gathered(parts, order))| == |multiset(Gathered(parts, Upto(|outcomes|)))|;
    StatsCount(before);
    StatsCount(after);
    CountsAllIffNoneFailed(iters, outcomes);
  }

  lemma GatheredNone(parts: seq<seq<Reply>>)
    ensures Gathered(parts, []) == []
  {}

  lemma ShareBound(iters: u64, workers: nat, index: nat)
    requires 0 < workers && index < workers
    ensures Share(iters, workers, index) < TWO_64
  {
    SharesAreFair(iters, workers, index, index);
    ShareSumAtLeast(iters, workers, index, workers);
  }

  lemma {:induction false} ShareSumAtLeast(iters: nat, workers: nat, index: nat, n: nat)
    requires 0 < workers && index < n
    ensures Share(iters, workers, index) <= ShareSum(iters, workers, n)
  {
    if index < n - 1 { ShareSumAtLeast(iters, workers, index, n - 1); }
  }
}
