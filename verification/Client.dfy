/** One connection of the benchmark client (benches/spoe/client.rs, `Connection`). */
module Client {
  import opened Bits
  import opened Sets
  import opened Wrappers
  import opened Spop
  import opened Ack
  import opened Spoa

  const FRAME_NOTIFY: byte := 0x03

  /** ASCII of `check-client-ip`, `ip` and `ip_bad`. */
  const MESSAGE: seq<byte> :=
    [0x63, 0x68, 0x65, 0x63, 0x6B, 0x2D, 0x63, 0x6C, 0x69, 0x65, 0x6E, 0x74, 0x2D, 0x69, 0x70]
  const ARGUMENT: seq<byte> := [0x69, 0x70]
  const VARIABLE: seq<byte> := [0x69, 0x70, 0x5F, 0x62, 0x61, 0x64]

  /** `message_prefix()` and `expected_action()` */
  const PREFIX: seq<byte> := Varint(|MESSAGE|) + MESSAGE + [1] + Varint(|ARGUMENT|) + ARGUMENT
  const ACTION: seq<byte> := [ACTION_SET_VAR, 3, SCOPE_SESSION] + Varint(|VARIABLE|) + VARIABLE

  /** The bytes that precede the address in a request, and those that precede the answer in an ACK. */
  lemma FixedBytes()
    ensures PREFIX == [15] + MESSAGE + [1, 2] + ARGUMENT
    ensures ACTION == [1, 3, 1, 6] + VARIABLE
  {
    VarintRanges(15);
    VarintRanges(2);
    VarintRanges(6);
    hide Varint;
  }

  datatype ClientError = Transport | BadFrame(size: nat) | BadAck(error: AckError) | UnexpectedAck(frame: u64)

  datatype BatchReply = BatchReply(blocked: nat, tx: nat, rx: nat)

  // ----- identifiers -----

  /** The identifier of the `i`-th request after the one numbered `first`. */
  function FrameId(first: u64, i: nat): u64 {
    (first + i) % TWO_64
  }

  function SentIds(first: u64, n: nat): (ids: seq<u64>)
    ensures |ids| == n
  {
    seq(n, i requires 0 <= i < n => FrameId(first, i))
  }

  lemma NextFrameId(first: u64, i: nat)
    ensures FrameId(first, 0) == first
    ensures (FrameId(first, i) + 1) % TWO_64 == FrameId(first, i + 1)
  {}

  /** Requests numbered from 1 on: those of earlier calls, then those of one call more. */
  lemma CallContinues(used: seq<u64>, n: nat)
    requires used == SentIds(1, |used|)
    ensures
      var first := FrameId(1, |used|);
      var more := used + SentIds(first, n);
      && FrameId(first, n) == FrameId(1, |more|)
      && more == SentIds(1, |more|)
  {
    var first := FrameId(1, |used|);
    var more := used + SentIds(first, n);
    forall k | 0 <= k < n ensures FrameId(first, k) == FrameId(1, |used| + k) {
      FrameIdSum(|used|, k);
    }
    FrameIdSum(|used|, n);
    assert forall k :: 0 <= k < |more| ==> more[k] == FrameId(1, k);
  }

  lemma FrameIdSum(i: nat, j: nat)
    ensures FrameId(FrameId(1, i), j) == FrameId(1, i + j)
  {}

  /** NOTIFY frames for `ips`, numbered from `first`. */
  function Notifications(encode: Ip -> seq<byte>, streamId: u64, first: u64, ips: seq<Ip>): seq<byte> {
    if ips == [] then []
    else
      var n := |ips| - 1;
      Notifications(encode, streamId, first, ips[..n]) +
      Frame(Body(FRAME_NOTIFY, streamId, FrameId(first, n), PREFIX + encode(ips[n])))
  }

  /** They are the frames of the requests in order, each numbered after the one before. */
  lemma {:induction false} NotificationFrames(encode: Ip -> seq<byte>, streamId: u64, first: u64, ips: seq<Ip>)
    ensures
      Notifications(encode, streamId, first, ips) ==
      Frames(seq(|ips|, k requires 0 <= k < |ips| =>
        Body(FRAME_NOTIFY, streamId, FrameId(first, k), PREFIX + encode(ips[k]))))
  {
    hide Body, Frame;
    var bodies := seq(|ips|, k requires 0 <= k < |ips| =>
      Body(FRAME_NOTIFY, streamId, FrameId(first, k), PREFIX + encode(ips[k])));
    if ips != [] {
      var n := |ips| - 1;
      NotificationFrames(encode, streamId, first, ips[..n]);
      assert bodies[..n] == seq(n, k requires 0 <= k < n =>
        Body(FRAME_NOTIFY, streamId, FrameId(first, k), PREFIX + encode(ips[..n][k])));
      FramesAppend(bodies[..n], bodies[n]);
      assert bodies == bodies[..n] + [bodies[n]];
    }
  }

  lemma {:induction false} FramesAppend(bodies: seq<seq<byte>>, body: seq<byte>)
    ensures Frames(bodies + [body]) == Frames(bodies) + Frame(body)
  {
    hide Frame;
    if bodies == [] {
      assert [body][1..] == [];
    } else {
      assert (bodies + [body])[1..] == bodies[1..] + [body];
      FramesAppend(bodies[1..], body);
    }
  }

  // ----- the reference: read every frame first, then judge the batch -----

  datatype Answer = Answer(frame: u64, blocked: bool)

  /** Reads `n` frames and validates each; gives the answers and the unread input. */
  function ReadAnswers(input: seq<byte>, n: nat, streamId: u64): (r: Option<(seq<Answer>, seq<byte>)>)
    ensures r.Some? ==> |r.value.0| == n && |r.value.1| <= |input|
  {
    if n == 0 then Some(([], input))
    else
      match ReadAnswers(input, n - 1, streamId)
      case None => None
      case Some((answers, rest)) =>
        match TakeFrame(rest)
        case Err(_) => None
        case Ok((body, tail)) =>
          match Judge(body, streamId, ACTION)
          case Err(_) => None
          case Ok((frame, blocked)) => Some((answers + [Answer(frame, blocked)], tail))
  }

  function Ids(answers: seq<Answer>): (ids: seq<u64>)
    ensures |ids| == |answers|
  {
    seq(|answers|, i requires 0 <= i < |answers| => answers[i].frame)
  }

  function BlockedCount(answers: seq<Answer>): (n: nat)
    ensures n <= |answers|
  {
    if answers == [] then 0
    else BlockedCount(answers[..|answers| - 1]) + (if answers[|answers| - 1].blocked then 1 else 0)
  }

  /** It is the number of answers that are true. */
  lemma {:induction false} BlockedCountMeaning(answers: seq<Answer>)
    ensures BlockedCount(answers) == |set i | 0 <= i < |answers| && answers[i].blocked|
  {
    if answers != [] {
      var n := |answers| - 1;
      BlockedCountMeaning(answers[..n]);
      var before := set i | 0 <= i < n && answers[..n][i].blocked;
      var all := set i | 0 <= i < |answers| && answers[i].blocked;
      assert all == before + if answers[n].blocked then {n} else {};
    }
  }

  /** The answers are valid and acknowledge every identifier sent exactly once, in any order. */
  ghost predicate AllAcknowledged(input: seq<byte>, n: nat, streamId: u64, first: u64) {
    && ReadAnswers(input, n, streamId).Some?
    && multiset(Ids(ReadAnswers(input, n, streamId).value.0)) == multiset(SentIds(first, n))
  }

  // ----- the bitmask of outstanding requests -----

  /** Bit `i` is set iff request `i` of the batch was sent and is not among `ids`. */
  ghost predicate Outstanding(pending: u64, n: nat, first: u64, ids: seq<u64>) {
    forall i: nat :: Bit(pending, i) <==> i < n && first + i !in ids
  }

  /** All identifiers differ and lie among the `n` from `first` on, without wrap-around. */
  ghost predicate Accepted(ids: seq<u64>, first: u64, n: nat) {
    && (forall i, j :: 0 <= i < j < |ids| ==> ids[i] != ids[j])
    && (forall id <- ids :: first <= id < first + n)
  }

  /** After `k` acceptable answers the next frame is not one, for the reason the error names. */
  ghost predicate StopsAt(input: seq<byte>, k: nat, streamId: u64, first: u64, n: nat, error: ClientError) {
    && ReadAnswers(input, k, streamId).Some?
    && var (answers, rest) := ReadAnswers(input, k, streamId).value;
    && Accepted(Ids(answers), first, n)
    && match TakeFrame(rest)
       case Err(Io) => error == Transport
       case Err(InvalidSize(size)) => error == BadFrame(size)
       case Ok((body, _)) =>
         match Judge(body, streamId, ACTION)
         case Err(e) => error == BadAck(e)
         case Ok((frame, _)) => error == UnexpectedAck(frame) && !Accepted(Ids(answers) + [frame], first, n)
  }

  lemma {:induction false} OnesBit(n: nat, i: nat)
    ensures Bit(Pow2(n) - 1, i) <==> i < n
  {
    if n == 0 {
      ZeroBit(i);
    } else if i > 0 {
      assert (Pow2(n) - 1) / 2 == Pow2(n - 1) - 1;
      OnesBit(n - 1, i - 1);
    }
  }

  lemma {:induction false} Pow2Bit(k: nat, i: nat)
    ensures Bit(Pow2(k), i) <==> i == k
  {
    if k == 0 {
      if i > 0 { ZeroBit(i - 1); }
    } else if i > 0 {
      Pow2Bit(k - 1, i - 1);
    }
  }

  lemma {:induction false} ComplementBit(x: nat, w: nat, i: nat)
    requires x < Pow2(w) && i < w
    ensures Bit(Pow2(w) - 1 - x, i) <==> !Bit(x, i)
  {
    if i > 0 {
      assert (Pow2(w) - 1 - x) / 2 == Pow2(w - 1) - 1 - x / 2;
      ComplementBit(x / 2, w - 1, i - 1);
    }
  }

  lemma {:induction false} HighBit(x: nat, w: nat, i: nat)
    requires x < Pow2(w) <= Pow2(i)
    ensures !Bit(x, i)
  {
    if i > 0 {
      if w > 0 { HighBit(x / 2, w - 1, i - 1); } else { ZeroBit(i); }
    }
  }

  /** `pending & (1 << index) != 0` reads one bit. */
  lemma TestBit(pending: u64, index: nat)
    requires index < 64
    ensures And(pending, Shl(1, index)) != 0 <==> Bit(pending, index)
  {}

  lemma {:induction false} OneShifted(k: nat)
    ensures Shl(1, k) == Pow2(k)
  {
    if k > 0 { OneShifted(k - 1); }
  }

  lemma {:induction false} AndBound(a: nat, b: nat)
    ensures And(a, b) <= a
  {
    if a > 0 && b > 0 { AndBound(a / 2, b / 2); }
  }

  /** `pending &= !(1 << index)` clears one bit and leaves the others. */
  lemma ClearBit(pending: u64, index: nat)
    requires index < 64
    ensures Shl(1, index) < TWO_64
    ensures And(pending, Not64(Shl(1, index))) < TWO_64
    ensures forall i: nat :: Bit(And(pending, Not64(Shl(1, index))), i) <==> Bit(pending, i) && i != index
  {
    OneShifted(index);
    Pow2Words();
    Pow2Monotonic(index, 63);
    AndBound(pending, Not64(Shl(1, index)));
    forall i: nat
      ensures Bit(And(pending, Not64(Shl(1, index))), i) <==> Bit(pending, i) && i != index
    {
      AndBit(pending, Not64(Shl(1, index)), i);
      if i < 64 {
        ComplementBit(Shl(1, index), 64, i);
        Pow2Bit(index, i);
      } else {
        Pow2Monotonic(64, i);
        HighBit(pending, 64, i);
      }
    }
  }

  /** The initial mask: one bit a request. */
  function InitialMask(n: nat): u64
    requires n <= 64
  {
    MaskFits(n);
    if n == 64 then TWO_64 - 1 else Shl(1, n) - 1
  }

  lemma MaskFits(n: nat)
    requires n <= 64
    ensures n < 64 ==> 0 < Shl(1, n) < TWO_64
  {
    OneShifted(n);
    Pow2Words();
    if n < 64 { Pow2Monotonic(n, 63); }
  }

  lemma InitiallyOutstanding(n: nat, first: u64)
    requires n <= 64
    ensures Outstanding(InitialMask(n), n, first, [])
  {
    MaskFits(n);
    OneShifted(n);
    Pow2Words();
    forall i: nat ensures Bit(InitialMask(n), i) <==> i < n {
      OnesBit(n, i);
    }
  }

  // ----- accepted batches are permutations -----

  ghost function Interval(first: nat, n: nat): (s: set<nat>)
    ensures |s| == n
    ensures forall x :: x in s <==> first <= x < first + n
  {
    if n == 0 then {} else Interval(first, n - 1) + {first + n - 1}
  }

  lemma {:induction false} DistinctSize(ids: seq<u64>)
    requires forall i, j :: 0 <= i < j < |ids| ==> ids[i] != ids[j]
    ensures |set id: nat | id in ids| == |ids|
    ensures forall id :: multiset(ids)[id] == if id in ids then 1 else 0
  {
    if ids != [] {
      var n := |ids| - 1;
      DistinctSize(ids[..n]);
      assert ids == ids[..n] + [ids[n]];
      assert (set id: nat | id in ids) == (set id: nat | id in ids[..n]) + {ids[n]};
    }
  }

  lemma RepeatedCount(ids: seq<u64>, i: nat, j: nat)
    requires i < j < |ids| && ids[i] == ids[j]
    ensures multiset(ids)[ids[i]] >= 2
  {
    assert ids == ids[..j] + ids[j..];
    assert ids[..j][i] == ids[i] && ids[j..][0] == ids[j];
    assert multiset(ids) == multiset(ids[..j]) + multiset(ids[j..]);
  }

  lemma SentCount(first: u64, n: nat)
    requires first + n <= TWO_64
    ensures forall id: u64 :: id in SentIds(first, n) <==> first <= id < first + n
    ensures forall id :: multiset(SentIds(first, n))[id] == if id in SentIds(first, n) then 1 else 0
  {
    var sent := SentIds(first, n);
    assert forall i :: 0 <= i < n ==> sent[i] == first + i;
    forall id: u64 | first <= id < first + n ensures id in sent {
      assert sent[id - first] == id;
    }
    DistinctSize(sent);
  }

  lemma AcceptedAll(ids: seq<u64>, first: u64, n: nat)
    requires |ids| == n && Accepted(ids, first, n)
    ensures first + n <= TWO_64 && multiset(ids) == multiset(SentIds(first, n))
  {
    hide SentIds;
    DistinctSize(ids);
    var all := set id: nat | id in ids;
    SubsetEqual(all, Interval(first, n));
    if n > 0 {
      assert first + n - 1 in all;
    }
    SentCount(first, n);
    assert forall id: u64 :: id in ids <==> id in all;
  }

  /**
   * What the bitmask checks, one frame at a time, is that the identifiers received are a permutation
   * of those sent, provided the batch does not run past 2^64.
   */
  lemma AcceptedIsPermutation(ids: seq<u64>, first: u64, n: nat)
    requires |ids| == n
    ensures Accepted(ids, first, n) <==> first + n <= TWO_64 && multiset(ids) == multiset(SentIds(first, n))
  {
    if Accepted(ids, first, n) {
      AcceptedAll(ids, first, n);
    }
    if first + n <= TWO_64 && multiset(ids) == multiset(SentIds(first, n)) {
      SentCount(first, n);
      forall i, j | 0 <= i < j < |ids| ensures ids[i] != ids[j] {
        if ids[i] == ids[j] { RepeatedCount(ids, i, j); }
      }
      forall id | id in ids ensures first <= id < first + n {
        assert id in multiset(ids);
      }
    }
  }

  /** The ACK frames that answer the requests `ids` with `blocked`. */
  function AckFrames(streamId: u64, answers: seq<Answer>): seq<byte> {
    if answers == [] then []
    else
      var a := answers[|answers| - 1];
      AckFrames(streamId, answers[..|answers| - 1]) + Frame(AckBody(streamId, a.frame, ACTION, a.blocked))
  }

  lemma AckFits(streamId: u64, frameId: u64, blocked: bool)
    ensures Fits(AckBody(streamId, frameId, ACTION, blocked))
  {
    VarintLength(streamId);
    VarintLength(frameId);
    VarintLength(|VARIABLE|);
  }

  /** Well-formed ACK frames are read as the answers they carry. */
  lemma {:induction false} AckFramesRead(streamId: u64, answers: seq<Answer>, rest: seq<byte>)
    ensures ReadAnswers(AckFrames(streamId, answers) + rest, |answers|, streamId) == Some((answers, rest))
  {
    hide TakeFrame, Judge, Body, Frame;
    if answers == [] {
      assert [] + rest == rest;
    } else {
      var n := |answers| - 1;
      var a := answers[n];
      var body := AckBody(streamId, a.frame, ACTION, a.blocked);
      AckFramesRead(streamId, answers[..n], Frame(body) + rest);
      assert AckFrames(streamId, answers) + rest == AckFrames(streamId, answers[..n]) + (Frame(body) + rest);
      AckFits(streamId, a.frame, a.blocked);
      TakeOneFrame(body, rest);
      AckAccepted(streamId, a.frame, ACTION, a.blocked);
      assert answers == answers[..n] + [a];
    }
  }

  /**
   * At the end of the identifier space the promise fails: this input acknowledges every request of the
   * batch numbered from 2^64 - 1 on, in order, and still the batch runs past the last identifier, on
   * which `check_pipelined` rejects it.
   */
  lemma WrapAroundRejected(streamId: u64, blocked: seq<bool>) returns (first: u64, incoming: seq<byte>)
    requires 2 <= |blocked| <= 64
    ensures
      && AllAcknowledged(incoming, |blocked|, streamId, first)
      && ReadAnswers(incoming, |blocked|, streamId).value.1 == []
      && Ids(ReadAnswers(incoming, |blocked|, streamId).value.0) == SentIds(first, |blocked|)
      && first + |blocked| > TWO_64
      && !Accepted(SentIds(first, |blocked|), first, |blocked|)
  {
    hide ReadAnswers, AckFrames;
    first := TWO_64 - 1;
    var answers := AnswersInOrder(first, blocked);
    incoming := AckFrames(streamId, answers);
    assert incoming + [] == incoming;
    AckFramesRead(streamId, answers, []);
    WrapsAround(|blocked|);
  }

  function AnswersInOrder(first: u64, blocked: seq<bool>): (answers: seq<Answer>)
    ensures |answers| == |blocked| && Ids(answers) == SentIds(first, |blocked|)
  {
    var answers := seq(|blocked|, i requires 0 <= i < |blocked| => Answer(FrameId(first, i), blocked[i]));
    assert forall i :: 0 <= i < |blocked| ==> Ids(answers)[i] == SentIds(first, |blocked|)[i];
    answers
  }

  lemma WrapsAround(n: nat)
    requires n >= 2
    ensures !Accepted(SentIds(TWO_64 - 1, n), TWO_64 - 1, n)
  {
    assert SentIds(TWO_64 - 1, n)[1] == 0;
    assert 0 in SentIds(TWO_64 - 1, n);
  }

  lemma {:induction false} ReadAnswersPrefix(input: seq<byte>, k: nat, n: nat, streamId: u64)
    requires k <= n && ReadAnswers(input, n, streamId).Some?
    ensures ReadAnswers(input, k, streamId).Some?
    ensures ReadAnswers(input, k, streamId).value.0 <= ReadAnswers(input, n, streamId).value.0
    decreases n
  {
    hide TakeFrame, Judge;
    if k < n {
      ReadAnswersPrefix(input, k, n - 1, streamId);
    }
  }

  lemma AcceptedPrefix(ids: seq<u64>, k: nat, first: u64, n: nat)
    requires k <= |ids| && Accepted(ids, first, n)
    ensures Accepted(ids[..k], first, n)
  {
    assert forall id <- ids[..k] :: id in ids;
  }

  /** A batch that was rejected after `k` answers cannot be accepted as a whole. */
  lemma RejectedStaysRejected(input: seq<byte>, k: nat, n: nat, streamId: u64, first: u64)
    requires 0 < k <= n
    requires
      match ReadAnswers(input, k, streamId)
      case None => true
      case Some((answers, _)) => !Accepted(Ids(answers), first, n)
    ensures !AllAcknowledged(input, n, streamId, first) || first + n > TWO_64
  {
    hide ReadAnswers;
    if AllAcknowledged(input, n, streamId, first) && first + n <= TWO_64 {
      ReadAnswersPrefix(input, k, n, streamId);
      var answers := ReadAnswers(input, n, streamId).value.0;
      var part := ReadAnswers(input, k, streamId).value.0;
      AcceptedIsPermutation(Ids(answers), first, n);
      assert Ids(part) == Ids(answers)[..k];
      AcceptedPrefix(Ids(answers), k, first, n);
    }
  }

  // ----- the connection -----

  /** The socket is the bytes still to come and the bytes written so far. */
  class Connection {
    const streamId: u64
    const encode: Ip -> seq<byte>
    const out: Buffer
    var nextFrameId: u64
    var payload: seq<byte>
    var inbuf: seq<byte>
    var incoming: seq<byte>
    var sent: seq<byte>
    /** The identifiers of all NOTIFY frames built so far. */
    ghost var used: seq<u64>

    /** The frames of all calls are numbered consecutively from 1, modulo 2^64. */
    ghost predicate Numbered()
      reads this
    {
      used == SentIds(1, |used|) && nextFrameId == FrameId(1, |used|)
    }

    constructor (streamId: u64, encode: Ip -> seq<byte>, incoming: seq<byte>)
      ensures this.streamId == streamId && this.encode == encode && this.incoming == incoming
      ensures nextFrameId == 1 && sent == [] && fresh(out)
      ensures used == [] && Numbered()
    {
      this.streamId, this.encode, this.incoming := streamId, encode, incoming;
      nextFrameId, payload, inbuf, sent, used := 1, [], [], [], [];
      out := new Buffer();
    }

    /** One frame into `inbuf`; on failure the unread input is not specified. */
    method ReadFrame() returns (r: Result<(), FrameError>)
      modifies this`inbuf, this`incoming
      ensures
        match TakeFrame(old(incoming))
        case Ok((body, rest)) => r == Ok(()) && inbuf == body && incoming == rest
        case Err(e) => r == Err(e)
    {
      if |incoming| < 4 {
        incoming := [];
        return Err(Io);
      }
      var header := incoming[..4];
      incoming := incoming[4..];
      var length := FromBigEndian(header);
      if !(MIN_FRAME_SIZE <= length <= MAX_FRAME_SIZE) {
        return Err(InvalidSize(length));
      }
      if |incoming| < length {
        incoming := [];
        return Err(Io);
      }
      inbuf, incoming := incoming[..length], incoming[length..];
      return Ok(());
    }

    method WriteNotify(frameId: u64, ip: Ip)
      modifies this`payload, this`used, out
      ensures out.data == old(out.data) + Frame(Body(FRAME_NOTIFY, streamId, frameId, PREFIX + encode(ip)))
      ensures used == old(used) + [frameId]
    {
      used := used + [frameId];
      payload := PREFIX;
      payload := payload + encode(ip);
      out.PutFrame(FRAME_NOTIFY, streamId, frameId, payload);
    }

    /** Whether the kernel takes the whole write is the environment's choice. */
    method WriteAll(ok: bool) returns (r: bool)
      modifies this`sent
      ensures r == ok && (ok ==> sent == old(sent) + out.data)
    {
      if ok {
        sent := sent + out.data;
      }
      return ok;
    }

    /** One frame, validated as an ACK. */
    method ReadAck() returns (r: Result<Answer, ClientError>)
      modifies this`inbuf, this`incoming
      ensures
        match TakeFrame(old(incoming))
        case Err(Io) => r == Err(Transport)
        case Err(InvalidSize(size)) => r == Err(BadFrame(size))
        case Ok((body, rest)) =>
          && inbuf == body && incoming == rest
          && match Judge(body, streamId, ACTION)
             case Ok((frame, blocked)) => r == Ok(Answer(frame, blocked))
             case Err(e) => r == Err(BadAck(e))
    {
      var read := ReadFrame();
      match read {
        case Err(Io) => return Err(Transport);
        case Err(InvalidSize(size)) => return Err(BadFrame(size));
        case Ok(_) =>
      }
      var ack := DecodeAck(inbuf, streamId, ACTION);
      match ack {
        case Ok((frame, blocked)) => return Ok(Answer(frame, blocked));
        case Err(e) => return Err(BadAck(e));
      }
    }

    /** `check`: one request, and the ACK of exactly that request. */
    method Check(ip: Ip, writeOk: bool) returns (r: Result<(bool, nat, nat), ClientError>)
      modifies this, out
      ensures nextFrameId == FrameId(old(nextFrameId), 1)
      ensures used == old(used) + [old(nextFrameId)]
      ensures old(Numbered()) ==> Numbered()
      ensures out.data == Frame(Body(FRAME_NOTIFY, streamId, old(nextFrameId), PREFIX + encode(ip)))
      ensures writeOk ==> sent == old(sent) + out.data
      ensures
        r.Ok? <==>
          && writeOk
          && ReadAnswers(old(incoming), 1, streamId).Some?
          && Ids(ReadAnswers(old(incoming), 1, streamId).value.0) == [old(nextFrameId)]
      ensures
        r.Ok? ==>
          var (answers, rest) := ReadAnswers(old(incoming), 1, streamId).value;
          incoming == rest && r.value == (answers[0].blocked, |out.data|, |old(incoming)| - |rest|)
      ensures !writeOk ==> r == Err(Transport) && incoming == old(incoming)
      ensures writeOk && r.Err? ==> StopsAt(old(incoming), 0, streamId, old(nextFrameId), 1, r.error)
    {
      hide TakeFrame, Judge, Body, Frame;
      var frameId := nextFrameId;
      nextFrameId := (nextFrameId + 1) % TWO_64;
      out.data := [];
      WriteNotify(frameId, ip);
      assert SentIds(frameId, 1) == [frameId];
      if old(Numbered()) { CallContinues(old(used), 1); }
      var written := WriteAll(writeOk);
      if !written {
        return Err(Transport);
      }
      var tx := |out.data|;
      assert ReadAnswers(incoming, 0, streamId) == Some(([], incoming));
      var ack := ReadAck();
      if ack.Err? {
        return Err(ack.error);
      }
      assert Ids([ack.value])[0] == ack.value.frame && Ids([ack.value]) == [ack.value.frame];
      if ack.value.frame != frameId {
        assert [ack.value.frame][0] != [frameId][0];
        NotTheOne(ack.value.frame, frameId);
        return Err(UnexpectedAck(ack.value.frame));
      }
      return Ok((ack.value.blocked, tx, 4 + |inbuf|));
    }

    /**
     * `check_pipelined`: the source asserts a depth between 1 and 64. `left` is the final bitmask.
     */
    method CheckPipelined(ips: seq<Ip>, writeOk: bool)
      returns (r: Result<BatchReply, ClientError>, left: u64)
      requires 1 <= |ips| <= 64
      modifies this, out
      ensures nextFrameId == FrameId(old(nextFrameId), |ips|)
      ensures used == old(used) + SentIds(old(nextFrameId), |ips|)
      ensures old(Numbered()) ==> Numbered()
      ensures out.data == Notifications(encode, streamId, old(nextFrameId), ips)
      ensures writeOk ==> sent == old(sent) + out.data
      ensures
        r.Ok? <==>
          && writeOk
          && old(nextFrameId) + |ips| <= TWO_64
          && AllAcknowledged(old(incoming), |ips|, streamId, old(nextFrameId))
      ensures
        r.Ok? ==>
          var (answers, rest) := ReadAnswers(old(incoming), |ips|, streamId).value;
          && left == 0 && incoming == rest
          && r.value == BatchReply(BlockedCount(answers), |out.data|, |old(incoming)| - |rest|)
      ensures !writeOk ==> r == Err(Transport) && incoming == old(incoming)
      ensures
        writeOk && r.Err? ==>
          exists k :: 0 <= k < |ips| && StopsAt(old(incoming), k, streamId, old(nextFrameId), |ips|, r.error)
    {
      hide Notifications, ReadAnswers;
      var first := nextFrameId;
      left := 0;
      out.data := [];
      SendAll(ips);
      if old(Numbered()) { CallContinues(old(used), |ips|); }
      var written := WriteAll(writeOk);
      if !written {
        return Err(Transport), 0;
      }
      r, left := ReceiveAll(first, |ips|, |out.data|);
    }

    /** The receiving loop: every ACK must belong to the batch exactly once. */
    method ReceiveAll(first: u64, n: nat, tx: nat) returns (r: Result<BatchReply, ClientError>, left: u64)
      requires n <= 64
      modifies this`inbuf, this`incoming
      ensures r.Ok? <==> first + n <= TWO_64 && AllAcknowledged(old(incoming), n, streamId, first)
      ensures
        r.Ok? ==>
          var (answers, rest) := ReadAnswers(old(incoming), n, streamId).value;
          && left == 0 && incoming == rest
          && r.value == BatchReply(BlockedCount(answers), tx, |old(incoming)| - |rest|)
      ensures r.Err? ==> exists k :: 0 <= k < n && StopsAt(old(incoming), k, streamId, first, n, r.error)
    {
      hide TakeFrame, Judge, Accepted, Outstanding, Expected, Bit;
      ghost var input := incoming;
      var blocked, rx := 0, 0;
      var pending: u64 := InitialMask(n);
      ghost var answers: seq<Answer> := [];
      InitiallyOutstanding(n, first);
      NothingAccepted(first, n);
      assert Ids(answers) == [];
      for k := 0 to n
        invariant ReadAnswers(input, k, streamId) == Some((answers, incoming)) && |answers| == k
        invariant Accepted(Ids(answers), first, n) && Outstanding(pending, n, first, Ids(answers))
        invariant blocked == BlockedCount(answers) && rx == |input| - |incoming|
      {
        var ack := ReadAck();
        if ack.Err? {
          assert StopsAt(input, k, streamId, first, n, ack.error);
          RejectedStaysRejected(input, k + 1, n, streamId, first);
          return Err(ack.error), pending;
        }
        rx := rx + (4 + |inbuf|);
        var frameId := ack.value.frame;
        assert Ids(answers + [ack.value]) == Ids(answers) + [frameId];
        NextAccepted(pending, n, first, Ids(answers), frameId);
        assert !Expected(pending, n, first, frameId) ==>
          StopsAt(input, k, streamId, first, n, UnexpectedAck(frameId));
        answers := answers + [ack.value];
        if !Expected(pending, n, first, frameId) {
          RejectedStaysRejected(input, k + 1, n, streamId, first);
          return Err(UnexpectedAck(frameId)), pending;
        }
        pending := And(pending, Not64(Shl(1, frameId - first)));
        blocked := blocked + (if ack.value.blocked then 1 else 0);
        assert answers[..k] + [answers[k]] == answers;
      }
      AcceptedIsPermutation(Ids(answers), first, n);
      NoneLeft(pending, n, first, Ids(answers));
      return Ok(BatchReply(blocked, tx, rx)), pending;
    }

    /** One NOTIFY per address, back to back. */
    method SendAll(ips: seq<Ip>)
      requires out.data == []
      modifies this`nextFrameId, this`payload, this`used, out
      ensures nextFrameId == FrameId(old(nextFrameId), |ips|)
      ensures used == old(used) + SentIds(old(nextFrameId), |ips|)
      ensures out.data == Notifications(encode, streamId, old(nextFrameId), ips)
    {
      hide Body, Frame, FrameId;
      ghost var first := nextFrameId;
      NextFrameId(first, 0);
      for i := 0 to |ips|
        invariant nextFrameId == FrameId(first, i)
        invariant used == old(used) + SentIds(first, i)
        invariant out.data == Notifications(encode, streamId, first, ips[..i])
      {
        var frameId := nextFrameId;
        NextFrameId(first, i);
        nextFrameId := (nextFrameId + 1) % TWO_64;
        WriteNotify(frameId, ips[i]);
        assert SentIds(first, i + 1) == SentIds(first, i) + [frameId];
        assert ips[..i + 1][..i] == ips[..i];
      }
      assert ips[..|ips|] == ips;
    }
  }

  /**
   * After any calls on a connection two of its frames share an identifier only if at least 2^64 - 1 others
   * lie between them.
   */
  lemma IdsNotReused(connection: Connection, i: nat, j: nat)
    requires connection.Numbered() && i < j < |connection.used| && j - i < TWO_64
    ensures connection.used[i] != connection.used[j]
  {
    assert connection.used[i] == FrameId(1, i) && connection.used[j] == FrameId(1, j);
  }

  // ----- one turn of the batch loop -----

  /** The three filters on an acknowledged identifier. */
  predicate Expected(pending: u64, n: nat, first: u64, frameId: u64) {
    && frameId >= first
    && frameId - first < n
    && And(pending, Shl(1, frameId - first)) != 0
  }

  lemma NotTheOne(frame: u64, sent: u64)
    requires frame != sent
    ensures !Accepted(Ids([]) + [frame], sent, 1)
  {
    assert frame in Ids([]) + [frame];
  }

  lemma NothingAccepted(first: u64, n: nat)
    ensures Accepted([], first, n)
  {}

  lemma NextAccepted(pending: u64, n: nat, first: u64, ids: seq<u64>, frameId: u64)
    requires n <= 64 && Accepted(ids, first, n) && Outstanding(pending, n, first, ids)
    ensures Accepted(ids + [frameId], first, n) <==> Expected(pending, n, first, frameId)
    ensures
      Expected(pending, n, first, frameId) ==>
        && first <= frameId && Shl(1, frameId - first) < TWO_64
        && And(pending, Not64(Shl(1, frameId - first))) < TWO_64
        && Outstanding(And(pending, Not64(Shl(1, frameId - first))), n, first, ids + [frameId])
  {
    var more := ids + [frameId];
    assert more[|ids|] == frameId && forall i :: 0 <= i < |ids| ==> more[i] == ids[i];
    if first <= frameId < first + n {
      TestBit(pending, frameId - first);
      ClearBit(pending, frameId - first);
    }
    if Accepted(more, first, n) {
      assert frameId in more;
      assert frameId !in ids;
    }
  }

  lemma NoneLeft(pending: u64, n: nat, first: u64, ids: seq<u64>)
    requires |ids| == n && Accepted(ids, first, n) && Outstanding(pending, n, first, ids)
    ensures pending == 0
  {
    DistinctSize(ids);
    var all := set id: nat | id in ids;
    SubsetEqual(all, Interval(first, n));
    forall i: nat ensures Bit(pending, i) == Bit(0, i) {
      ZeroBit(i);
      if i < n {
        assert first + i in all;
      }
    }
    SameBits(pending, 0);
  }
}
