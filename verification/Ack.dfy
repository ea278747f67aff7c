/** Validation of an AGENT-ACK (benches/spoe/client.rs, `decode_ack`). */
module Ack {
  import opened Bits
  import opened Wrappers
  import opened Spop

  datatype AckError =
    | Truncated
    | NotAck(kind: byte)
    | BadFlags(flags: u32)
    | TruncatedHeader
    | WrongStream(stream: u64)
    | NoAction
    | WrongAction
    | NotBoolean(value: byte)

  /** What `decode_ack` answers, as a function of the body. */
  function Judge(body: seq<byte>, streamId: u64, action: seq<byte>): Result<(u64, bool), AckError> {
    if |body| < MIN_FRAME_SIZE then Err(Truncated)
    else if body[0] != FRAME_AGENT_ACK then Err(NotAck(body[0]))
    else if FromBigEndian(body[1..5]) != FLAG_FIN then Err(BadFlags(FromBigEndian(body[1..5])))
    else
      match Identifiers(body)
      case None => Err(TruncatedHeader)
      case Some((stream, frame, pos)) =>
        if stream != streamId then Err(WrongStream(stream))
        else if pos >= |body| then Err(NoAction)
        else if body[pos..|body| - 1] != action then Err(WrongAction)
        else if body[|body| - 1] == BOOLEAN_FALSE then Ok((frame, false))
        else if body[|body| - 1] == BOOLEAN_TRUE then Ok((frame, true))
        else Err(NotBoolean(body[|body| - 1]))
  }

  /** Stream and frame identifier as the decoder reads them, and where they end. */
  function Identifiers(body: seq<byte>): Option<(u64, u64, nat)>
    requires |body| >= MIN_FRAME_SIZE
  {
    WrappedMeaning(body, 5);
    match Wrapped(body, 5)
    case None => None
    case Some((stream, next)) =>
      match Wrapped(body, next)
      case None => None
      case Some((frame, pos)) => Some((stream, frame, pos))
  }

  method DecodeAck(body: seq<byte>, streamId: u64, action: seq<byte>) returns (r: Result<(u64, bool), AckError>)
    ensures r == Judge(body, streamId, action)
  {
    if |body| < MIN_FRAME_SIZE {
      return Err(Truncated);
    }
    if body[0] != FRAME_AGENT_ACK {
      return Err(NotAck(body[0]));
    }
    var flags := FromBigEndian(body[1..5]);
    if flags != FLAG_FIN {
      return Err(BadFlags(flags));
    }
    var ackedStream, pos := GetVarint(body, 5);
    var frameId, end := GetVarint(body, pos);
    if ackedStream.None? || frameId.None? {
      return Err(TruncatedHeader);
    }
    if ackedStream.value != streamId {
      return Err(WrongStream(ackedStream.value));
    }
    var actions := body[end..];
    if actions == [] {
      return Err(NoAction);
    }
    var value := actions[|actions| - 1];
    assert actions[..|actions| - 1] == body[end..|body| - 1];
    if actions[..|actions| - 1] != action {
      return Err(WrongAction);
    }
    if value == BOOLEAN_FALSE {
      return Ok((frameId.value, false));
    } else if value == BOOLEAN_TRUE {
      return Ok((frameId.value, true));
    }
    return Err(NotBoolean(value));
  }

  function BooleanByte(b: bool): byte {
    if b then BOOLEAN_TRUE else BOOLEAN_FALSE
  }

  /** The one acceptable ACK for a frame. */
  function AckBody(streamId: u64, frameId: u64, action: seq<byte>, blocked: bool): seq<byte> {
    Body(FRAME_AGENT_ACK, streamId, frameId, action + [BooleanByte(blocked)])
  }

  /** Both identifiers of the body, in unbounded arithmetic, have 64 bits. */
  ghost predicate InRange(body: seq<byte>) {
    && |body| >= 5
    && Decoded(body, 5).Some?
    && Decoded(body, 5).value.0 < TWO_64
    && var next := Decoded(body, 5).value.1;
    && Decoded(body, next).Some?
    && Decoded(body, next).value.0 < TWO_64
  }

  /**
   * `decode_ack` accepts a body whose identifiers are in range iff it is byte for byte the ACK of
   * that stream and frame with that answer.
   */
  lemma AcceptsExactly(body: seq<byte>, streamId: u64, frameId: u64, action: seq<byte>, blocked: bool)
    ensures
      Judge(body, streamId, action) == Ok((frameId, blocked)) && InRange(body) <==>
      body == AckBody(streamId, frameId, action, blocked)
  {
    if body == AckBody(streamId, frameId, action, blocked) {
      AckAccepted(streamId, frameId, action, blocked);
    }
    if Judge(body, streamId, action) == Ok((frameId, blocked)) && InRange(body) {
      AcceptedIsAck(body, streamId, frameId, action, blocked);
    }
  }

  lemma AckAccepted(streamId: u64, frameId: u64, action: seq<byte>, blocked: bool)
    ensures
      var body := AckBody(streamId, frameId, action, blocked);
      Judge(body, streamId, action) == Ok((frameId, blocked)) && InRange(body)
  {
    hide Varint, Decoded, Wrapped;
    var body := AckBody(streamId, frameId, action, blocked);
    var head := [FRAME_AGENT_ACK] + BigEndian(FLAG_FIN);
    var s, f, last := Varint(streamId), Varint(frameId), action + [BooleanByte(blocked)];
    assert body == head + s + (f + last) == (head + s) + f + last;
    assert body[1..5] == BigEndian(FLAG_FIN);
    BigEndianRoundTrip(FLAG_FIN);
    VarintLength(streamId);
    VarintLength(frameId);
    VarintRoundTrip(head, streamId, f + last);
    VarintRoundTrip(head + s, frameId, last);
    PutThenGet(head, streamId, f + last);
    PutThenGet(head + s, frameId, last);
    var pos := |head + s + f|;
    assert Identifiers(body) == Some((streamId, frameId, pos));
    assert body[pos..|body| - 1] == action;
  }

  lemma AcceptedIsAck(body: seq<byte>, streamId: u64, frameId: u64, action: seq<byte>, blocked: bool)
    requires Judge(body, streamId, action) == Ok((frameId, blocked)) && InRange(body)
    ensures body == AckBody(streamId, frameId, action, blocked)
  {
    hide Varint, Decoded, Wrapped;
    var (stream, next) := Decoded(body, 5).value;
    var (frame, pos) := Decoded(body, next).value;
    WrappedExact(body, 5);
    WrappedExact(body, next);
    VarintCanonical(body, 5);
    VarintCanonical(body, next);
    BigEndianInjective(body[1..5]);
    assert body ==
      [body[0]] + body[1..5] + body[5..next] + body[next..pos] + body[pos..|body| - 1] + [body[|body| - 1]];
    assert AckBody(streamId, frameId, action, blocked) ==
      [FRAME_AGENT_ACK] + BigEndian(FLAG_FIN) + Varint(streamId) + Varint(frameId) + action + [BooleanByte(blocked)];
  }

  /**
   * Whatever follows type, flags and identifiers: the error is that of the first part that is wrong, in the
   * order type, flags, stream, action and value.
   */
  lemma FirstWrongPart(
    kind: byte, flags: u32, stream: u64, frame: u64, rest: seq<byte>, streamId: u64, action: seq<byte>)
    ensures
      Judge([kind] + BigEndian(flags) + Varint(stream) + Varint(frame) + rest, streamId, action) ==
      if kind != 0x67 then Err(NotAck(kind))
      else if flags != 1 then Err(BadFlags(flags))
      else if stream != streamId then Err(WrongStream(stream))
      else if rest == [] then Err(NoAction)
      else if rest[..|rest| - 1] != action then Err(WrongAction)
      else if rest[|rest| - 1] == 0x01 then Ok((frame, false))
      else if rest[|rest| - 1] == 0x11 then Ok((frame, true))
      else Err(NotBoolean(rest[|rest| - 1]))
  {
    hide Varint, Decoded, Wrapped, BigEndian, FromBigEndian;
    var head := [kind] + BigEndian(flags);
    var s, f := Varint(stream), Varint(frame);
    var body := head + s + f + rest;
    assert body == head + s + (f + rest) == (head + s) + f + rest;
    assert body[1..5] == BigEndian(flags);
    BigEndianRoundTrip(flags);
    VarintLength(stream);
    VarintLength(frame);
    VarintRoundTrip(head, stream, f + rest);
    VarintRoundTrip(head + s, frame, rest);
    PutThenGet(head, stream, f + rest);
    PutThenGet(head + s, frame, rest);
    assert Identifiers(body) == Some((stream, frame, |head + s + f|));
    assert rest != [] ==> body[|head + s + f|..|body| - 1] == rest[..|rest| - 1];
  }

  /** A body too short for a frame, or cut within its identifiers. */
  lemma CutBody(body: seq<byte>, streamId: u64, action: seq<byte>)
    ensures |body| < 7 ==> Judge(body, streamId, action) == Err(Truncated)
    ensures
      && |body| >= 7 && body[0] == 0x67 && body[1..5] == BigEndian(1)
      && (Decoded(body, 5).None? || Decoded(body, Decoded(body, 5).value.1).None?) ==>
        Judge(body, streamId, action) == Err(TruncatedHeader)
  {
    BigEndianRoundTrip(1);
    if |body| >= 7 {
      WrappedMeaning(body, 5);
      if Decoded(body, 5).Some? {
        WrappedMeaning(body, Decoded(body, 5).value.1);
      }
    }
    hide Decoded, Wrapped, BigEndian, FromBigEndian;
  }

  /** The accepted body determines its answer: no frame can be acknowledged both ways. */
  lemma AckInjective(
    streamId: u64, frameId: u64, action: seq<byte>, blocked: bool, frameId': u64, blocked': bool)
    requires AckBody(streamId, frameId, action, blocked) == AckBody(streamId, frameId', action, blocked')
    ensures frameId == frameId' && blocked == blocked'
  {
    AckAccepted(streamId, frameId, action, blocked);
    AckAccepted(streamId, frameId', action, blocked');
  }

  /**
   * Without the range condition the equivalence fails: a body that spells the stream identifier 2^64
   * is accepted as an ACK of stream 0, although it is not the ACK of that stream.
   */
  lemma AliasedStreamAccepted(frameId: u64, action: seq<byte>, blocked: bool)
    ensures
      var body := [FRAME_AGENT_ACK] + BigEndian(FLAG_FIN) + ALIAS + Varint(frameId) + action + [BooleanByte(blocked)];
      && Judge(body, 0, action) == Ok((frameId, blocked))
      && body != AckBody(0, frameId, action, blocked)
  {
    hide Varint, Decoded, Wrapped;
    var head := [FRAME_AGENT_ACK] + BigEndian(FLAG_FIN);
    var f, last := Varint(frameId), action + [BooleanByte(blocked)];
    var body := head + ALIAS + f + action + [BooleanByte(blocked)];
    assert body == head + ALIAS + (f + last) == (head + ALIAS) + f + last;
    AliasIsEncoding();
    VarintRoundTrip(head, TWO_64, f + last);
    WrappedMeaning(body, 5);
    VarintLength(frameId);
    PutThenGet(head + ALIAS, frameId, last);
    assert body[1..5] == BigEndian(FLAG_FIN);
    BigEndianRoundTrip(FLAG_FIN);
    var pos := |head + ALIAS + f|;
    assert Identifiers(body) == Some((0, frameId, pos));
    assert body[pos..|body| - 1] == action;
    if body == AckBody(0, frameId, action, blocked) {
      AckAccepted(0, frameId, action, blocked);
    }
  }

  lemma AliasIsEncoding()
    ensures ALIAS == Varint(TWO_64)
  {
    AliasReadAsZero();
    VarintCanonical(ALIAS, 0);
    assert ALIAS[0..10] == ALIAS;
  }
}
