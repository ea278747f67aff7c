/** SPOP wire format of the benchmark client (benches/spoe/client.rs; HAProxy doc/SPOE.txt, sections 3.1 and 3.2). */
module Spop {
  import opened Bits
  import opened Wrappers

  const FRAME_AGENT_ACK: byte := 0x67
  const FLAG_FIN: u32 := 1
  const MIN_FRAME_SIZE := 7
  const MAX_FRAME_SIZE := 16_384
  const ACTION_SET_VAR: byte := 0x01
  const SCOPE_SESSION: byte := 0x01
  const BOOLEAN_FALSE: byte := 0x01
  const BOOLEAN_TRUE: byte := 0x11

  // ----- variable-length integers -----

  /** Encoding of `n`: one byte below 240, else four bits and then groups of seven. */
  function Varint(n: nat): seq<byte> {
    if n < 240 then [n] else [240 + n % 16] + Groups((n - 240) / 16)
  }

  function Groups(n: nat): seq<byte> {
    if n < 128 then [n] else [128 + n % 128] + Groups((n - 128) / 128)
  }

  /** A byte buffer that frames are appended to. */
  class Buffer {
    var data: seq<byte>

    constructor ()
      ensures data == []
    {
      data := [];
    }

    method Push(b: byte)
      modifies this
      ensures data == old(data) + [b]
    {
      data := data + [b];
    }

    method Extend(bytes: seq<byte>)
      modifies this
      ensures data == old(data) + bytes
    {
      data := data + bytes;
    }

    /** `put_varint` */
    method PutVarint(value: u64)
      modifies this
      ensures data == old(data) + Varint(value)
    {
      hide Or, Shr, Varint, Groups;
      var n: nat := value;
      FirstByte(n);
      if n < 240 {
        Push(n);
        return;
      }
      Push(Or(n % 256, 0xF0));
      n := Shr(n - 240, 4);
      assert data + Groups(n) == old(data) + Varint(value);
      while n >= 128
        invariant data + Groups(n) == old(data) + Varint(value)
        decreases n
      {
        NextByte(n);
        ghost var before, rest := data, Groups(n);
        Push(Or(n % 256, 0x80));
        n := Shr(n - 128, 7);
        assert data + Groups(n) == before + rest;
      }
      NextByte(n);
      Push(n);
    }

    /** `put_string` */
    method PutString(text: seq<byte>)
      requires |text| < TWO_64
      modifies this
      ensures data == old(data) + Varint(|text|) + text
    {
      PutVarint(|text|);
      Extend(text);
    }

    /** `put_frame`: the length is written last, over four zero bytes. */
    method PutFrame(kind: byte, streamId: u64, frameId: u64, payload: seq<byte>)
      modifies this
      ensures
        var body := Body(kind, streamId, frameId, payload);
        data == old(data) + BigEndian(|body| % TWO_32) + body
    {
      hide Varint, BigEndian;
      var start := |data|;
      Extend([0, 0, 0, 0]);
      Push(kind);
      Extend(BigEndian(FLAG_FIN));
      PutVarint(streamId);
      PutVarint(frameId);
      Extend(payload);
      ghost var body := Body(kind, streamId, frameId, payload);
      assert data == old(data) + [0, 0, 0, 0] + body;
      var length: u32 := (|data| - start - 4) % TWO_32;
      data := data[..start] + BigEndian(length) + data[start + 4..];
    }
  }

  /** Setting the four high bits of a byte. */
  lemma OrNibble(x: byte)
    ensures Or(x, 0xF0) == 240 + x % 16
  {
    ShiftSteps(x);
    OrOnes(Shr(x, 4), 4);
    OrShifted(x, 15, 4);
    assert Shl(15, 4) == 0xF0;
  }

  /** Setting the high bit of a byte. */
  lemma OrTop(x: byte)
    ensures Or(x, 0x80) == 128 + x % 128
  {
    ShiftSteps(x);
    OrOnes(Shr(x, 7), 1);
    OrShifted(x, 1, 7);
    assert Shl(1, 7) == 0x80;
  }

  /** The first byte `put_varint` pushes, and the number it goes on with. */
  lemma FirstByte(n: nat)
    ensures n < 240 ==> Varint(n) == [n]
    ensures n >= 240 ==>
      && Or(n % 256, 0xF0) < 256
      && Varint(n) == [Or(n % 256, 0xF0)] + Groups(Shr(n - 240, 4))
  {
    hide Or, Shr, Low;
    if n >= 240 {
      OrNibble(n % 256);
      ByteRemainders(n);
      ShiftSteps(n - 240);
    }
  }

  /** One turn of its loop. */
  lemma NextByte(n: nat)
    ensures n < 128 ==> Groups(n) == [n]
    ensures n >= 128 ==>
      && Or(n % 256, 0x80) < 256
      && Groups(n) == [Or(n % 256, 0x80)] + Groups(Shr(n - 128, 7))
      && Shr(n - 128, 7) < n
  {
    hide Or, Shr, Low;
    if n >= 128 {
      OrTop(n % 256);
      ByteRemainders(n);
      ShiftSteps(n - 128);
    }
  }

  lemma {:induction false} OrOnes(x: nat, w: nat)
    requires x < Pow2(w)
    ensures Or(x, Pow2(w) - 1) == Pow2(w) - 1
  {
    if w > 0 && x > 0 { OrOnes(x / 2, w - 1); }
  }

  /** The `k` low bits of `x`. */
  function Low(x: nat, k: nat): nat {
    if k == 0 then 0 else x % 2 + 2 * Low(x / 2, k - 1)
  }

  lemma {:induction false} ShlPositive(c: nat, k: nat)
    requires c > 0
    ensures Shl(c, k) > 0
  {
    if k > 0 { ShlPositive(c, k - 1); }
  }

  /** Or-ing with a shifted value leaves the low bits alone. */
  lemma {:induction false} OrShifted(x: nat, c: nat, k: nat)
    requires c > 0
    ensures Or(x, Shl(c, k)) == Shl(Or(Shr(x, k), c), k) + Low(x, k)
  {
    if k > 0 {
      OrShifted(x / 2, c, k - 1);
      ShlPositive(c, k - 1);
    }
  }

  lemma {:induction false} LowSplit(n: nat, j: nat, k: nat)
    ensures Low(n, j + k) == Low(n, j) + Shl(Low(Shr(n, j), k), j)
  {
    if j > 0 { LowSplit(n / 2, j - 1, k); }
  }

  /** The encoder's shifts and truncations are divisions and remainders. */
  lemma ShiftSteps(n: nat)
    ensures Shr(n, 4) == n / 16 && Shr(n, 7) == n / 128
    ensures Low(n, 4) == n % 16 && Low(n, 7) == n % 128
  {
    FourSteps(n);
    ThreeSteps(n / 16);
    ShrShr(n, 4, 3);
    LowSplit(n, 4, 3);
    ShlFour(n / 16 % 8);
    QuotientUnique(n, 128, n / 16 / 8, n % 16 + 16 * (n / 16 % 8));
  }

  lemma ThreeSteps(n: nat)
    ensures Shr(n, 3) == n / 8 && Low(n, 3) == n % 8
  {
    assert Shr(n, 3) == Shr(n / 2, 2) == Shr(n / 2 / 2, 1) == n / 2 / 2 / 2;
    assert Low(n / 2 / 2, 1) == n / 2 / 2 % 2 && Low(n / 2, 2) == n / 2 % 2 + 2 * (n / 2 / 2 % 2);
  }

  lemma FourSteps(n: nat)
    ensures Shr(n, 4) == n / 16 && Low(n, 4) == n % 16
  {
    ThreeSteps(n / 2);
    assert Shr(n, 4) == Shr(n / 2, 3) && Low(n, 4) == n % 2 + 2 * Low(n / 2, 3);
  }

  lemma ByteRemainders(n: nat)
    ensures n % 256 % 16 == n % 16 && n % 256 % 128 == n % 128
  {
    var q, r := n / 256, n % 256;
    QuotientUnique(n, 16, 16 * q + r / 16, r % 16);
    QuotientUnique(n, 128, 2 * q + r / 128, r % 128);
  }

  // ----- decoding -----

  /** The number a byte string says, in unbounded arithmetic, and where its encoding ends. */
  function Decoded(buf: seq<byte>, pos: nat): (r: Option<(nat, nat)>)
    requires pos <= |buf|
    ensures r.Some? ==> pos < r.value.1 <= |buf|
  {
    if pos == |buf| then None
    else if buf[pos] < 240 then Some((buf[pos], pos + 1))
    else
      match DecodedGroups(buf, pos + 1)
      case Some((m, end)) => Some((buf[pos] + 16 * m, end))
      case None => None
  }

  function DecodedGroups(buf: seq<byte>, pos: nat): (r: Option<(nat, nat)>)
    requires pos <= |buf|
    ensures r.Some? ==> pos < r.value.1 <= |buf|
    decreases |buf| - pos
  {
    if pos == |buf| then None
    else if buf[pos] < 128 then Some((buf[pos], pos + 1))
    else
      match DecodedGroups(buf, pos + 1)
      case Some((m, end)) => Some((buf[pos] + 128 * m, end))
      case None => None
  }

  /**
   * The number `get_varint` returns: every addition wraps at 64 bits and every shift is taken modulo
   * 64, as in a build without overflow checks.
   */
  function Wrapped(buf: seq<byte>, pos: nat): (r: Option<(u64, nat)>)
    requires pos <= |buf|
  {
    if pos == |buf| then None
    else if buf[pos] < 240 then Some((buf[pos], pos + 1))
    else WrappedGroups(buf, pos + 1, buf[pos], 4)
  }

  function WrappedGroups(buf: seq<byte>, pos: nat, value: u64, shift: nat): (r: Option<(u64, nat)>)
    requires pos <= |buf|
    decreases |buf| - pos
  {
    if pos == |buf| then None
    else
      var value := (value + Shl(buf[pos], shift % 64) % TWO_64) % TWO_64;
      if buf[pos] < 128 then Some((value, pos + 1)) else WrappedGroups(buf, pos + 1, value, shift + 7)
  }

  /** `get_varint`; `end` is the final value of the caller's `pos`. */
  method GetVarint(buf: seq<byte>, pos: nat) returns (r: Option<u64>, end: nat)
    requires pos <= |buf|
    ensures pos <= end <= |buf|
    ensures
      match Wrapped(buf, pos)
      case Some((value, next)) => r == Some(value) && end == next
      case None => r == None && end == |buf|
  {
    end := pos;
    if end == |buf| {
      return None, end;
    }
    var first := buf[end];
    end := end + 1;
    if first < 240 {
      return Some(first), end;
    }
    var value: u64 := first;
    var shift := 4;
    while true
      invariant pos < end <= |buf|
      invariant Wrapped(buf, pos) == WrappedGroups(buf, end, value, shift)
      decreases |buf| - end
    {
      if end == |buf| {
        return None, end;
      }
      var b := buf[end];
      end := end + 1;
      value := (value + Shl(b, shift % 64) % TWO_64) % TWO_64;
      shift := shift + 7;
      if b < 128 {
        return Some(value), end;
      }
    }
  }

  // ----- the code is a bijection -----

  lemma {:induction false} GroupsRoundTrip(before: seq<byte>, n: nat, rest: seq<byte>)
    ensures
      DecodedGroups(before + Groups(n) + rest, |before|) == Some((n, |before| + |Groups(n)|))
    decreases n
  {
    var buf := before + Groups(n) + rest;
    assert buf[|before|] == Groups(n)[0];
    if n >= 128 {
      var m := (n - 128) / 128;
      var head := [128 + n % 128];
      assert buf == (before + head) + Groups(m) + rest;
      GroupsRoundTrip(before + head, m, rest);
    }
  }

  /** Decoding an encoding, wherever it stands, gives the number and consumes exactly the encoding. */
  lemma VarintRoundTrip(before: seq<byte>, n: nat, rest: seq<byte>)
    ensures Decoded(before + Varint(n) + rest, |before|) == Some((n, |before| + |Varint(n)|))
  {
    hide Groups, DecodedGroups;
    var buf := before + Varint(n) + rest;
    assert buf[|before|] == Varint(n)[0];
    if n >= 240 {
      var head := [240 + n % 16];
      assert buf == (before + head) + Groups((n - 240) / 16) + rest;
      GroupsRoundTrip(before + head, (n - 240) / 16, rest);
    }
  }

  lemma {:induction false} GroupsCanonical(buf: seq<byte>, pos: nat)
    requires pos <= |buf| && DecodedGroups(buf, pos).Some?
    ensures
      var (n, end) := DecodedGroups(buf, pos).value;
      buf[pos..end] == Groups(n)
    decreases |buf| - pos
  {
    if buf[pos] >= 128 {
      GroupsCanonical(buf, pos + 1);
      var (m, end) := DecodedGroups(buf, pos + 1).value;
      var n := buf[pos] + 128 * m;
      assert n % 128 == buf[pos] - 128 && (n - 128) / 128 == m;
      assert buf[pos..end] == [buf[pos]] + buf[pos + 1..end];
    }
  }

  /** Whatever decodes to `n` is the encoding of `n`: there is no second spelling. */
  lemma VarintCanonical(buf: seq<byte>, pos: nat)
    requires pos <= |buf| && Decoded(buf, pos).Some?
    ensures
      var (n, end) := Decoded(buf, pos).value;
      buf[pos..end] == Varint(n)
  {
    if buf[pos] >= 240 {
      GroupsCanonical(buf, pos + 1);
      var (m, end) := DecodedGroups(buf, pos + 1).value;
      var n := buf[pos] + 16 * m;
      assert n % 16 == buf[pos] - 240 && (n - 240) / 16 == m;
      assert buf[pos..end] == [buf[pos]] + buf[pos + 1..end];
    }
  }

  /** No encoding begins another one. */
  lemma VarintPrefixFree(m: nat, n: nat)
    requires Varint(m) <= Varint(n)
    ensures m == n
  {
    var rest := Varint(n)[|Varint(m)|..];
    assert [] + Varint(m) + rest == Varint(n) == [] + Varint(n) + [];
    VarintRoundTrip([], m, rest);
    VarintRoundTrip([], n, []);
  }

  lemma {:induction false} GroupsLength(n: nat, k: nat)
    requires k > 0 && n < Pow2(7 * k)
    ensures |Groups(n)| <= k
    decreases k
  {
    Pow2Sum(7, 7 * (k - 1));
    if n >= 128 {
      GroupsLength((n - 128) / 128, k - 1);
    }
  }

  /** The ranges of the standard's table: one byte, then two, then three. */
  lemma VarintRanges(n: nat)
    ensures n < 240 ==> Varint(n) == [n]
    ensures 240 <= n < 2288 ==> Varint(n) == [240 + (n - 240) % 16, (n - 240) / 16]
    ensures
      2288 <= n < 264_432 ==>
        Varint(n) == [240 + (n - 2288) % 16, 128 + (n - 2288) / 16 % 128, (n - 2288) / 2048]
  {
    if 240 <= n < 264_432 {
      var m := (n - 240) / 16;
      assert m >= 128 ==> Groups(m) == [128 + m % 128] + [(m - 128) / 128];
    }
  }

  /** A 64-bit number takes at most ten bytes. */
  lemma VarintLength(n: u64)
    ensures 1 <= |Varint(n)| <= 10
  {
    Pow2Words();
    Pow2Sum(60, 4);
    if n >= 240 {
      Pow2Monotonic(60, 63);
      GroupsLength((n - 240) / 16, 9);
    }
  }

  // ----- wrap-around -----

  lemma {:induction false} ShlValue(b: nat, k: nat)
    ensures Shl(b, k) == b * Pow2(k)
  {
    if k > 0 {
      ShlValue(b, k - 1);
      assert b * Pow2(k) == 2 * (b * Pow2(k - 1));
    }
  }

  lemma {:induction false} ShlAdd(a: nat, b: nat, k: nat)
    ensures Shl(a + b, k) == Shl(a, k) + Shl(b, k)
  {
    if k > 0 { ShlAdd(a, b, k - 1); }
  }

  lemma {:induction false} ShlShl(m: nat, j: nat, k: nat)
    ensures Shl(Shl(m, j), k) == Shl(m, k + j)
  {
    if k > 0 { ShlShl(m, j, k - 1); }
  }

  lemma ShlSplit(b: nat, m: nat, k: nat)
    ensures Shl(b + 128 * m, k) == Shl(b, k) + Shl(m, k + 7)
  {
    assert Shl(m, 7) == 128 * m by {
      ShlValue(m, 7);
      assert Pow2(7) == 128;
    }
    hide Shl;
    ShlAdd(b, 128 * m, k);
    ShlShl(m, 7, k);
  }

  lemma ModAdds(value: nat, b: nat, m: nat)
    ensures ((value + b % TWO_64) % TWO_64 + m) % TWO_64 == (value + (b + m)) % TWO_64
  {}

  /** While the shifts stay below 64 the loop computes the number modulo 2^64. */
  lemma {:induction false} WrappedGroupsModulo(buf: seq<byte>, pos: nat, value: u64, shift: nat)
    requires pos <= |buf| && DecodedGroups(buf, pos).Some?
    requires shift + 7 * (DecodedGroups(buf, pos).value.1 - pos - 1) < 64
    ensures
      var (m, end) := DecodedGroups(buf, pos).value;
      WrappedGroups(buf, pos, value, shift) == Some(((value + Shl(m, shift)) % TWO_64, end))
    decreases |buf| - pos
  {
    hide Shl;
    var b := buf[pos];
    if b < 128 {
      ModAdds(value, Shl(b, shift), 0);
    } else {
      var (m, end) := DecodedGroups(buf, pos + 1).value;
      var next := (value + Shl(b, shift) % TWO_64) % TWO_64;
      ShlSplit(b, m, shift);
      ModAdds(value, Shl(b, shift), Shl(m, shift + 7));
      WrappedGroupsModulo(buf, pos + 1, next, shift + 7);
    }
  }

  lemma {:induction false} WrappedGroupsEnd(buf: seq<byte>, pos: nat, value: u64, shift: nat)
    requires pos <= |buf|
    ensures WrappedGroups(buf, pos, value, shift).Some? <==> DecodedGroups(buf, pos).Some?
    ensures DecodedGroups(buf, pos).Some? ==>
      WrappedGroups(buf, pos, value, shift).value.1 == DecodedGroups(buf, pos).value.1
    decreases |buf| - pos
  {
    if pos < |buf| && buf[pos] >= 128 {
      WrappedGroupsEnd(buf, pos + 1, (value + Shl(buf[pos], shift % 64) % TWO_64) % TWO_64, shift + 7);
    }
  }

  lemma ShlFour(m: nat)
    ensures Shl(m, 4) == 16 * m
  {
    assert Shl(m, 4) == 2 * Shl(m, 3) && Shl(m, 3) == 2 * Shl(m, 2) && Shl(m, 2) == 2 * Shl(m, 1);
  }

  /**
   * `get_varint` fails exactly when the bytes run out and always stops where the encoding ends. Up to
   * ten bytes, the longest encoding of a 64-bit number, it reads the encoded number modulo 2^64.
   */
  lemma WrappedMeaning(buf: seq<byte>, pos: nat)
    requires pos <= |buf|
    ensures Wrapped(buf, pos).Some? <==> Decoded(buf, pos).Some?
    ensures
      Decoded(buf, pos).Some? ==>
      var (n, end) := Decoded(buf, pos).value;
      && Wrapped(buf, pos).value.1 == end
      && (end <= pos + 10 ==> Wrapped(buf, pos).value.0 == n % TWO_64)
  {
    if pos < |buf| && buf[pos] >= 240 {
      WrappedGroupsEnd(buf, pos + 1, buf[pos], 4);
      if Decoded(buf, pos).Some? && Decoded(buf, pos).value.1 <= pos + 10 {
        ShlFour(DecodedGroups(buf, pos + 1).value.0);
        WrappedGroupsModulo(buf, pos + 1, buf[pos], 4);
      }
    }
  }

  /** Bytes that say a 64-bit number are read as that number. */
  lemma WrappedExact(buf: seq<byte>, pos: nat)
    requires pos <= |buf| && Decoded(buf, pos).Some? && Decoded(buf, pos).value.0 < TWO_64
    ensures Wrapped(buf, pos) == Decoded(buf, pos)
  {
    VarintCanonical(buf, pos);
    VarintLength(Decoded(buf, pos).value.0);
    WrappedMeaning(buf, pos);
  }

  // ----- without wrap-around -----

  /**
   * The decoder in exact arithmetic: it gives up on a shift of 64 or more, and when a shifted byte or a
   * sum does not fit into 64 bits.
   */
  function Exact(buf: seq<byte>, pos: nat): (r: Option<(u64, nat)>)
    requires pos <= |buf|
  {
    if pos == |buf| then None
    else if buf[pos] < 240 then Some((buf[pos], pos + 1))
    else ExactGroups(buf, pos + 1, buf[pos], 4)
  }

  function ExactGroups(buf: seq<byte>, pos: nat, value: u64, shift: nat): (r: Option<(u64, nat)>)
    requires pos <= |buf|
    decreases |buf| - pos
  {
    if pos == |buf| || shift >= 64 || value + Shl(buf[pos], shift) >= TWO_64 then None
    else
      var value := value + Shl(buf[pos], shift);
      if buf[pos] < 128 then Some((value, pos + 1)) else ExactGroups(buf, pos + 1, value, shift + 7)
  }

  lemma {:induction false} ShlMonotonic(m: nat, k: nat)
    ensures Shl(m, k) >= m * Pow2(k)
  {
    if k > 0 { ShlMonotonic(m, k - 1); }
  }

  /** A group that follows at a shift of 64 or more has more than 64 bits below it. */
  lemma LateGroup(b: nat, shift: nat)
    requires b >= 128 && shift + 7 >= 64
    ensures Shl(b, shift) >= TWO_64
  {
    Pow2Words();
    Pow2Monotonic(57, shift);
    Pow2Sum(57, 7);
    ShlMonotonic(b, shift);
    assert Pow2(7) == 128;
    assert b * Pow2(shift) >= 128 * Pow2(57) by {
      assert b * Pow2(shift) >= 128 * Pow2(shift);
    }
  }

  lemma {:induction false} ExactGroupsMeaning(buf: seq<byte>, pos: nat, value: u64, shift: nat)
    requires pos <= |buf| && shift < 64
    ensures
      match DecodedGroups(buf, pos)
      case None => ExactGroups(buf, pos, value, shift) == None
      case Some((m, end)) =>
        ExactGroups(buf, pos, value, shift) ==
        if value + Shl(m, shift) < TWO_64 then Some((value + Shl(m, shift), end)) else None
    decreases |buf| - pos
  {
    hide Shl;
    if pos < |buf| && buf[pos] >= 128 {
      var b := buf[pos];
      if DecodedGroups(buf, pos + 1).Some? {
        ShlSplit(b, DecodedGroups(buf, pos + 1).value.0, shift);
      }
      if shift + 7 < 64 {
        if value + Shl(b, shift) < TWO_64 {
          ExactGroupsMeaning(buf, pos + 1, value + Shl(b, shift), shift + 7);
        }
      } else {
        LateGroup(b, shift);
      }
    }
  }

  /**
   * Decoding stays below a shift of 64 and within 64 bits at every step if and only if the bytes encode a
   * 64-bit number.
   */
  lemma ExactIff(buf: seq<byte>, pos: nat)
    requires pos <= |buf|
    ensures
      Exact(buf, pos) ==
      if Decoded(buf, pos).Some? && Decoded(buf, pos).value.0 < TWO_64 then Decoded(buf, pos) else None
  {
    if pos < |buf| && buf[pos] >= 240 {
      ExactGroupsMeaning(buf, pos + 1, buf[pos], 4);
      if DecodedGroups(buf, pos + 1).Some? {
        ShlFour(DecodedGroups(buf, pos + 1).value.0);
      }
    }
  }

  /**
   * `get_varint` reads back what `put_varint` wrote; on the way no shift reaches 64, no bit is shifted out
   * and no addition wraps.
   */
  lemma PutThenGet(before: seq<byte>, n: u64, rest: seq<byte>)
    ensures Wrapped(before + Varint(n) + rest, |before|) == Some((n, |before| + |Varint(n)|))
    ensures Exact(before + Varint(n) + rest, |before|) == Some((n, |before| + |Varint(n)|))
  {
    VarintRoundTrip(before, n, rest);
    WrappedExact(before + Varint(n) + rest, |before|);
    ExactIff(before + Varint(n) + rest, |before|);
  }

  // ----- with overflow checks -----

  /** `Panics` where a build with overflow checks panics. */
  datatype Checked = Value(n: u64, end: nat) | RunsOut | Panics

  /**
   * `get_varint` in a build with overflow checks: a shift of 64 or more and a sum beyond 64 bits panic. The
   * shift operator does not check the bits it shifts out.
   */
  function CheckedRead(buf: seq<byte>, pos: nat): Checked
    requires pos <= |buf|
  {
    if pos == |buf| then RunsOut
    else if buf[pos] < 240 then Value(buf[pos], pos + 1)
    else CheckedGroups(buf, pos + 1, buf[pos], 4)
  }

  function CheckedGroups(buf: seq<byte>, pos: nat, value: u64, shift: nat): Checked
    requires pos <= |buf|
    decreases |buf| - pos
  {
    if pos == |buf| then RunsOut
    else if shift >= 64 || value + Shl(buf[pos], shift) % TWO_64 >= TWO_64 then Panics
    else
      var value := value + Shl(buf[pos], shift) % TWO_64;
      if buf[pos] < 128 then Value(value, pos + 1) else CheckedGroups(buf, pos + 1, value, shift + 7)
  }

  const TWO_60 := 0x1000_0000_0000_0000

  lemma TopBits(b: byte) returns (low: nat)
    ensures Shl(b, 60) == TWO_64 * (b / 16) + low && low == Shl(b, 60) % TWO_64 && low < TWO_64
  {
    Pow2Words();
    Pow2Sum(60, 4);
    assert Pow2(4) == 16;
    ShlValue(b, 60);
    hide Pow2, Shl;
    assert Pow2(60) == TWO_60;
    low := b % 16 * TWO_60;
    QuotientUnique(b * TWO_60, TWO_64, b / 16, low);
  }

  /** The group at shift 60, of which only the four low bits fit. */
  lemma TopGroup(value: u64, b: byte)
    ensures
      var low, total := value + Shl(b, 60) % TWO_64, value + Shl(b, 60);
      && (low < TWO_64 ==> low == total % TWO_64 && total / TWO_64 == b / 16)
      && (low >= TWO_64 ==> total / TWO_64 == b / 16 + 1)
  {
    hide Shl;
    var low := TopBits(b);
    if value + low < TWO_64 {
      QuotientUnique(value + Shl(b, 60), TWO_64, b / 16, value + low);
    } else {
      QuotientUnique(value + Shl(b, 60), TWO_64, b / 16 + 1, value + low - TWO_64);
    }
  }

  /** A group below shift 60 fits. */
  lemma LowGroup(value: nat, b: byte, shift: nat)
    requires shift <= 53 && value < Pow2(shift + 4)
    ensures value + Shl(b, shift) < Pow2(shift + 11) <= TWO_64
  {
    Pow2Words();
    Pow2Monotonic(shift + 11, 64);
    ShlBound(b, shift, 8);
    Pow2Monotonic(shift + 4, shift + 8);
    Pow2Monotonic(shift + 9, shift + 11);
    assert Pow2(shift + 9) == 2 * Pow2(shift + 8);
  }

  /** What reading `groups` groups of a number leads to when `left` more of them fit below shift 60. */
  ghost predicate ReadsAs(c: Checked, total: nat, end: nat, groups: nat, left: nat, last: byte) {
    && c == (if groups <= left || (groups == left + 1 && total / TWO_64 == last / 16) then Value(total % TWO_64, end)
             else Panics)
    && (groups <= left ==> total < TWO_64)
    && (groups == left + 1 ==> last / 16 <= total / TWO_64)
  }

  lemma CheckedTop(buf: seq<byte>, pos: nat, value: u64)
    requires pos <= |buf| && DecodedGroups(buf, pos).Some?
    ensures
      var (m, end) := DecodedGroups(buf, pos).value;
      ReadsAs(CheckedGroups(buf, pos, value, 60), value + Shl(m, 60), end, end - pos, 0, buf[end - 1])
  {
    hide Shl;
    TopGroup(value, buf[pos]);
  }

  /** One group below shift 60. */
  lemma CheckedLow(buf: seq<byte>, pos: nat, value: u64, shift: nat)
    requires pos < |buf| && shift < 60 && value + Shl(buf[pos], shift) < TWO_64
    ensures
      var next := value + Shl(buf[pos], shift);
      CheckedGroups(buf, pos, value, shift) ==
      if buf[pos] < 128 then Value(next, pos + 1) else CheckedGroups(buf, pos + 1, next, shift + 7)
  {
    hide Shl;
  }

  lemma {:induction false} CheckedGroupsMeaning(buf: seq<byte>, pos: nat, value: u64, shift: nat, left: nat)
    requires pos <= |buf| && DecodedGroups(buf, pos).Some?
    requires shift + 7 * left == 60 && value < Pow2(shift + 4)
    ensures
      var (m, end) := DecodedGroups(buf, pos).value;
      ReadsAs(CheckedGroups(buf, pos, value, shift), value + Shl(m, shift), end, end - pos, left, buf[end - 1])
    decreases |buf| - pos
  {
    hide Shl, Pow2, CheckedGroups;
    if left == 0 {
      CheckedTop(buf, pos, value);
    } else {
      var b := buf[pos];
      LowGroup(value, b, shift);
      CheckedLow(buf, pos, value, shift);
      if b >= 128 {
        ShlSplit(b, DecodedGroups(buf, pos + 1).value.0, shift);
        CheckedGroupsMeaning(buf, pos + 1, value + Shl(b, shift), shift + 7, left - 1);
      }
    }
  }

  /**
   * What a build with overflow checks does on a complete encoding of `n`. It panics if and only if the
   * encoding has more than ten bytes, or its tenth byte holds fewer multiples of 2^64 than `n`; else it
   * returns `n` modulo 2^64. Below 2^64 it always returns `n`.
   */
  lemma CheckedMeaning(buf: seq<byte>, pos: nat)
    requires pos <= |buf| && Decoded(buf, pos).Some?
    ensures
      var (n, end) := Decoded(buf, pos).value;
      && (CheckedRead(buf, pos) == Panics <==>
            end - pos > 10 || (end - pos == 10 && buf[end - 1] / 16 < n / TWO_64))
      && (CheckedRead(buf, pos) != Panics ==> CheckedRead(buf, pos) == Value(n % TWO_64, end))
      && (n < TWO_64 ==> CheckedRead(buf, pos) == Value(n, end))
  {
    hide CheckedRead, Decoded;
    CheckedLong(buf, pos);
    if Decoded(buf, pos).value.0 < TWO_64 { TenBytes(buf, pos); }
  }

  lemma TenBytes(buf: seq<byte>, pos: nat)
    requires pos <= |buf| && Decoded(buf, pos).Some? && Decoded(buf, pos).value.0 < TWO_64
    ensures Decoded(buf, pos).value.1 <= pos + 10
  {
    VarintCanonical(buf, pos);
    VarintLength(Decoded(buf, pos).value.0);
  }

  lemma CheckedLong(buf: seq<byte>, pos: nat)
    requires pos <= |buf| && Decoded(buf, pos).Some?
    ensures
      var (n, end) := Decoded(buf, pos).value;
      && CheckedRead(buf, pos) ==
         (if end - pos <= 9 || (end - pos == 10 && n / TWO_64 == buf[end - 1] / 16) then Value(n % TWO_64, end)
          else Panics)
      && (end - pos <= 9 ==> n < TWO_64)
      && (end - pos == 10 ==> buf[end - 1] / 16 <= n / TWO_64)
  {
    if buf[pos] >= 240 {
      Pow2Words();
      ShlFour(DecodedGroups(buf, pos + 1).value.0);
      hide Shl, Pow2;
      CheckedGroupsMeaning(buf, pos + 1, buf[pos], 4, 8);
    }
  }

  const ALIAS: seq<byte> := [0xF0, 0xF1, 0xFE, 0xFE, 0xFE, 0xFE, 0xFE, 0xFE, 0xFE, 0x0E]

  /**
   * Beyond 64 bits the decoder aliases: these ten bytes encode 2^64 and are read as zero. With overflow
   * checks they panic.
   */
  lemma AliasReadAsZero()
    ensures Decoded(ALIAS, 0) == Some((TWO_64, 10))
    ensures Wrapped(ALIAS, 0) == Some((0, 10))
    ensures CheckedRead(ALIAS, 0) == Panics
  {
    assert DecodedGroups(ALIAS, 9) == Some((0xe, 10));
    assert DecodedGroups(ALIAS, 8) == Some((0x7fe, 10));
    assert DecodedGroups(ALIAS, 7) == Some((0x3fffe, 10));
    assert DecodedGroups(ALIAS, 6) == Some((0x1fffffe, 10));
    assert DecodedGroups(ALIAS, 5) == Some((0xfffffffe, 10));
    assert DecodedGroups(ALIAS, 4) == Some((0x7ffffffffe, 10));
    assert DecodedGroups(ALIAS, 3) == Some((0x3ffffffffffe, 10));
    assert DecodedGroups(ALIAS, 2) == Some((0x1ffffffffffffe, 10));
    assert DecodedGroups(ALIAS, 1) == Some((0xffffffffffffff1, 10));
    WrappedMeaning(ALIAS, 0);
    CheckedMeaning(ALIAS, 0);
  }

  const SILENT: seq<byte> := [0xF0, 0x80, 0x80, 0x80, 0x80, 0x80, 0x80, 0x80, 0x80, 0x10]
  const SILENT_VALUE: u64 := 0x10204081020408f0

  /** Overflow checks do not see the bits that a shift drops: these bytes encode 2^64 more than what is read. */
  lemma SilentAlias()
    ensures Decoded(SILENT, 0) == Some((TWO_64 + SILENT_VALUE, 10))
    ensures CheckedRead(SILENT, 0) == Value(SILENT_VALUE, 10)
  {
    assert DecodedGroups(SILENT, 9) == Some((0x10, 10));
    assert DecodedGroups(SILENT, 8) == Some((0x880, 10));
    assert DecodedGroups(SILENT, 7) == Some((0x44080, 10));
    assert DecodedGroups(SILENT, 6) == Some((0x2204080, 10));
    assert DecodedGroups(SILENT, 5) == Some((0x110204080, 10));
    assert DecodedGroups(SILENT, 4) == Some((0x8810204080, 10));
    assert DecodedGroups(SILENT, 3) == Some((0x440810204080, 10));
    assert DecodedGroups(SILENT, 2) == Some((0x22040810204080, 10));
    assert DecodedGroups(SILENT, 1) == Some((0x1102040810204080, 10));
    CheckedMeaning(SILENT, 0);
  }

  // ----- frames -----

  function BigEndian(n: u32): (s: seq<byte>)
    ensures |s| == 4
  {
    [n / 0x100_0000, n / 0x1_0000 % 0x100, n / 0x100 % 0x100, n % 0x100]
  }

  function FromBigEndian(s: seq<byte>): u32
    requires |s| == 4
  {
    s[0] as int * 0x100_0000 + s[1] as int * 0x1_0000 + s[2] as int * 0x100 + s[3]
  }

  lemma BigEndianRoundTrip(n: u32)
    ensures FromBigEndian(BigEndian(n)) == n
  {
    var high := n / 0x1_0000;
    assert n / 0x100 / 0x100 == high && n / 0x100_0000 == high / 0x100;
  }

  lemma BigEndianInjective(s: seq<byte>)
    requires |s| == 4
    ensures BigEndian(FromBigEndian(s)) == s
  {
    var n := FromBigEndian(s);
    QuotientUnique(n, 0x100, s[0] as int * 0x1_0000 + s[1] as int * 0x100 + s[2], s[3]);
    QuotientUnique(n, 0x1_0000, s[0] as int * 0x100 + s[1], s[2] as int * 0x100 + s[3]);
    QuotientUnique(n, 0x100_0000, s[0], s[1] as int * 0x1_0000 + s[2] as int * 0x100 + s[3]);
    QuotientUnique(s[0] as int * 0x100 + s[1], 0x100, s[0], s[1]);
    QuotientUnique(s[0] as int * 0x1_0000 + s[1] as int * 0x100 + s[2], 0x100, s[0] as int * 0x100 + s[1], s[2]);
  }

  /** A frame without its length: type, FIN flag, stream and frame identifiers, payload. */
  function Body(kind: byte, streamId: u64, frameId: u64, payload: seq<byte>): seq<byte> {
    [kind] + BigEndian(FLAG_FIN) + Varint(streamId) + Varint(frameId) + payload
  }

  function Frame(body: seq<byte>): seq<byte> {
    BigEndian(|body| % TWO_32) + body
  }

  datatype FrameError = Io | InvalidSize(size: nat)

  /** `read_frame` on the bytes to come: one body, and what follows it. */
  function TakeFrame(input: seq<byte>): (r: Result<(seq<byte>, seq<byte>), FrameError>)
    ensures r.Ok? ==> |input| == 4 + |r.value.0| + |r.value.1|
  {
    if |input| < 4 then Err(Io)
    else
      var length := FromBigEndian(input[..4]);
      if length < MIN_FRAME_SIZE || length > MAX_FRAME_SIZE then Err(InvalidSize(length))
      else if |input| < 4 + length then Err(Io)
      else Ok((input[4..4 + length], input[4 + length..]))
  }

  predicate Fits(body: seq<byte>) {
    MIN_FRAME_SIZE <= |body| <= MAX_FRAME_SIZE
  }

  function Frames(bodies: seq<seq<byte>>): seq<byte> {
    if bodies == [] then [] else Frame(bodies[0]) + Frames(bodies[1..])
  }

  /** `n` successive `read_frame` calls. */
  function TakeFrames(input: seq<byte>, n: nat): Result<(seq<seq<byte>>, seq<byte>), FrameError> {
    if n == 0 then Ok(([], input))
    else
      match TakeFrame(input)
      case Err(e) => Err(e)
      case Ok((body, rest)) =>
        match TakeFrames(rest, n - 1)
        case Err(e) => Err(e)
        case Ok((bodies, tail)) => Ok(([body] + bodies, tail))
  }

  lemma TakeOneFrame(body: seq<byte>, rest: seq<byte>)
    requires Fits(body)
    ensures TakeFrame(Frame(body) + rest) == Ok((body, rest))
  {
    hide BigEndian, FromBigEndian;
    var input := Frame(body) + rest;
    BigEndianRoundTrip(|body|);
    assert input[..4] == BigEndian(|body|);
    assert input[4..4 + |body|] == body && input[4 + |body|..] == rest;
  }

  /** What four bytes of length lead to: an error for a length out of bounds, or for an input too short. */
  lemma FrameMeaning(length: u32, rest: seq<byte>)
    ensures
      TakeFrame(BigEndian(length) + rest) ==
      if length < 7 || length > 16_384 then Err(InvalidSize(length))
      else if |rest| < length then Err(Io)
      else Ok((rest[..length], rest[length..]))
    ensures forall short: seq<byte> :: |short| < 4 ==> TakeFrame(short) == Err(Io)
  {
    hide BigEndian, FromBigEndian;
    BigEndianRoundTrip(length);
    var input := BigEndian(length) + rest;
    assert input[..4] == BigEndian(length);
    if 7 <= length <= 16_384 && |rest| >= length {
      assert input[4..4 + length] == rest[..length] && input[4 + length..] == rest[length..];
    }
  }

  /** The most significant byte comes first. */
  lemma BigEndianBytes(a: byte, b: byte, c: byte, d: byte)
    ensures BigEndian(a * 0x100_0000 + b * 0x1_0000 + c * 0x100 + d) == [a, b, c, d]
  {
    BigEndianInjective([a, b, c, d]);
  }

  /** Frames written one after the other are read back as the same bodies, in order. */
  lemma {:induction false} FramesRoundTrip(bodies: seq<seq<byte>>, rest: seq<byte>)
    requires forall body <- bodies :: Fits(body)
    ensures TakeFrames(Frames(bodies) + rest, |bodies|) == Ok((bodies, rest))
  {
    hide TakeFrame, Frame, Fits;
    if bodies == [] {
      assert Frames(bodies) + rest == rest;
    } else {
      var tail := Frames(bodies[1..]) + rest;
      assert Frames(bodies) + rest == Frame(bodies[0]) + tail;
      TakeOneFrame(bodies[0], tail);
      FramesRoundTrip(bodies[1..], rest);
      assert [bodies[0]] + bodies[1..] == bodies;
    }
  }

  lemma TakeOneCanonical(input: seq<byte>)
    requires TakeFrame(input).Ok?
    ensures
      var (body, rest) := TakeFrame(input).value;
      Fits(body) && input == Frame(body) + rest
  {
    hide BigEndian, FromBigEndian;
    BigEndianInjective(input[..4]);
    var (body, rest) := TakeFrame(input).value;
    assert input == input[..4] + body + rest;
  }

  /** Conversely, whatever reads as `n` frames is those frames written one after the other. */
  lemma {:induction false} FramesCanonical(input: seq<byte>, n: nat)
    requires TakeFrames(input, n).Ok?
    ensures
      var (bodies, rest) := TakeFrames(input, n).value;
      |bodies| == n && (forall body <- bodies :: Fits(body)) && input == Frames(bodies) + rest
    decreases n
  {
    hide TakeFrame, Frame, Fits;
    if n > 0 {
      var (body, rest) := TakeFrame(input).value;
      var (bodies, tail) := TakeFrames(rest, n - 1).value;
      TakeOneCanonical(input);
      FramesCanonical(rest, n - 1);
      assert ([body] + bodies)[1..] == bodies;
      assert Frames([body] + bodies) == Frame(body) + Frames(bodies);
    }
  }
}
