/** The synthetic benchmark lists (benches/spoe/fixture.rs, `synthetic_database`). */
module Fixture {
  import opened Bits
  import opened Sets
  import opened Wrappers
  import opened Text
  import opened Ipv4
  import opened Workload
  import I = Ipset

  // ----- drawing distinct networks -----

  /** `u32::MAX << (32 - prefix)` */
  function Mask(prefix: prefixlen): u32 {
    Shl(TWO_32 - 1, 32 - prefix) % TWO_32
  }

  /** `(draw as u32) & mask` */
  function Masked(draw: u64, prefix: prefixlen): u32
    requires prefix > 0
  {
    MaskedWord(draw, prefix);
    And(draw % TWO_32, Mask(prefix))
  }

  lemma Pow2One()
    ensures Pow2(1) == 2
  {
    assert Pow2(0) == 1;
  }

  lemma MaskValue(prefix: prefixlen)
    requires prefix > 0
    ensures Pow2(32 - prefix) < TWO_32 && Mask(prefix) == TWO_32 - Pow2(32 - prefix)
  {
    hide Pow2, Shl;
    var p := Pow2(32 - prefix);
    Pow2Words();
    assert Pow2(31) < TWO_32 by { Pow2Sum(31, 1); Pow2One(); }
    Pow2Monotonic(32 - prefix, 31);
    ShlOnes(32, 32 - prefix);
    Pow2Sum(32, 32 - prefix);
    QuotientUnique(TWO_32 * p - p, TWO_32, p - 1, TWO_32 - p);
  }

  lemma MaskedWord(draw: u64, prefix: prefixlen)
    requires prefix > 0
    ensures And(draw % TWO_32, Mask(prefix)) == Shl(Shr(draw % TWO_32, 32 - prefix), 32 - prefix)
    ensures And(draw % TWO_32, Mask(prefix)) < TWO_32 && Shr(draw % TWO_32, 32 - prefix) < Pow2(prefix)
  {
    MaskValue(prefix);
    Pow2Words();
    AndHighOnes(draw % TWO_32, 32, 32 - prefix);
    ShrFits(draw % TWO_32, 32 - prefix, prefix);
    ShlBound(Shr(draw % TWO_32, 32 - prefix), 32 - prefix, prefix);
  }

  /** Masking clears the host bits and nothing else. */
  lemma MaskedValue(draw: u64, prefix: prefixlen)
    requires prefix > 0
    ensures Masked(draw, prefix) == Shl(Shr(draw % TWO_32, 32 - prefix), 32 - prefix)
    ensures Shr(draw % TWO_32, 32 - prefix) < Pow2(prefix)
  {
    MaskedWord(draw, prefix);
  }

  /** A network address is left unchanged by its own mask. */
  lemma MaskedFixed(k: nat, prefix: prefixlen)
    requires prefix > 0 && k < Pow2(prefix)
    ensures Shl(k, 32 - prefix) < TWO_32
    ensures Masked(Shl(k, 32 - prefix), prefix) == Shl(k, 32 - prefix)
  {
    hide Shl, Shr, Masked;
    Pow2Words();
    ShlBound(k, 32 - prefix, prefix);
    MaskedValue(Shl(k, 32 - prefix), prefix);
    ShrShl(k, 32 - prefix);
  }

  /** The first `n` network addresses with `host` host bits. */
  function Addresses(host: nat, n: nat): set<nat> {
    if n == 0 then {} else Addresses(host, n - 1) + {Shl(n - 1, host)}
  }

  lemma {:induction false} InAddresses(host: nat, n: nat, a: nat)
    ensures a in Addresses(host, n) <==> Shr(a, host) < n && Shl(Shr(a, host), host) == a
  {
    if n > 0 {
      InAddresses(host, n - 1, a);
      ShrShl(n - 1, host);
    }
  }

  lemma {:induction false} AddressesSize(host: nat, n: nat)
    ensures |Addresses(host, n)| == n
  {
    hide Shl, Shr;
    if n > 0 {
      AddressesSize(host, n - 1);
      InAddresses(host, n - 1, Shl(n - 1, host));
      ShrShl(n - 1, host);
    }
  }

  /** As long as fewer than 2^prefix networks were drawn, one is left. */
  lemma Unseen(seen: set<nat>, prefix: prefixlen) returns (goal: u64)
    requires prefix > 0 && |seen| < Pow2(prefix)
    ensures goal !in seen && Masked(goal, prefix) == goal
  {
    var all := Addresses(32 - prefix, Pow2(prefix));
    AddressesSize(32 - prefix, Pow2(prefix));
    if all <= seen {
      SubsetSize(all, seen);
    }
    var a :| a in all && a !in seen;
    InAddresses(32 - prefix, Pow2(prefix), a);
    MaskedFixed(Shr(a, 32 - prefix), prefix);
    goal := a;
  }

  /** No more than 2^prefix different values can be drawn: the bound on `count` cannot be relaxed. */
  lemma AtMostAllNetworks(drawn: set<nat>, prefix: prefixlen)
    requires prefix > 0
    requires forall a <- drawn :: exists y: u64 :: a == Masked(y, prefix)
    ensures |drawn| <= Pow2(prefix)
  {
    var all := Addresses(32 - prefix, Pow2(prefix));
    forall a | a in drawn ensures a in all {
      var y: u64 :| a == Masked(y, prefix);
      MaskedValue(y, prefix);
      ShrShl(Shr(y % TWO_32, 32 - prefix), 32 - prefix);
      InAddresses(32 - prefix, Pow2(prefix), a);
    }
    AddressesSize(32 - prefix, Pow2(prefix));
    SubsetSize(drawn, all);
  }

  /** The masked address of the `k`-th draw. */
  function NthAddress(state: u64, prefix: prefixlen, k: nat): u32
    requires prefix > 0
  {
    Masked(Draw(state, k), prefix)
  }

  /** The different masked addresses among the first `k` draws, in order of first appearance. */
  function DistinctAmong(state: u64, prefix: prefixlen, k: nat): seq<u32>
    requires prefix > 0
  {
    if k == 0 then []
    else
      var before := DistinctAmong(state, prefix, k - 1);
      var a := NthAddress(state, prefix, k);
      if a in before then before else before + [a]
  }

  /** They differ, they are the addresses drawn, and further draws only add to them. */
  lemma {:induction false} DistinctMeaning(state: u64, prefix: prefixlen, k: nat)
    requires prefix > 0
    ensures Distinct(DistinctAmong(state, prefix, k))
    ensures
      forall a :: a in DistinctAmong(state, prefix, k) <==> exists j :: 1 <= j <= k && NthAddress(state, prefix, j) == a
    ensures DistinctAmong(state, prefix, k) <= DistinctAmong(state, prefix, k + 1)
  {
    hide NthAddress;
    if k > 0 {
      DistinctMeaning(state, prefix, k - 1);
      var before, a := DistinctAmong(state, prefix, k - 1), NthAddress(state, prefix, k);
      forall b
        ensures b in DistinctAmong(state, prefix, k) <==> exists j :: 1 <= j <= k && NthAddress(state, prefix, j) == b
      {
        assert b in before || b == a <==> b in DistinctAmong(state, prefix, k);
        if b in before {
          var j :| 1 <= j <= k - 1 && NthAddress(state, prefix, j) == b;
        }
      }
    }
  }

  predicate Distinct(s: seq<u32>) {
    forall i, j :: 0 <= i < j < |s| ==> s[i] != s[j]
  }

  /** The set `seen` holds exactly the drawn addresses, which all differ. */
  ghost predicate Tracks(seen: set<nat>, drawn: seq<u32>) {
    |seen| == |drawn| && Distinct(drawn) && forall a :: a in seen <==> a in drawn
  }

  lemma DrawnOneMore(
    seen: set<nat>, drawn: seq<u32>, state: u64, prefix: prefixlen, k: nat, address: u32, limit: nat)
    requires prefix > 0 && Tracks(seen, drawn)
    requires k < limit && NthAddress(state, prefix, limit) !in seen
    requires drawn == DistinctAmong(state, prefix, k) && address == NthAddress(state, prefix, k + 1)
    ensures
      if address in seen then DistinctAmong(state, prefix, k + 1) == drawn && k + 1 < limit
      else
        && DistinctAmong(state, prefix, k + 1) == drawn + [address]
        && Tracks(seen + {address}, drawn + [address])
  {
    assert address in seen <==> address in drawn;
    if address !in seen {
      DistinctOneMore(drawn, address);
    }
  }

  lemma DistinctOneMore(drawn: seq<u32>, address: u32)
    requires Distinct(drawn) && address !in drawn
    ensures Distinct(drawn + [address])
  {}

  /** As long as fewer than 2^prefix networks were drawn, some later draw brings a new one. */
  lemma UnseenDraw(start: u64, draws: nat, seen: set<nat>, prefix: prefixlen) returns (limit: nat)
    requires prefix > 0 && |seen| < Pow2(prefix)
    ensures draws < limit && NthAddress(start, prefix, limit) !in seen
  {
    var goal := Unseen(seen, prefix);
    var state := StateAfter(start, draws);
    var k := DrawsUntil(state, goal) + 1;
    FullPeriod(state, goal, k);
    StateAfterSum(start, draws, k);
    limit := draws + k;
  }

  /** One line of the printed list. */
  function EntryText(a: u32, prefix: prefixlen): string {
    if prefix == 32 then FormatAddress(a) else FormatNetwork(Network(a, prefix))
  }

  function PrintEntry(a: u32, prefix: prefixlen): string {
    EntryText(a, prefix) + "\n"
  }

  function PrintList(addresses: seq<u32>, prefix: prefixlen): string {
    if addresses == [] then "" else PrintEntry(addresses[0], prefix) + PrintList(addresses[1..], prefix)
  }

  lemma {:induction false} PrintOneMore(addresses: seq<u32>, a: u32, prefix: prefixlen)
    ensures PrintList(addresses + [a], prefix) == PrintList(addresses, prefix) + PrintEntry(a, prefix)
  {
    if addresses == [] {
      assert addresses + [a] == [a];
    } else {
      assert (addresses + [a])[1..] == addresses[1..] + [a];
      PrintOneMore(addresses[1..], a, prefix);
    }
  }

  /**
   * Draws until `count` different networks have come up and prints them. It terminates from every
   * generator state, because every 64-bit value comes up within one period.
   */
  method RandomNetworks(rng: SplitMix64, count: nat, prefix: prefixlen)
    returns (text: string, ghost drawn: seq<u32>, ghost draws: nat)
    requires 1 <= prefix && count <= Pow2(prefix)
    modifies rng
    ensures text == PrintList(drawn, prefix)
    ensures |drawn| == count && Distinct(drawn)
    ensures drawn == DistinctAmong(old(rng.state), prefix, draws)
    ensures draws > 0 ==> |DistinctAmong(old(rng.state), prefix, draws - 1)| < count
    ensures rng.state == StateAfter(old(rng.state), draws)
  {
    hide NthAddress, PrintEntry;
    ghost var start := rng.state;
    var seen: set<nat> := {};
    text := "";
    drawn, draws := [], 0;
    ghost var limit: nat := UnseenDraw(start, draws, seen, prefix);
    while |seen| < count
      invariant |seen| <= count && Tracks(seen, drawn)
      invariant rng.state == StateAfter(start, draws) && drawn == DistinctAmong(start, prefix, draws)
      invariant draws > 0 ==> |DistinctAmong(start, prefix, draws - 1)| < count
      invariant text == PrintList(drawn, prefix)
      invariant |seen| < count ==> draws < limit && NthAddress(start, prefix, limit) !in seen
      decreases count - |seen|, limit - draws
    {
      var address := DrawAddress(rng, prefix, start, draws);
      DrawnOneMore(seen, drawn, start, prefix, draws, address, limit);
      draws := draws + 1;
      if address !in seen {
        PrintOneMore(drawn, address, prefix);
        seen := seen + {address};
        text := text + PrintEntry(address, prefix);
        drawn := drawn + [address];
        if |seen| < count {
          limit := UnseenDraw(start, draws, seen, prefix);
        }
      }
    }
  }

  /** `(rng.next_u64() as u32) & mask`, as draw number `draws + 1` of a generator started at `start`. */
  method DrawAddress(rng: SplitMix64, prefix: prefixlen, ghost start: u64, ghost draws: nat) returns (address: u32)
    requires prefix > 0 && rng.state == StateAfter(start, draws)
    modifies rng
    ensures rng.state == StateAfter(start, draws + 1)
    ensures address == NthAddress(start, prefix, draws + 1)
  {
    var mask := Mask(prefix);
    var draw := rng.NextU64();
    StateAfterSum(start, draws, 1);
    MaskedWord(draw, prefix);
    address := And(draw % TWO_32, mask);
  }
}
