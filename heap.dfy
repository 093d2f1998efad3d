/** The health-check priority queue (proxy_cache/heap.go): the exponential backoff
    that says when a record is due, the order that puts the record due soonest
    first, the FNV-1a hash that breaks ties, and the slice hooks that
    container/heap drives. Every computation takes one instant `now`. */
module Heap {
  import opened ProxyRecord

  function Pow2(k: nat): (r: nat)
    ensures r >= 1
  {
    if k == 0 then 1 else 2 * Pow2(k - 1)
  }

  lemma {:induction false} Pow2Monotone(i: nat, j: nat)
    requires i <= j
    ensures Pow2(i) <= Pow2(j)
    decreases j
  {
    if i < j {
      Pow2Monotone(i, j - 1);
    }
  }

  /** The powers of two the backoff reaches. */
  lemma Pow2Table()
    ensures Pow2(3) == 8 && Pow2(10) == 1024 && Pow2(24) == 16777216
    ensures Pow2(25) == 33554432 && Pow2(28) == 268435456
    ensures Pow2(29) == 536870912 && Pow2(30) == 1073741824
  {
  }

  /** The exponent of the backoff: failCounter, capped at 30. */
  function CappedFails(failCounter: nat): nat {
    if failCounter > 30 then 30 else failCounter
  }

  /** The backoff due instant before the ceiling: lastCheck + 5 min * 2^min(failCounter, 30). */
  function CheckIn(p: Proxy): Instant {
    p.lastCheck + ProxyCheckTimeoutMin * Pow2(CappedFails(p.failCounter))
  }

  /** The ceiling: 24 hours after the last check. */
  function CheckInMax(p: Proxy): Instant {
    p.lastCheck + ProxyCheckTimeoutMax
  }

  /** The instant the record is due: the backoff instant, clamped to the ceiling. */
  function Due(p: Proxy): (t: Instant)
    ensures p.lastCheck + ProxyCheckTimeoutMin <= t <= p.lastCheck + ProxyCheckTimeoutMax
  {
    if CheckIn(p) > CheckInMax(p) then CheckInMax(p) else CheckIn(p)
  }

  /** The three cases of recheckIn once the backoff instant is known. */
  function Select(checkIn: Instant, checkInMax: Instant, now: Instant): Duration {
    if checkIn < now then 0
    else if checkIn > checkInMax then checkInMax - now
    else checkIn - now
  }

  /** recheckIn: how long until the record is due, over mathematical integers.
      A positive result means "not yet due". The result is 0 once the backoff
      instant has passed; when the ceiling applies it is the time to the ceiling,
      which is negative if the ceiling has already passed. */
  function RecheckIn(p: Proxy, now: Instant): (d: Duration)
    ensures CheckIn(p) < now ==> d == 0
    ensures CheckIn(p) >= now ==> d == Due(p) - now
    ensures d > 0 <==> Due(p) > now
    ensures Due(p) >= now ==> d == Due(p) - now
    ensures d < 0 ==> CheckIn(p) > CheckInMax(p) && CheckInMax(p) < now
    ensures now >= p.lastCheck ==> d <= ProxyCheckTimeoutMax
  {
    Select(CheckIn(p), CheckInMax(p), now)
  }

  /** A record checked at `now - 3 min` is due after two more minutes with no
      failures and after 37 with three; 28 and 80 failures hit the ceiling. */
  lemma RecheckInTestValues(addr: Address, now: Instant)
    ensures RecheckIn(Proxy(addr, now - 3 * Minute, 0), now) == 2 * Minute
    ensures RecheckIn(Proxy(addr, now - 3 * Minute, 3), now) == 37 * Minute
    ensures RecheckIn(Proxy(addr, now - 3 * Minute, 28), now) == 24 * Hour - 3 * Minute
    ensures RecheckIn(Proxy(addr, now - 3 * Minute, 80), now) == 24 * Hour - 3 * Minute
  {
    Pow2Table();
  }

  /** A record never checked and never failed is due as soon as five minutes of
      the clock have passed. */
  lemma RecheckInEpoch(addr: Address, now: Instant)
    requires now >= ZeroTime + ProxyCheckTimeoutMin
    ensures RecheckIn(Proxy(addr, ZeroTime, 0), now) == 0
  {
  }

  /** The cap: every failCounter of 30 or more waits as long as 30. */
  lemma RecheckInCapped(p: Proxy, now: Instant)
    requires p.failCounter >= 30
    ensures RecheckIn(p, now) == RecheckIn(p.(failCounter := 30), now)
  {
  }

  /** Backoff: more failures never make a record due sooner, and a record that
      is not yet due stays not due with more failures. */
  lemma RecheckInMonotone(p: Proxy, failCounter: nat, now: Instant)
    requires p.failCounter <= failCounter
    ensures Due(p) <= Due(p.(failCounter := failCounter))
    ensures RecheckIn(p, now) > 0 ==> RecheckIn(p.(failCounter := failCounter), now) >= RecheckIn(p, now)
  {
    Pow2Monotone(CappedFails(p.failCounter), CappedFails(failCounter));
  }

  /** The clamped branch is not floored at 0: a record overdue past its ceiling
      gets a negative delay. */
  lemma RecheckInNegativePastCeiling(addr: Address, now: Instant)
    ensures RecheckIn(Proxy(addr, now - 25 * Hour, 10), now) == -Hour
  {
    Pow2Table();
  }

  // ---- the product as the source computes it: int64 with wrap-around ----

  const TwoTo63: int := 0x8000_0000_0000_0000
  const TwoTo64: int := 0x1_0000_0000_0000_0000

  /** The two's-complement int64 value of x, as Go's int64 multiplication leaves it. */
  function WrapInt64(x: int): (r: int)
    ensures -TwoTo63 <= r < TwoTo63
    ensures (r - x) % TwoTo64 == 0
  {
    var m := x % TwoTo64;
    if m < TwoTo63 then m else m - TwoTo64
  }

  /** recheckIn exactly as written: `proxyCheckTimeoutMin * (1 << failCounter)` is a
      time.Duration (int64) product, which wraps for failCounter 25 to 30. */
  function RecheckInAsWritten(p: Proxy, now: Instant): Duration {
    Select(p.lastCheck + WrapInt64(ProxyCheckTimeoutMin * Pow2(CappedFails(p.failCounter))), CheckInMax(p), now)
  }

  /** Up to 24 failures the int64 product does not wrap, and the code as
      written agrees with RecheckIn. */
  lemma RecheckInAsWrittenAgrees(p: Proxy, now: Instant)
    requires p.failCounter <= 24
    ensures RecheckInAsWritten(p, now) == RecheckIn(p, now)
  {
    Pow2Monotone(p.failCounter, 24);
    Pow2Table();
  }

  /** The int64 products the failure counts below give: 24 fits; 25 and 29
      wrap to negative durations; 28 and 30 wrap to positive ones beyond the
      24-hour ceiling. */
  lemma WrappedBackoffs()
    ensures WrapInt64(ProxyCheckTimeoutMin * Pow2(0)) == 300_000_000_000
    ensures WrapInt64(ProxyCheckTimeoutMin * Pow2(3)) == 2_400_000_000_000
    ensures WrapInt64(ProxyCheckTimeoutMin * Pow2(24)) == 5_033_164_800_000_000_000
    ensures WrapInt64(ProxyCheckTimeoutMin * Pow2(25)) == -8_380_414_473_709_551_616
    ensures WrapInt64(ProxyCheckTimeoutMin * Pow2(28)) == 6_743_660_505_161_793_536
    ensures WrapInt64(ProxyCheckTimeoutMin * Pow2(29)) == -4_959_423_063_385_964_544
    ensures WrapInt64(ProxyCheckTimeoutMin * Pow2(30)) == 8_527_897_946_937_622_528
  {
    Pow2Table();
  }

  /** The int64 overflow: with 25 or 29 failures the product wraps to a negative
      duration, the backoff instant lies before the last check and the record is
      rechecked at once, where 24 failures wait for the ceiling. The values the
      tests use (0, 3, 28, 80) do not show it. */
  lemma RecheckInAsWrittenOverflows(addr: Address, now: Instant)
    ensures RecheckInAsWritten(Proxy(addr, now - 3 * Minute, 24), now) == 24 * Hour - 3 * Minute
    ensures RecheckInAsWritten(Proxy(addr, now - 3 * Minute, 25), now) == 0
    ensures RecheckInAsWritten(Proxy(addr, now - 3 * Minute, 29), now) == 0
    ensures RecheckIn(Proxy(addr, now - 3 * Minute, 25), now) == 24 * Hour - 3 * Minute
    ensures RecheckIn(Proxy(addr, now - 3 * Minute, 29), now) == 24 * Hour - 3 * Minute
  {
    WrappedBackoffs();
    Pow2Table();
  }

  /** The tests' values hold of the code as written as well. */
  lemma RecheckInAsWrittenTestValues(addr: Address, now: Instant)
    ensures RecheckInAsWritten(Proxy(addr, now - 3 * Minute, 0), now) == 2 * Minute
    ensures RecheckInAsWritten(Proxy(addr, now - 3 * Minute, 3), now) == 37 * Minute
    ensures RecheckInAsWritten(Proxy(addr, now - 3 * Minute, 28), now) == 24 * Hour - 3 * Minute
    ensures RecheckInAsWritten(Proxy(addr, now - 3 * Minute, 80), now) == 24 * Hour - 3 * Minute
  {
    WrappedBackoffs();
  }

  // ---- stringHash: 64-bit FNV-1a ----

  const FnvOffset64: bv64 := 0xcbf2_9ce4_8422_2325
  const FnvPrime64: bv64 := 0x0000_0100_0000_01b3

  /** One byte of FNV-1a: xor the byte in, then multiply by the prime mod 2^64. */
  function FnvStep(h: bv64, b: byte): bv64 {
    (h ^ (b as bv64)) * FnvPrime64
  }

  /** hash.Hash64.Write: the bytes folded into the state, first to last. */
  function FnvWrite(h: bv64, data: seq<byte>): bv64
    decreases |data|
  {
    if data == [] then h else FnvWrite(FnvStep(h, data[0]), data[1..])
  }

  /** stringHash: fnv.New64a, Write the address, Sum64, as the uint64 it returns. */
  function StringHash(s: Address): (h: nat)
    ensures h < 0x1_0000_0000_0000_0000
  {
    FnvWrite(FnvOffset64, s) as nat
  }

  /** Writing in two parts gives the state of writing once. */
  lemma {:induction false} FnvWriteAppend(h: bv64, s: seq<byte>, t: seq<byte>)
    ensures FnvWrite(h, s + t) == FnvWrite(FnvWrite(h, s), t)
    decreases |s|
  {
    if s == [] {
      assert s + t == t;
    } else {
      assert (s + t)[0] == s[0];
      assert (s + t)[1..] == s[1..] + t;
      FnvWriteAppend(FnvStep(h, s[0]), s[1..], t);
    }
  }

  /** The hash of an address extended by one byte is one FNV-1a step on the
      hash of the address. */
  lemma StringHashExtend(s: Address, b: byte)
    ensures StringHash(s + [b]) == FnvStep(FnvWrite(FnvOffset64, s), b) as nat
  {
    FnvWriteAppend(FnvOffset64, s, [b]);
    assert [b][1..] == [];
  }

  /** The published FNV-1a 64 values of "" and "a". */
  lemma StringHashVectors()
    ensures StringHash([]) == 0xcbf2_9ce4_8422_2325
    ensures StringHash([0x61]) == 0xaf63_dc4c_8601_ec8c
  {
    assert FnvStep(FnvOffset64, 0x61) == 0xaf63_dc4c_8601_ec8c;
    assert [0x61 as byte][1..] == [];
  }

  // ---- isLess ----

  /** isLess: the record due sooner comes first; equal delays are ordered by the
      hash of the address. */
  predicate IsLess(a: Proxy, b: Proxy, now: Instant)
    ensures RecheckIn(a, now) < RecheckIn(b, now) ==> IsLess(a, b, now)
    ensures IsLess(a, b, now) ==> RecheckIn(a, now) <= RecheckIn(b, now)
  {
    var da, db := RecheckIn(a, now), RecheckIn(b, now);
    if da == db then StringHash(a.addr) < StringHash(b.addr) else da < db
  }

  /** For one `now`, isLess is a strict order. */
  lemma IsLessStrictOrder(a: Proxy, b: Proxy, c: Proxy, now: Instant)
    ensures !IsLess(a, a, now)
    ensures IsLess(a, b, now) ==> !IsLess(b, a, now)
    ensures IsLess(a, b, now) && IsLess(b, c, now) ==> IsLess(a, c, now)
  {
  }

  /** ... and a total one between records whose address hashes differ. */
  lemma IsLessTotal(a: Proxy, b: Proxy, now: Instant)
    requires StringHash(a.addr) != StringHash(b.addr)
    ensures IsLess(a, b, now) || IsLess(b, a, now)
  {
  }

  /** A record that is due comes before every record that is not. */
  lemma DueFirst(a: Proxy, b: Proxy, now: Instant)
    requires Due(a) <= now < Due(b)
    ensures IsLess(a, b, now) && !IsLess(b, a, now)
  {
  }

  /** Whether no record of s comes before position k. */
  ghost predicate MinimalAt(s: seq<Proxy>, k: int, now: Instant)
    requires 0 <= k < |s|
  {
    forall j :: 0 <= j < |s| ==> !IsLess(s[j], s[k], now)
  }

  /** A position holding an isLess-minimal record of a non-empty list. */
  function MinIndex(s: seq<Proxy>, now: Instant): (k: nat)
    requires |s| > 0
    ensures k < |s| && MinimalAt(s, k, now)
    decreases |s|
  {
    if |s| == 1 then 0
    else
      var k := MinIndex(s[..|s| - 1], now);
      assert forall j :: 0 <= j < |s| - 1 ==> s[..|s| - 1][j] == s[j];
      if IsLess(s[|s| - 1], s[k], now) then
        assert forall j :: 0 <= j < |s| ==> !IsLess(s[j], s[|s| - 1], now) by {
          forall j | 0 <= j < |s| ensures !IsLess(s[j], s[|s| - 1], now) {
            IsLessStrictOrder(s[j], s[|s| - 1], s[k], now);
          }
        }
        |s| - 1
      else
        k
  }

  /** When an isLess-minimal record is not yet due, no record is. */
  lemma MinimalNotDue(s: seq<Proxy>, k: int, now: Instant)
    requires 0 <= k < |s| && MinimalAt(s, k, now) && RecheckIn(s[k], now) > 0
    ensures forall j :: 0 <= j < |s| ==> RecheckIn(s[j], now) > 0
  {
    forall j | 0 <= j < |s| ensures RecheckIn(s[j], now) > 0 {
      assert !IsLess(s[j], s[k], now);
    }
  }

  /** ProxyHeap: the slice of records that container/heap arranges. */
  class ProxyHeap {
    var items: seq<Proxy>

    constructor (init: seq<Proxy>)
      ensures items == init
    {
      items := init;
    }

    function Len(): nat
      reads this
    {
      |items|
    }

    predicate Less(i: int, j: int, now: Instant)
      reads this
      requires 0 <= i < |items| && 0 <= j < |items|
      ensures Less(i, j, now) ==> !IsLess(items[j], items[i], now)
    {
      IsLessStrictOrder(items[i], items[j], items[j], now);
      IsLess(items[i], items[j], now)
    }

    /** Swap exchanges positions i and j; nothing else changes. */
    method Swap(i: int, j: int)
      requires 0 <= i < |items| && 0 <= j < |items|
      modifies this
      ensures items == old(items)[i := old(items)[j]][j := old(items)[i]]
      ensures multiset(items) == multiset(old(items))
    {
      items := items[i := items[j]][j := items[i]];
    }

    /** Push appends one record at the end. */
    method Push(x: Proxy)
      modifies this
      ensures items == old(items) + [x]
    {
      items := items + [x];
    }

    /** Pop removes and returns the last record. */
    method Pop() returns (x: Proxy)
      requires |items| > 0
      modifies this
      ensures x == old(items)[|old(items)| - 1]
      ensures items == old(items)[..|old(items)| - 1]
    {
      x := items[|items| - 1];
      items := items[..|items| - 1];
    }

    /** container/heap's down, as heap.Init uses it: the record at i0 sinks
        while one of its children in the first n positions is Less than it,
        trading places with the smaller child. */
    method Down(i0: int, n: int, now: Instant)
      requires 0 <= i0 < n <= |items|
      modifies this
      ensures |items| == |old(items)|
      ensures multiset(items) == multiset(old(items))
    {
      var i := i0;
      while true
        invariant 0 <= i < n <= |items| == |old(items)|
        invariant multiset(items) == multiset(old(items))
        decreases n - i
      {
        var j1 := 2 * i + 1;
        if j1 >= n {
          break;
        }
        var j := j1;
        var j2 := j1 + 1;
        if j2 < n && Less(j2, j1, now) {
          j := j2;
        }
        if !Less(j, i, now) {
          break;
        }
        Swap(i, j);
        i := j;
      }
    }

    /** heap.Init: sinks every parent position, from the last one to the root.
        It rearranges the records and keeps exactly the same ones. */
    method Init(now: Instant)
      modifies this
      ensures multiset(items) == multiset(old(items))
    {
      var n := |items|;
      var i := n / 2 - 1;
      while i >= 0
        invariant -1 <= i < n && |items| == n
        invariant multiset(items) == multiset(old(items))
        decreases i + 1
      {
        Down(i, n, now);
        i := i - 1;
      }
    }

    /** An abstraction of container/heap's Pop, which moves the root of its
        binary heap to the end and pops it. Here the record moved is any
        isLess-minimal one at the given `now`; the library's root was placed by
        comparisons at earlier instants and need not be minimal at `now`. */
    method PopMin(now: Instant) returns (x: Proxy)
      requires |items| > 0
      modifies this
      ensures x in old(items)
      ensures multiset(items) + multiset{x} == multiset(old(items))
      ensures forall y :: y in items ==> !IsLess(y, x, now)
    {
      var k := MinIndex(items, now);
      ghost var before := items;
      Swap(k, |items| - 1);
      ghost var swapped := items;
      x := Pop();
      assert swapped == items + [x];
      assert x == before[k];
      forall y | y in items ensures !IsLess(y, x, now) {
        assert y in multiset(swapped);
        assert y in before;
      }
    }
  }
}
