/** GoodProxyList (proxy_cache/good_proxy_list.go): the addresses of the proxies
    currently believed healthy, handed out round-robin by a cursor. */
module GoodProxies {
  import opened ProxyRecord

  /** The error `next` reports on an empty list. */
  datatype ListError = ProxyListEmpty

  /** The position `next` reads for cursor idx: idx itself, or 0 once idx has run
      past the end. */
  function Cursor(proxies: seq<Address>, idx: nat): (k: nat)
    requires |proxies| > 0
    ensures k < |proxies|
    ensures k == idx || (k == 0 && idx >= |proxies|)
  {
    if idx >= |proxies| then 0 else idx
  }

  /** The first position holding addr, or |proxies| when it is absent. */
  function FirstIndex(proxies: seq<Address>, addr: Address): (k: nat)
    ensures k <= |proxies|
    ensures k < |proxies| <==> addr in proxies
    ensures k < |proxies| ==> proxies[k] == addr
    ensures forall j :: 0 <= j < k ==> proxies[j] != addr
    decreases |proxies|
  {
    if proxies == [] then 0
    else if proxies[0] == addr then 0
    else
      var k := FirstIndex(proxies[1..], addr);
      assert proxies == [proxies[0]] + proxies[1..];
      k + 1
  }

  /** What `remove` leaves: the first occurrence of addr overwritten by the last
      element and the last slot dropped; the list itself when addr is absent. */
  function SwapRemove(proxies: seq<Address>, addr: Address): (r: seq<Address>)
    ensures addr in proxies ==> |r| == |proxies| - 1
    ensures addr !in proxies ==> r == proxies
  {
    var k := FirstIndex(proxies, addr);
    if k < |proxies| then proxies[k := proxies[|proxies| - 1]][..|proxies| - 1] else proxies
  }

  /** Removing takes exactly one copy of addr out of the list, if it has one, and
      leaves every other position as it was, except that the last element fills
      the gap. */
  lemma SwapRemoveSpec(proxies: seq<Address>, addr: Address)
    ensures multiset(SwapRemove(proxies, addr)) == multiset(proxies) - multiset{addr}
    ensures |SwapRemove(proxies, addr)| == if addr in proxies then |proxies| - 1 else |proxies|
    ensures addr !in proxies ==> SwapRemove(proxies, addr) == proxies
    ensures forall j :: 0 <= j < |SwapRemove(proxies, addr)| && j != FirstIndex(proxies, addr) ==>
              SwapRemove(proxies, addr)[j] == proxies[j]
  {
    var k := FirstIndex(proxies, addr);
    if k < |proxies| {
      SwapRemoveMultiset(proxies, k);
    } else {
      SwapRemoveAbsent(proxies, addr);
    }
  }

  lemma SwapRemoveAbsent(proxies: seq<Address>, addr: Address)
    requires addr !in proxies
    ensures multiset(proxies) - multiset{addr} == multiset(proxies)
  {
    assert multiset(proxies)[addr] == 0;
  }

  lemma SwapRemoveMultiset(s: seq<Address>, k: nat)
    requires k < |s|
    ensures multiset(s[k := s[|s| - 1]][..|s| - 1]) == multiset(s) - multiset{s[k]}
  {
    var n := |s|;
    if k == n - 1 {
      assert s[k := s[n - 1]] == s;
      DropLastMultiset(s);
    } else {
      var front, mid := s[..k], s[k + 1..n - 1];
      assert s[k := s[n - 1]][..n - 1] == front + [s[n - 1]] + mid;
      assert s == front + [s[k]] + mid + [s[n - 1]];
    }
  }

  lemma DropLastMultiset(t: seq<Address>)
    requires |t| > 0
    ensures multiset(t[..|t| - 1]) == multiset(t) - multiset{t[|t| - 1]}
  {
    assert t == t[..|t| - 1] + [t[|t| - 1]];
  }

  /** The addresses n consecutive `next` calls return, starting from cursor idx,
      on a list that does not change meanwhile. */
  function RoundRobin(proxies: seq<Address>, idx: nat, n: nat): (r: seq<Address>)
    requires |proxies| > 0
    ensures |r| == n
    ensures forall k :: 0 <= k < n ==> r[k] in proxies
    decreases n
  {
    if n == 0 then []
    else
      var k := Cursor(proxies, idx);
      [proxies[k]] + RoundRobin(proxies, k + 1, n - 1)
  }

  /** From cursor i, the n = |proxies| - i + 1 calls return the elements from
      position i to the end and then wrap to the first. */
  lemma {:induction false} RoundRobinFrom(proxies: seq<Address>, i: nat, n: nat)
    requires 0 < |proxies| && i <= |proxies| && n == |proxies| - i + 1
    ensures RoundRobin(proxies, i, n) == proxies[i..] + [proxies[0]]
    decreases |proxies| - i
  {
    if i < |proxies| {
      RoundRobinFrom(proxies, i + 1, n - 1);
      assert proxies[i..] == [proxies[i]] + proxies[i + 1..];
    } else {
      assert RoundRobin(proxies, 0 + 1, 0) == [];
    }
  }

  /** Starting from cursor 0, n calls on a list of n elements return the list in
      order, and the next call wraps to the first element. */
  lemma RoundRobinCycle(proxies: seq<Address>)
    requires |proxies| > 0
    ensures RoundRobin(proxies, 0, |proxies| + 1) == proxies + [proxies[0]]
  {
    RoundRobinFrom(proxies, 0, |proxies| + 1);
    assert proxies[0..] == proxies;
  }

  /** One call reads the position under the cursor and leaves the cursor just
      past it, which is where the next of a run of calls starts. */
  lemma RoundRobinStep(proxies: seq<Address>, idx: nat, n: nat)
    requires |proxies| > 0 && n > 0
    ensures RoundRobin(proxies, idx, n)[0] == proxies[Cursor(proxies, idx)]
    ensures RoundRobin(proxies, idx, n)[1..] == RoundRobin(proxies, Cursor(proxies, idx) + 1, n - 1)
  {
  }

  /** Every address handed out is a member of the list. */
  lemma {:induction false} RoundRobinMembers(proxies: seq<Address>, idx: nat, n: nat)
    requires |proxies| > 0
    ensures forall a :: a in RoundRobin(proxies, idx, n) ==> a in proxies
    decreases n
  {
    if n > 0 {
      RoundRobinMembers(proxies, Cursor(proxies, idx) + 1, n - 1);
    }
  }

  /** Taking the head of the remaining run onto the calls made so far. */
  lemma RunAppend(outs: seq<Address>, run: seq<Address>, rest: seq<Address>)
    requires |run| > 0 && run[1..] == rest
    ensures outs + run == (outs + [run[0]]) + rest
  {
    assert run == [run[0]] + run[1..];
  }

  class GoodProxyList {
    var proxies: seq<Address>
    var nextIdx: nat

    /** NewGoodProxyList: empty, cursor at 0. */
    constructor ()
      ensures proxies == [] && nextIdx == 0
    {
      proxies := [];
      nextIdx := 0;
    }

    /** next: the address under the cursor, advancing the cursor; ProxyListEmpty
        (and "") on an empty list. The list itself never changes. */
    method Next() returns (out: Address, err: Option<ListError>)
      modifies this`nextIdx
      ensures proxies == old(proxies)
      ensures |proxies| == 0 ==> out == [] && err == Some(ProxyListEmpty) && nextIdx == old(nextIdx)
      ensures |proxies| > 0 ==> err == None && out in proxies
      ensures |proxies| > 0 ==>
                out == proxies[Cursor(proxies, old(nextIdx))] &&
                nextIdx == Cursor(proxies, old(nextIdx)) + 1
    {
      if |proxies| == 0 {
        return [], Some(ProxyListEmpty);
      }
      if nextIdx >= |proxies| {
        nextIdx := 0;
      }
      out := proxies[nextIdx];
      nextIdx := nextIdx + 1;
      err := None;
    }

    /** n consecutive `next` calls on a list that does not change meanwhile, as a
        caller of the pool makes them: they return RoundRobin from the cursor,
        so from cursor 0 a list of n elements comes out in order and the next
        call wraps to its first element. */
    method NextRun(n: nat) returns (outs: seq<Address>)
      requires |proxies| > 0
      modifies this`nextIdx
      ensures proxies == old(proxies)
      ensures outs == RoundRobin(proxies, old(nextIdx), n)
      ensures old(nextIdx) == 0 && n == |proxies| + 1 ==> outs == proxies + [proxies[0]]
    {
      ghost var p, start := proxies, nextIdx;
      outs := [];
      var k := 0;
      while k < n
        invariant 0 <= k <= n
        invariant proxies == p
        invariant outs + RoundRobin(p, nextIdx, n - k) == RoundRobin(p, start, n)
      {
        ghost var run := RoundRobin(p, nextIdx, n - k);
        RoundRobinStep(p, nextIdx, n - k);
        var out, err := Next();
        RunAppend(outs, run, RoundRobin(p, nextIdx, n - k - 1));
        outs := outs + [out];
        k := k + 1;
      }
      if start == 0 && n == |p| + 1 {
        RoundRobinCycle(p);
      }
    }

    /** append: the address goes to the end; the earlier order stays. */
    method Append(proxyAddr: Address)
      modifies this`proxies
      ensures proxies == old(proxies) + [proxyAddr]
    {
      proxies := proxies + [proxyAddr];
    }

    /** remove: a linear search for the first match, which is overwritten by the
        last element before the list is truncated; a no-op when absent. The
        cursor is left where it was. */
    method Remove(proxyAddr: Address)
      modifies this`proxies
      ensures proxies == SwapRemove(old(proxies), proxyAddr)
      ensures multiset(proxies) == multiset(old(proxies)) - multiset{proxyAddr}
    {
      var idx := |proxies|;
      var i := 0;
      while i < |proxies|
        invariant 0 <= i <= |proxies|
        invariant idx == |proxies|
        invariant forall j :: 0 <= j < i ==> proxies[j] != proxyAddr
      {
        if proxies[i] == proxyAddr {
          idx := i;
          break;
        }
        i := i + 1;
      }
      assert idx == FirstIndex(proxies, proxyAddr);
      if idx < |proxies| {
        proxies := proxies[idx := proxies[|proxies| - 1]];
        proxies := proxies[..|proxies| - 1];
      }
      SwapRemoveSpec(old(proxies), proxyAddr);
    }
  }

  /** Removing the middle of three distinct addresses moves the last into its slot. */
  lemma SwapRemoveMiddle(one: Address, two: Address, three: Address)
    requires one != two && two != three && one != three
    ensures SwapRemove([one, two, three], two) == [one, three]
  {
    assert FirstIndex([one, two, three], two) == 1 by {
      assert [one, two, three][1..] == [two, three];
    }
  }

  /** The scenario of the package's own test: append one, two, three; `next`
      gives one; after removing two, `next` gives three, because removal moved
      three into two's slot and left the cursor at 1. One more `next` runs past
      the end of [one, three] and wraps to one. */
  method GoodProxyListScenario(one: Address, two: Address, three: Address)
    requires one != two && two != three && one != three
  {
    var gpl := new GoodProxyList();
    gpl.Append(one);
    gpl.Append(two);
    gpl.Append(three);
    assert gpl.proxies == [one, two, three];
    var n, err := gpl.Next();
    assert err == None && n == one && gpl.nextIdx == 1;
    SwapRemoveMiddle(one, two, three);
    gpl.Remove(two);
    assert gpl.proxies == [one, three];
    assert Cursor(gpl.proxies, gpl.nextIdx) == 1;
    n, err := gpl.Next();
    assert err == None && n == three && gpl.nextIdx == 2;
    assert Cursor(gpl.proxies, gpl.nextIdx) == 0;
    n, err := gpl.Next();
    assert err == None && n == one && gpl.nextIdx == 1;
  }
}
