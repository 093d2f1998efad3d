/** ProxyList (proxy_cache/proxy_list.go): a slice of records ordered by address,
    which the cache sorts after loading a snapshot so that it can binary-search it. */
module ProxyList {
  import opened ProxyRecord

  /** Go's `<` on strings: byte-wise lexicographic, a proper prefix is smaller. */
  predicate AddrLess(a: Address, b: Address)
    decreases |a|
  {
    if |a| == 0 then |b| > 0
    else if |b| == 0 then false
    else if a[0] != b[0] then a[0] < b[0]
    else AddrLess(a[1..], b[1..])
  }

  /** Go's `<=` on strings. */
  predicate AddrLe(a: Address, b: Address) {
    a == b || AddrLess(a, b)
  }

  lemma {:induction false} AddrLessIrreflexive(a: Address)
    ensures !AddrLess(a, a)
  {
    if |a| > 0 {
      AddrLessIrreflexive(a[1..]);
    }
  }

  lemma {:induction false} AddrLessTransitive(a: Address, b: Address, c: Address)
    requires AddrLess(a, b) && AddrLess(b, c)
    ensures AddrLess(a, c)
    decreases |a|
  {
    if |a| > 0 && |b| > 0 && |c| > 0 && a[0] == b[0] && b[0] == c[0] {
      AddrLessTransitive(a[1..], b[1..], c[1..]);
    }
  }

  /** Any two different addresses are ordered one way or the other. */
  lemma {:induction false} AddrLessTotal(a: Address, b: Address)
    ensures a == b || AddrLess(a, b) || AddrLess(b, a)
    decreases |a|
  {
    if |a| > 0 && |b| > 0 && a[0] == b[0] {
      AddrLessTotal(a[1..], b[1..]);
      if a[1..] == b[1..] {
        assert a == [a[0]] + a[1..] && b == [b[0]] + b[1..];
      }
    }
  }

  lemma {:induction false} AddrLessAsymmetric(a: Address, b: Address)
    ensures AddrLess(a, b) ==> !AddrLess(b, a)
  {
    if AddrLess(a, b) && AddrLess(b, a) {
      AddrLessTransitive(a, b, a);
      AddrLessIrreflexive(a);
    }
  }

  lemma AddrLeTransitive(a: Address, b: Address, c: Address)
    requires AddrLe(a, b) && AddrLe(b, c)
    ensures AddrLe(a, c)
  {
    if a != b && b != c {
      AddrLessTransitive(a, b, c);
    }
  }

  lemma AddrLeLessTransitive(a: Address, b: Address, c: Address)
    requires AddrLe(a, b) && AddrLess(b, c)
    ensures AddrLess(a, c)
  {
    if a != b {
      AddrLessTransitive(a, b, c);
    }
  }

  /** ProxyList.Len. */
  function Len(h: seq<Proxy>): nat {
    |h|
  }

  /** ProxyList.Less: compares the addresses of two positions and nothing else. */
  predicate Less(h: seq<Proxy>, i: int, j: int)
    requires 0 <= i < |h| && 0 <= j < |h|
    ensures Less(h, i, j) ==> h[i].addr != h[j].addr && !AddrLess(h[j].addr, h[i].addr)
  {
    AddrLessIrreflexive(h[i].addr);
    AddrLessAsymmetric(h[i].addr, h[j].addr);
    AddrLess(h[i].addr, h[j].addr)
  }

  /** Less ignores lastCheck and failCounter: two lists with the same addresses at
      positions i and j compare those positions alike. */
  lemma LessIgnoresHealth(h: seq<Proxy>, g: seq<Proxy>, i: int, j: int)
    requires 0 <= i < |h| && 0 <= j < |h| && 0 <= i < |g| && 0 <= j < |g|
    requires h[i].addr == g[i].addr && h[j].addr == g[j].addr
    ensures Less(h, i, j) == Less(g, i, j)
  {
  }

  /** Less is a strict order on positions: irreflexive and transitive. */
  lemma LessStrictOrder(h: seq<Proxy>, i: int, j: int, k: int)
    requires 0 <= i < |h| && 0 <= j < |h| && 0 <= k < |h|
    ensures !Less(h, i, i)
    ensures Less(h, i, j) && Less(h, j, k) ==> Less(h, i, k)
  {
    AddrLessIrreflexive(h[i].addr);
    if Less(h, i, j) && Less(h, j, k) {
      AddrLessTransitive(h[i].addr, h[j].addr, h[k].addr);
    }
  }

  /** ProxyList.Swap, in place on the slice's backing array. */
  method Swap(h: array<Proxy>, i: int, j: int)
    requires 0 <= i < h.Length && 0 <= j < h.Length
    modifies h
    ensures h[..] == old(h[..])[i := old(h[j])][j := old(h[i])]
  {
    h[i], h[j] := h[j], h[i];
  }

  /** Ascending by address, as sort.Sort leaves a ProxyList. */
  ghost predicate SortedByAddr(s: seq<Proxy>) {
    forall i, j :: 0 <= i < j < |s| ==> AddrLe(s[i].addr, s[j].addr)
  }

  /** Inserts p into an address-sorted list. */
  function Insert(p: Proxy, s: seq<Proxy>): (r: seq<Proxy>)
    requires SortedByAddr(s)
    ensures SortedByAddr(r)
    ensures multiset(r) == multiset(s) + multiset{p}
    decreases |s|
  {
    if s == [] then [p]
    else if AddrLe(p.addr, s[0].addr) then
      InsertFrontSorted(p, s);
      [p] + s
    else
      var t := Insert(p, s[1..]);
      assert s == [s[0]] + s[1..];
      InsertBehindSorted(p, s, t);
      [s[0]] + t
  }

  lemma InsertFrontSorted(p: Proxy, s: seq<Proxy>)
    requires SortedByAddr(s) && s != [] && AddrLe(p.addr, s[0].addr)
    ensures SortedByAddr([p] + s)
  {
    var r := [p] + s;
    forall i, j | 0 <= i < j < |r| ensures AddrLe(r[i].addr, r[j].addr) {
      if i == 0 && j > 1 {
        AddrLeTransitive(p.addr, s[0].addr, s[j - 1].addr);
      }
    }
  }

  lemma InsertBehindSorted(p: Proxy, s: seq<Proxy>, t: seq<Proxy>)
    requires SortedByAddr(s) && s != [] && !AddrLe(p.addr, s[0].addr)
    requires SortedByAddr(t) && multiset(t) == multiset(s[1..]) + multiset{p}
    ensures SortedByAddr([s[0]] + t)
  {
    var r := [s[0]] + t;
    AddrLessTotal(p.addr, s[0].addr);
    forall i, j | 0 <= i < j < |r| ensures AddrLe(r[i].addr, r[j].addr) {
      if i == 0 {
        var x := t[j - 1];
        assert x in multiset(t);
        if x == p {
        } else {
          assert x in multiset(s[1..]);
          var k :| 0 <= k < |s[1..]| && s[1..][k] == x;
          assert s[k + 1] == x;
        }
      }
    }
  }

  /** A model of sort.Sort on a ProxyList: the result is ascending by address and
      holds exactly the same records. */
  function SortByAddr(s: seq<Proxy>): (r: seq<Proxy>)
    ensures SortedByAddr(r)
    ensures multiset(r) == multiset(s)
    decreases |s|
  {
    if s == [] then []
    else
      assert s == [s[0]] + s[1..];
      Insert(s[0], SortByAddr(s[1..]))
  }
}
