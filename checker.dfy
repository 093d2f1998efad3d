/** The health-check scheduler (proxy_cache/checker.go): boot-time merge of the
    configured addresses with the saved snapshot, seeding of the healthy list, one
    iteration of the worker loop, the outcome of one check and the time gate on
    saving. The network check is a boolean input and the clock an instant `now`.

    The invariant the cache keeps: every record has a distinct address, and a
    record's failCounter is 0 exactly when its address is in the good list, which
    holds each address at most once. Records being checked count as records. */
module Checker {
  import opened ProxyRecord
  import opened ProxyList
  import opened Heap
  import opened GoodProxies

  // ---- saveProxyList's time gate ----

  /** A save is due unless the last one was less than 10 s before `now`. */
  predicate SaveDue(lastSaved: Instant, now: Instant) {
    !(now - AutoSaveTimeout < lastSaved)
  }

  /** saveProxyList: the new lastSaved, and the registry written, if a save was due.
      The rename to `.old` and the encoding are file I/O and are not modelled. */
  function SaveProxyList(lastSaved: Instant, now: Instant, registry: seq<Proxy>): (Instant, Option<seq<Proxy>>) {
    if SaveDue(lastSaved, now) then (now, Some(registry)) else (lastSaved, None)
  }

  /** Two saves in a row, made with the lastSaved the first returned, are at least
      10 s apart. */
  lemma SavesAreSpaced(lastSaved: Instant, t1: Instant, t2: Instant, reg1: seq<Proxy>, reg2: seq<Proxy>)
    requires SaveProxyList(lastSaved, t1, reg1).1.Some?
    requires SaveProxyList(SaveProxyList(lastSaved, t1, reg1).0, t2, reg2).1.Some?
    ensures t2 - t1 >= AutoSaveTimeout
  {
  }

  // ---- LoadCache and the merge of readProxiesFromFile ----

  /** LoadCache: no snapshot file gives nil; a snapshot is sorted by address. */
  function LoadCache(stored: Option<seq<Proxy>>): (r: Option<seq<Proxy>>)
    ensures r.None? <==> stored.None?
    ensures r.Some? ==> SortedByAddr(r.value) && multiset(r.value) == multiset(stored.value)
  {
    match stored
    case None => None
    case Some(s) => Some(SortByAddr(s))
  }

  /** sort.Search with the predicate of checker.go:253, `list[h].Addr >= addr`:
      the loop of the library's binary search. */
  method Search(list: seq<Proxy>, addr: Address) returns (i: nat)
    ensures i <= |list|
    ensures i < |list| ==> !AddrLess(list[i].addr, addr)
    ensures 0 < i ==> AddrLess(list[i - 1].addr, addr)
    ensures SortedByAddr(list) ==> forall k :: 0 <= k < i ==> AddrLess(list[k].addr, addr)
    ensures SortedByAddr(list) ==> forall k :: i <= k < |list| ==> !AddrLess(list[k].addr, addr)
  {
    var lo, hi := 0, |list|;
    while lo < hi
      invariant 0 <= lo <= hi <= |list|
      invariant 0 < lo ==> AddrLess(list[lo - 1].addr, addr)
      invariant hi < |list| ==> !AddrLess(list[hi].addr, addr)
      invariant SortedByAddr(list) ==> forall k :: 0 <= k < lo ==> AddrLess(list[k].addr, addr)
      invariant SortedByAddr(list) ==> forall k :: hi <= k < |list| ==> !AddrLess(list[k].addr, addr)
    {
      var h := (lo + hi) / 2;
      if AddrLess(list[h].addr, addr) {
        if SortedByAddr(list) {
          forall k | 0 <= k <= h ensures AddrLess(list[k].addr, addr) {
            if k < h {
              AddrLeLessTransitive(list[k].addr, list[h].addr, addr);
            }
          }
        }
        lo := h + 1;
      } else {
        if SortedByAddr(list) {
          forall k | h <= k < |list| ensures !AddrLess(list[k].addr, addr) {
            if h < k && AddrLess(list[k].addr, addr) {
              AddrLeLessTransitive(list[h].addr, list[k].addr, addr);
            }
          }
        }
        hi := h;
      }
    }
    i := lo;
  }

  /** A configured address without a saved record: failCounter 1 (unhealthy until
      a check succeeds) and the zero lastCheck. */
  function NewProxy(addr: Address): (r: Proxy)
    ensures r.addr == addr && r.failCounter != 0
  {
    Proxy(addr, ZeroTime, 1)
  }

  /** The first position of list holding a record for addr, or |list|. */
  function FirstWithAddr(list: seq<Proxy>, addr: Address): (k: nat)
    ensures k <= |list|
    ensures k < |list| <==> exists j :: 0 <= j < |list| && list[j].addr == addr
    ensures k < |list| ==> list[k].addr == addr
    ensures forall j :: 0 <= j < k ==> list[j].addr != addr
    decreases |list|
  {
    if list == [] then 0
    else if list[0].addr == addr then 0
    else
      var k := FirstWithAddr(list[1..], addr);
      assert forall j :: 1 <= j < |list| ==> list[j] == list[1..][j - 1];
      k + 1
  }

  /** The record a configured address gets from the loaded snapshot: the first
      saved record with that address, or a new one. */
  function Lookup(proxyList: Option<seq<Proxy>>, addr: Address): (r: Proxy)
    ensures r.addr == addr
  {
    match proxyList
    case None => NewProxy(addr)
    case Some(list) =>
      var k := FirstWithAddr(list, addr);
      if k < |list| then list[k] else NewProxy(addr)
  }

  /** The merge as a value: one record per configured line, in input order. */
  function Merged(lines: seq<Address>, proxyList: Option<seq<Proxy>>): (r: seq<Proxy>)
    ensures |r| == |lines|
  {
    seq(|lines|, k requires 0 <= k < |lines| => Lookup(proxyList, lines[k]))
  }

  /** On a sorted list, the search and the test of checker.go:254 find exactly
      the first record for the address, and only when there is one. */
  lemma SearchFindsFirst(list: seq<Proxy>, addr: Address, i: nat)
    requires SortedByAddr(list) && i <= |list|
    requires forall k :: 0 <= k < i ==> AddrLess(list[k].addr, addr)
    requires forall k :: i <= k < |list| ==> !AddrLess(list[k].addr, addr)
    ensures (if i == |list| || list[i].addr != addr then NewProxy(addr) else list[i]) == Lookup(Some(list), addr)
    ensures i == |list| || list[i].addr != addr <==> forall j :: 0 <= j < |list| ==> list[j].addr != addr
  {
    AddrLessIrreflexive(addr);
    assert forall k :: 0 <= k < i ==> list[k].addr != addr;
    if i == |list| || list[i].addr != addr {
      forall j | i <= j < |list| ensures list[j].addr != addr {
        assert AddrLe(list[i].addr, list[j].addr);
      }
    }
  }

  /** What a configured address inherits: a record with its address; a saved
      record when the snapshot has one for it; a new record otherwise. */
  lemma LookupSpec(stored: Option<seq<Proxy>>, addr: Address)
    ensures Lookup(LoadCache(stored), addr).addr == addr
    ensures stored.Some? && (exists r :: r in stored.value && r.addr == addr) ==>
              Lookup(LoadCache(stored), addr) in stored.value
    ensures stored.None? || (forall r :: r in stored.value ==> r.addr != addr) ==>
              Lookup(LoadCache(stored), addr) == NewProxy(addr)
  {
    if stored.Some? {
      var list := LoadCache(stored).value;
      var k := FirstWithAddr(list, addr);
      if k < |list| {
        assert list[k] in multiset(list);
      }
      if exists r :: r in stored.value && r.addr == addr {
        var r :| r in stored.value && r.addr == addr;
        assert r in multiset(list);
        var j :| 0 <= j < |list| && list[j] == r;
      }
    }
  }

  /** With one saved record per address, a configured address inherits exactly the
      saved record for it. */
  lemma LookupUnique(stored: seq<Proxy>, r: Proxy)
    requires forall r1, r2 :: r1 in stored && r2 in stored && r1.addr == r2.addr ==> r1 == r2
    requires r in stored
    ensures Lookup(LoadCache(Some(stored)), r.addr) == r
  {
    LookupSpec(Some(stored), r.addr);
  }

  /** The lookup of one configured address in the loaded snapshot: the position
      of its saved record, or -1 when there is no snapshot or no record for it. */
  method FindCached(proxyList: Option<seq<Proxy>>, addr: Address) returns (i: int)
    requires proxyList.Some? ==> SortedByAddr(proxyList.value)
    ensures i == -1 <==> proxyList.None? || forall j :: 0 <= j < |proxyList.value| ==> proxyList.value[j].addr != addr
    ensures i == -1 ==> Lookup(proxyList, addr) == NewProxy(addr)
    ensures i != -1 ==> proxyList.Some? && 0 <= i < |proxyList.value| && proxyList.value[i] == Lookup(proxyList, addr)
    ensures i != -1 ==> proxyList.value[i].addr == addr
    ensures i != -1 ==> i == FirstWithAddr(proxyList.value, addr)
  {
    i := -1;
    if proxyList.Some? {
      var found := Search(proxyList.value, addr);
      SearchFindsFirst(proxyList.value, addr, found);
      i := found;
      if i == |proxyList.value| || proxyList.value[i].addr != addr {
        i := -1;
      }
    }
  }

  /** Whether the loaded snapshot holds a record for addr. */
  predicate HasSaved(proxyList: Option<seq<Proxy>>, addr: Address) {
    proxyList.Some? && exists j :: 0 <= j < |proxyList.value| && proxyList.value[j].addr == addr
  }

  /** The number of lines that have a record in the loaded snapshot. */
  function SavedCount(lines: seq<Address>, proxyList: Option<seq<Proxy>>): (c: nat)
    ensures c <= |lines|
    ensures proxyList.None? ==> c == 0
    ensures (forall k :: 0 <= k < |lines| ==> HasSaved(proxyList, lines[k])) ==> c == |lines|
    decreases |lines|
  {
    if lines == [] then 0
    else
      var init := lines[..|lines| - 1];
      assert forall k :: 0 <= k < |init| ==> init[k] == lines[k];
      SavedCount(init, proxyList) + (if HasSaved(proxyList, lines[|lines| - 1]) then 1 else 0)
  }

  /** The merge loop of readProxiesFromFile over the lines of the proxy file and
      the snapshot LoadCache read (None when there is no file). */
  method ReadProxiesFromFile(lines: seq<Address>, stored: Option<seq<Proxy>>)
    returns (result: seq<Proxy>, newProxies: nat, cachedProxies: nat)
    ensures result == Merged(lines, LoadCache(stored))
    ensures cachedProxies == SavedCount(lines, LoadCache(stored))
    ensures newProxies == |lines| - cachedProxies
    ensures stored.None? ==> cachedProxies == 0
  {
    var proxyList := LoadCache(stored);
    result := [];
    newProxies, cachedProxies := 0, 0;
    var n := 0;
    while n < |lines|
      invariant 0 <= n <= |lines|
      invariant result == Merged(lines[..n], proxyList)
      invariant cachedProxies == SavedCount(lines[..n], proxyList)
      invariant newProxies + cachedProxies == n
    {
      var i := FindCached(proxyList, lines[n]);
      MergedStep(lines, n, proxyList);
      if i == -1 {
        result := result + [NewProxy(lines[n])];
        newProxies := newProxies + 1;
      } else {
        result := result + [proxyList.value[i]];
        cachedProxies := cachedProxies + 1;
      }
      n := n + 1;
    }
    assert lines[..n] == lines;
  }

  /** The merge of one more line appends that line's record, and counts it
      when the snapshot has a record for it. */
  lemma MergedStep(lines: seq<Address>, n: nat, proxyList: Option<seq<Proxy>>)
    requires n < |lines|
    ensures Merged(lines[..n + 1], proxyList) == Merged(lines[..n], proxyList) + [Lookup(proxyList, lines[n])]
    ensures SavedCount(lines[..n + 1], proxyList) ==
              SavedCount(lines[..n], proxyList) + (if HasSaved(proxyList, lines[n]) then 1 else 0)
  {
    assert lines[..n + 1][..n] == lines[..n];
  }

  /** The merge keeps one record per line, with that line's address; a line found
      in the snapshot inherits a saved record, any other line is new. */
  lemma MergedSpec(lines: seq<Address>, stored: Option<seq<Proxy>>, k: nat)
    requires k < |lines|
    ensures Merged(lines, LoadCache(stored))[k].addr == lines[k]
    ensures stored.Some? && (exists r :: r in stored.value && r.addr == lines[k]) ==>
              Merged(lines, LoadCache(stored))[k] in stored.value
    ensures stored.None? || (forall r :: r in stored.value ==> r.addr != lines[k]) ==>
              Merged(lines, LoadCache(stored))[k] == NewProxy(lines[k])
  {
    LookupSpec(stored, lines[k]);
  }

  /** Health survives a restart: booting from the registry as saved gives every
      configured address whose record was saved exactly that record. */
  lemma RestartKeepsRecords(registry: seq<Proxy>, lines: seq<Address>, k: nat, r: Proxy)
    requires forall r1, r2 :: r1 in registry && r2 in registry && r1.addr == r2.addr ==> r1 == r2
    requires k < |lines| && r in registry && r.addr == lines[k]
    ensures Merged(lines, LoadCache(Some(registry)))[k] == r
  {
    LookupUnique(registry, r);
  }

  // ---- the invariant ----

  /** The addresses of the records with failCounter 0, in order. */
  function GoodAddrs(ps: seq<Proxy>): (g: seq<Address>)
    ensures forall a :: a in g <==> exists r :: r in ps && r.failCounter == 0 && r.addr == a
    decreases |ps|
  {
    if ps == [] then []
    else
      var init := ps[..|ps| - 1];
      var last := ps[|ps| - 1];
      assert ps == init + [last];
      GoodAddrs(init) + (if last.failCounter == 0 then [last.addr] else [])
  }

  ghost predicate UniqueAddrs(ps: seq<Proxy>) {
    forall i, j :: 0 <= i < j < |ps| ==> ps[i].addr != ps[j].addr
  }

  /** One copy of each record, and no two records for one address. */
  ghost predicate UniqueRecords(m: multiset<Proxy>) {
    && (forall r :: r in m ==> m[r] == 1)
    && (forall r1, r2 :: r1 in m && r2 in m && r1.addr == r2.addr ==> r1 == r2)
  }

  /** No good address is listed twice. */
  ghost predicate GoodOnce(gm: multiset<Address>) {
    forall a :: gm[a] <= 1
  }

  /** failCounter == 0 exactly for the records whose address is good. */
  ghost predicate HealthyIffGood(m: multiset<Proxy>, gm: multiset<Address>) {
    forall r :: r in m ==> (r.failCounter == 0 <==> r.addr in gm)
  }

  /** The addresses of a collection of records. */
  ghost function Addrs(m: multiset<Proxy>): set<Address> {
    set r | r in m :: r.addr
  }

  /** Every good address belongs to a record. */
  ghost predicate GoodHaveRecords(m: multiset<Proxy>, gm: multiset<Address>) {
    forall a :: a in gm ==> a in Addrs(m)
  }

  /** The invariant, over the records and the good addresses counted with
      multiplicity. */
  ghost predicate ConsistentM(m: multiset<Proxy>, gm: multiset<Address>) {
    UniqueRecords(m) && GoodOnce(gm) && HealthyIffGood(m, gm) && GoodHaveRecords(m, gm)
  }

  /** The invariant over the records and the good list itself. */
  ghost predicate Consistent(m: multiset<Proxy>, good: seq<Address>) {
    ConsistentM(m, multiset(good))
  }

  /** The good addresses once q joins the records. */
  function GoodWith(gm: multiset<Address>, q: Proxy): multiset<Address> {
    if q.failCounter == 0 then gm + multiset{q.addr} else gm
  }

  /** The good addresses once p leaves the records. */
  function GoodWithout(gm: multiset<Address>, p: Proxy): multiset<Address> {
    if p.failCounter == 0 then gm - multiset{p.addr} else gm
  }

  lemma AddKeepsUnique(m: multiset<Proxy>, q: Proxy)
    requires UniqueRecords(m)
    requires forall r :: r in m ==> r.addr != q.addr
    ensures UniqueRecords(m + multiset{q})
  {
    assert q !in m;
  }

  lemma AddKeepsGood(m: multiset<Proxy>, gm: multiset<Address>, q: Proxy)
    requires ConsistentM(m, gm)
    requires forall r :: r in m ==> r.addr != q.addr
    ensures q.addr !in gm
    ensures GoodOnce(GoodWith(gm, q))
    ensures HealthyIffGood(m + multiset{q}, GoodWith(gm, q))
  {
  }

  lemma AddKeepsRecords(m: multiset<Proxy>, gm: multiset<Address>, q: Proxy)
    requires GoodHaveRecords(m, gm)
    ensures GoodHaveRecords(m + multiset{q}, GoodWith(gm, q))
  {
    var m' := m + multiset{q};
    forall a | a in GoodWith(gm, q) ensures exists r :: r in m' && r.addr == a {
      if a == q.addr {
        assert q in m';
      } else {
        var r :| r in m && r.addr == a;
        assert r in m';
      }
    }
  }

  /** A new record for an address no record has keeps the invariant once its
      address is added to the good addresses when it is healthy. */
  lemma AddRecord(m: multiset<Proxy>, gm: multiset<Address>, q: Proxy)
    requires ConsistentM(m, gm)
    requires forall r :: r in m ==> r.addr != q.addr
    ensures ConsistentM(m + multiset{q}, GoodWith(gm, q))
  {
    AddKeepsUnique(m, q);
    AddKeepsGood(m, gm, q);
    AddKeepsRecords(m, gm, q);
  }

  lemma RemoveKeepsUnique(m: multiset<Proxy>, p: Proxy)
    requires UniqueRecords(m) && p in m
    ensures UniqueRecords(m - multiset{p})
    ensures forall r :: r in m - multiset{p} ==> r.addr != p.addr
  {
    assert m[p] == 1 && (m - multiset{p})[p] == 0;
  }

  lemma RemoveKeepsGood(m: multiset<Proxy>, gm: multiset<Address>, p: Proxy)
    requires ConsistentM(m, gm) && p in m
    requires forall r :: r in m - multiset{p} ==> r.addr != p.addr
    ensures p.addr !in GoodWithout(gm, p)
    ensures GoodOnce(GoodWithout(gm, p))
    ensures HealthyIffGood(m - multiset{p}, GoodWithout(gm, p))
  {
  }

  lemma RemoveKeepsRecords(m: multiset<Proxy>, gm: multiset<Address>, p: Proxy)
    requires GoodHaveRecords(m, gm) && p in m
    requires forall r :: r in m - multiset{p} ==> r.addr != p.addr
    requires p.addr !in GoodWithout(gm, p)
    ensures GoodHaveRecords(m - multiset{p}, GoodWithout(gm, p))
  {
    var m' := m - multiset{p};
    forall a | a in GoodWithout(gm, p) ensures exists r :: r in m' && r.addr == a {
      var r :| r in m && r.addr == a;
      assert r != p;
      assert r in m';
    }
  }

  /** Taking a record out keeps the invariant once its address is taken out of
      the good addresses when it was healthy; no record left has its address. */
  lemma RemoveRecord(m: multiset<Proxy>, gm: multiset<Address>, p: Proxy)
    requires ConsistentM(m, gm) && p in m
    ensures ConsistentM(m - multiset{p}, GoodWithout(gm, p))
    ensures forall r :: r in m - multiset{p} ==> r.addr != p.addr
  {
    RemoveKeepsUnique(m, p);
    RemoveKeepsGood(m, gm, p);
    RemoveKeepsRecords(m, gm, p);
  }

  /** Under the invariant each good address is the address of a healthy record. */
  lemma GoodIsHealthy(m: multiset<Proxy>, good: seq<Address>, a: Address)
    requires Consistent(m, good) && a in good
    ensures exists r :: r in m && r.addr == a && r.failCounter == 0
  {
    assert a in multiset(good);
    var r :| r in m && r.addr == a;
    assert r.failCounter == 0;
  }

  /** Seeding records with distinct addresses, in any order, establishes the
      invariant. */
  lemma {:induction false} SeedConsistent(ps: seq<Proxy>)
    requires UniqueRecords(multiset(ps))
    ensures Consistent(multiset(ps), GoodAddrs(ps))
    decreases |ps|
  {
    if ps == [] {
    } else {
      var init := ps[..|ps| - 1];
      var last := ps[|ps| - 1];
      assert ps == init + [last];
      UniqueWithout(multiset(init), last);
      SeedConsistent(init);
      AddRecord(multiset(init), multiset(GoodAddrs(init)), last);
      assert multiset(GoodAddrs(ps)) == GoodWith(multiset(GoodAddrs(init)), last);
    }
  }

  /** Without one of its records, a collection of unique records stays unique,
      and no record left has the address of the one taken out. */
  lemma UniqueWithout(m: multiset<Proxy>, x: Proxy)
    requires UniqueRecords(m + multiset{x})
    ensures UniqueRecords(m)
    ensures forall r :: r in m ==> r.addr != x.addr
  {
    var m' := m + multiset{x};
    assert m'[x] == m[x] + 1;
    assert x !in m;
    forall r | r in m ensures m[r] == 1 && r.addr != x.addr {
      assert r != x && r in m';
    }
  }

  /** A list of records with distinct addresses holds distinct records, once each. */
  lemma {:induction false} UniqueAddrsRecords(ps: seq<Proxy>)
    requires UniqueAddrs(ps)
    ensures UniqueRecords(multiset(ps))
    decreases |ps|
  {
    if ps != [] {
      var init := ps[..|ps| - 1];
      var last := ps[|ps| - 1];
      assert ps == init + [last];
      assert UniqueAddrs(init) by {
        forall i, j | 0 <= i < j < |init| ensures init[i].addr != init[j].addr {
          assert init[i] == ps[i] && init[j] == ps[j];
        }
      }
      UniqueAddrsRecords(init);
      LastIsNew(ps);
      AddKeepsUnique(multiset(init), last);
    }
  }

  /** With distinct addresses, no earlier record has the last one's address. */
  lemma LastIsNew(ps: seq<Proxy>)
    requires UniqueAddrs(ps) && |ps| > 0
    ensures forall r :: r in multiset(ps[..|ps| - 1]) ==> r.addr != ps[|ps| - 1].addr
  {
    var init := ps[..|ps| - 1];
    forall r: Proxy | r in multiset(init) ensures r.addr != ps[|ps| - 1].addr {
      var i :| 0 <= i < |init| && init[i] == r;
      assert ps[i] == r;
    }
  }

  /** The seeding loop's step: one more record, and its address when healthy. */
  lemma GoodAddrsStep(ps: seq<Proxy>, i: nat)
    requires i < |ps|
    ensures GoodAddrs(ps[..i + 1]) == GoodAddrs(ps[..i]) + (if ps[i].failCounter == 0 then [ps[i].addr] else [])
  {
    assert ps[..i + 1][..i] == ps[..i];
  }

  /** The cache right after seeding: nothing in flight, the invariant holds. */
  lemma Seeded(ps: seq<Proxy>, inFlight: multiset<Proxy>, good: seq<Address>)
    requires UniqueRecords(multiset(ps)) && inFlight == multiset{} && good == GoodAddrs(ps)
    ensures Consistent(multiset(ps) + inFlight, good)
  {
    SeedConsistent(ps);
    assert multiset(ps) + inFlight == multiset(ps);
  }

  /** The cache as NewProxyCache leaves it, with the merged records in
      whatever order heap.Init put them and the good list seeded in that order,
      satisfies the invariant when the configured lines are distinct. */
  lemma BootConsistent(lines: seq<Address>, stored: Option<seq<Proxy>>,
                       ps: seq<Proxy>, inFlight: multiset<Proxy>, good: seq<Address>)
    requires multiset(ps) == multiset(Merged(lines, LoadCache(stored)))
    requires inFlight == multiset{} && good == GoodAddrs(ps)
    ensures (forall i, j :: 0 <= i < j < |lines| ==> lines[i] != lines[j]) ==>
              Consistent(multiset(ps) + inFlight, good)
  {
    if forall i, j :: 0 <= i < j < |lines| ==> lines[i] != lines[j] {
      MergedUnique(lines, stored);
      UniqueAddrsRecords(Merged(lines, LoadCache(stored)));
      Seeded(ps, inFlight, good);
    }
  }

  /** Distinct configured lines give records with distinct addresses. */
  lemma MergedUnique(lines: seq<Address>, stored: Option<seq<Proxy>>)
    requires forall i, j :: 0 <= i < j < |lines| ==> lines[i] != lines[j]
    ensures UniqueAddrs(Merged(lines, LoadCache(stored)))
  {
    var ps := Merged(lines, LoadCache(stored));
    forall k | 0 <= k < |lines| ensures ps[k].addr == lines[k] {
      MergedSpec(lines, stored, k);
    }
  }

  /** A duplicated line breaks the invariant: a healthy saved record for it is
      seeded twice into the good list. */
  lemma DuplicateLineBreaksSeeding(x: Proxy)
    requires x.failCounter == 0
    ensures Merged([x.addr, x.addr], LoadCache(Some([x]))) == [x, x]
    ensures multiset(GoodAddrs([x, x]))[x.addr] == 2
    ensures !Consistent(multiset([x, x]), GoodAddrs([x, x]))
  {
    assert [x][..0] == [];
    assert GoodAddrs([x]) == [x.addr];
    assert [x, x][..1] == [x];
    assert GoodAddrs([x, x]) == [x.addr, x.addr];
    assert LoadCache(Some([x])) == Some([x]);
    assert FirstWithAddr([x], x.addr) == 0;
  }

  // ---- the outcome of one check (checkProxy) ----

  /** The record after a check at `now`: a success clears failCounter, a failure
      adds one; lastCheck becomes `now` either way. */
  function AfterCheck(p: Proxy, checkResult: bool, now: Instant): (q: Proxy)
    ensures q.addr == p.addr && q.lastCheck == now
    ensures q.failCounter == if checkResult then 0 else p.failCounter + 1
  {
    var q := if checkResult then p.(failCounter := 0) else p.(failCounter := p.failCounter + 1);
    q.(lastCheck := now)
  }

  /** The good list after a check: appended to on a success of an unhealthy record,
      removed from on a failure of a healthy one, untouched otherwise. */
  function GoodAfterCheck(good: seq<Address>, p: Proxy, checkResult: bool): (r: seq<Address>)
    ensures checkResult ==> multiset(good) <= multiset(r) && |r| <= |good| + 1
    ensures !checkResult ==> multiset(r) <= multiset(good) && |good| <= |r| + 1
    ensures p.addr in r <==> (checkResult && (p.failCounter != 0 || p.addr in good)) ||
                             (!checkResult && p.failCounter != 0 && p.addr in good) ||
                             (!checkResult && multiset(good)[p.addr] > 1)
  {
    SwapRemoveSpec(good, p.addr);
    if checkResult then
      if p.failCounter != 0 then good + [p.addr] else good
    else
      if p.failCounter == 0 then SwapRemove(good, p.addr) else good
  }

  /** A check keeps the invariant: its record set changes only by the new version
      of the checked record and the good list follows its failCounter. */
  lemma CheckPreservesConsistency(m: multiset<Proxy>, good: seq<Address>, p: Proxy, checkResult: bool, now: Instant)
    requires Consistent(m, good) && p in m
    ensures Consistent(m - multiset{p} + multiset{AfterCheck(p, checkResult, now)},
                       GoodAfterCheck(good, p, checkResult))
  {
    var q := AfterCheck(p, checkResult, now);
    var gm := multiset(good);
    RemoveRecord(m, gm, p);
    var gm1 := GoodWithout(gm, p);
    AddRecord(m - multiset{p}, gm1, q);
    var gm2 := GoodWith(gm1, q);
    if checkResult && p.failCounter == 0 {
      assert gm[p.addr] == 1;
      assert gm2 == gm;
    } else if !checkResult && p.failCounter == 0 {
      SwapRemoveSpec(good, p.addr);
    }
    assert multiset(GoodAfterCheck(good, p, checkResult)) == gm2;
  }

  /** Failure, failure, success on a healthy record: the first failure removes it
      from the good list with failCounter 1, the second removes nothing and makes it
      2, and the success puts it back at the end with failCounter 0. */
  lemma FailFailSucceed(m: multiset<Proxy>, good: seq<Address>, p: Proxy, t1: Instant, t2: Instant, t3: Instant)
    requires Consistent(m, good) && p in m && p.failCounter == 0
    ensures var p1, g1 := AfterCheck(p, false, t1), GoodAfterCheck(good, p, false);
            var p2, g2 := AfterCheck(p1, false, t2), GoodAfterCheck(g1, p1, false);
            var p3, g3 := AfterCheck(p2, true, t3), GoodAfterCheck(g2, p2, true);
            && p1.failCounter == 1 && p.addr !in g1 && multiset(g1) == multiset(good) - multiset{p.addr}
            && p2.failCounter == 2 && g2 == g1
            && p3.failCounter == 0 && g3 == g1 + [p.addr]
  {
    var g1 := GoodAfterCheck(good, p, false);
    SwapRemoveSpec(good, p.addr);
    assert multiset(good)[p.addr] == 1;
    assert multiset(g1)[p.addr] == 0;
  }

  /** Taking x out of the records in flight and pushing y into the waiting ones
      replaces x by y among all of them. */
  lemma MoveRecord(waiting: multiset<Proxy>, inFlight: multiset<Proxy>, x: Proxy, y: Proxy)
    requires x in inFlight
    ensures (waiting + multiset{y}) + (inFlight - multiset{x}) == (waiting + inFlight) - multiset{x} + multiset{y}
  {
  }

  /** One check, as the cache sees it: the checked record leaves the records in
      flight and its new version joins the waiting ones; the invariant holds for
      the new records and the new good list. */
  lemma CheckStep(waiting: seq<Proxy>, inFlight: multiset<Proxy>, good: seq<Address>,
                  waiting': seq<Proxy>, inFlight': multiset<Proxy>, good': seq<Address>,
                  p: Proxy, checkResult: bool, now: Instant)
    requires Consistent(multiset(waiting) + inFlight, good) && p in inFlight
    requires waiting' == waiting + [AfterCheck(p, checkResult, now)]
    requires inFlight' == inFlight - multiset{p}
    requires good' == GoodAfterCheck(good, p, checkResult)
    ensures multiset(waiting') + inFlight' == multiset(waiting) + inFlight - multiset{p} + multiset{AfterCheck(p, checkResult, now)}
    ensures Consistent(multiset(waiting') + inFlight', good')
  {
    var q := AfterCheck(p, checkResult, now);
    CheckPreservesConsistency(multiset(waiting) + inFlight, good, p, checkResult, now);
    assert multiset(waiting') == multiset(waiting) + multiset{q};
    MoveRecord(multiset(waiting), inFlight, p, q);
  }

  /** Popping a due record and handing it to a check moves it from the waiting
      records to those in flight: the records and the invariant stay. */
  lemma DispatchKeeps(waiting: seq<Proxy>, inFlight: multiset<Proxy>, good: seq<Address>,
                      waiting': seq<Proxy>, inFlight': multiset<Proxy>, x: Proxy)
    requires Consistent(multiset(waiting) + inFlight, good)
    requires multiset(waiting') + multiset{x} == multiset(waiting) && inFlight' == inFlight + multiset{x}
    ensures multiset(waiting') + inFlight' == multiset(waiting) + inFlight
    ensures Consistent(multiset(waiting') + inFlight', good)
  {
  }

  /** Popping a record that is not due and pushing it back leaves the waiting
      records as they were, counted with multiplicity, and so the invariant. */
  lemma RequeueKeeps(waiting: seq<Proxy>, inFlight: multiset<Proxy>, good: seq<Address>,
                     rest: seq<Proxy>, waiting': seq<Proxy>, x: Proxy)
    requires Consistent(multiset(waiting) + inFlight, good)
    requires multiset(rest) + multiset{x} == multiset(waiting) && waiting' == rest + [x]
    ensures multiset(waiting') == multiset(waiting)
    ensures Consistent(multiset(waiting') + inFlight, good)
  {
    assert multiset(waiting') == multiset(rest) + multiset{x};
  }

  /** When the popped record, which no remaining record is isLess than, is not
      due, no waiting record is: MinimalNotDue on the heap with it pushed back. */
  lemma NothingDue(rest: seq<Proxy>, x: Proxy, waiting': seq<Proxy>, now: Instant)
    requires forall y :: y in rest ==> !IsLess(y, x, now)
    requires RecheckIn(x, now) > 0 && waiting' == rest + [x]
    ensures forall r :: r in waiting' ==> RecheckIn(r, now) > 0
  {
    var k := |waiting'| - 1;
    forall j | 0 <= j < |waiting'| ensures !IsLess(waiting'[j], waiting'[k], now) {
      if j < k {
        assert waiting'[j] in rest;
      } else {
        IsLessStrictOrder(x, x, x, now);
      }
    }
    MinimalNotDue(waiting', k, now);
    forall r | r in waiting' ensures RecheckIn(r, now) > 0 {
      var j :| 0 <= j < |waiting'| && waiting'[j] == r;
    }
  }

  // ---- the cache ----

  /** What one iteration of the worker loop did. */
  datatype StepOutcome =
    | Idle                                    // the heap was empty
    | Requeued(proxy: Proxy, wait: Duration)  // the popped record was not due: pushed back
    | Dispatched(proxy: Proxy)                // it was due: handed to checkProxy

  /** CacheContext: the records waiting in the heap, the good list, and (ghost)
      the records whose check is running. */
  class CacheContext {
    const proxies: ProxyHeap
    const goodProxyList: GoodProxyList
    ghost var inFlight: multiset<Proxy>

    /** Every record the cache knows: waiting or being checked. */
    ghost function Records(): multiset<Proxy>
      reads this, proxies
    {
      multiset(proxies.items) + inFlight
    }

    ghost predicate Valid()
      reads this, proxies, goodProxyList
    {
      Consistent(Records(), goodProxyList.proxies)
    }

    /** NewProxyCache: merge the proxy file's lines with the snapshot, let
        heap.Init rearrange the records, then seed the good list, in the heap's
        order, with the records whose failCounter is 0. */
    constructor (lines: seq<Address>, stored: Option<seq<Proxy>>, now: Instant)
      ensures fresh(proxies) && fresh(goodProxyList)
      ensures multiset(proxies.items) == multiset(Merged(lines, LoadCache(stored))) && inFlight == multiset{}
      ensures goodProxyList.proxies == GoodAddrs(proxies.items) && goodProxyList.nextIdx == 0
      ensures (forall i, j :: 0 <= i < j < |lines| ==> lines[i] != lines[j]) ==> Valid()
    {
      var result, _, _ := ReadProxiesFromFile(lines, stored);
      proxies := new ProxyHeap(result);
      goodProxyList := new GoodProxyList();
      inFlight := multiset{};
      new;
      proxies.Init(now);
      var heaped := proxies.items;
      var i := 0;
      while i < |heaped|
        invariant 0 <= i <= |heaped|
        invariant proxies.items == heaped && goodProxyList.nextIdx == 0 && inFlight == multiset{}
        invariant goodProxyList.proxies == GoodAddrs(heaped[..i])
      {
        GoodAddrsStep(heaped, i);
        if heaped[i].failCounter == 0 {
          goodProxyList.Append(heaped[i].addr);
        }
        i := i + 1;
      }
      assert heaped[..i] == heaped;
      BootConsistent(lines, stored, proxies.items, inFlight, goodProxyList.proxies);
    }

    /** NextProxy: the good list's `next`; an address it hands out belongs to a
        record with failCounter 0. */
    method NextProxy() returns (out: Address, err: Option<ListError>)
      modifies goodProxyList`nextIdx
      ensures old(Valid()) ==> Valid()
      ensures goodProxyList.proxies == old(goodProxyList.proxies)
      ensures err == None <==> |goodProxyList.proxies| > 0
      ensures err != None ==> out == [] && err == Some(ProxyListEmpty) && goodProxyList.nextIdx == old(goodProxyList.nextIdx)
      ensures err == None ==>
                && out == goodProxyList.proxies[Cursor(goodProxyList.proxies, old(goodProxyList.nextIdx))]
                && goodProxyList.nextIdx == Cursor(goodProxyList.proxies, old(goodProxyList.nextIdx)) + 1
      ensures old(Valid()) && err == None ==> exists r :: r in Records() && r.addr == out && r.failCounter == 0
    {
      out, err := goodProxyList.Next();
      if err == None && Valid() {
        GoodIsHealthy(Records(), goodProxyList.proxies, out);
      }
    }

    /** One iteration of the worker loop at `now`: the save gate, then, if the
        heap is not empty, Schedule an isLess-minimal record. The 10 s sleep and
        the wait for a free slot in the check pool only delay the next
        iteration. */
    method WorkerStep(lastSaved: Instant, now: Instant)
      returns (saved: Instant, written: Option<seq<Proxy>>, outcome: StepOutcome)
      modifies this, proxies
      ensures old(Valid()) ==> Valid()
      ensures (saved, written) == SaveProxyList(lastSaved, now, old(proxies.items))
      ensures Records() == old(Records())
      ensures outcome.Idle? <==> |old(proxies.items)| == 0
      ensures outcome.Idle? ==> proxies.items == old(proxies.items) && inFlight == old(inFlight)
      ensures outcome.Requeued? ==>
                && outcome.wait == RecheckIn(outcome.proxy, now) && outcome.wait > 0
                && inFlight == old(inFlight)
                && |proxies.items| > 0 && proxies.items[|proxies.items| - 1] == outcome.proxy
                && multiset(proxies.items) == multiset(old(proxies.items))
                && forall r :: r in proxies.items ==> RecheckIn(r, now) > 0
      ensures outcome.Dispatched? ==>
                && RecheckIn(outcome.proxy, now) <= 0
                && outcome.proxy in old(proxies.items)
                && inFlight == old(inFlight) + multiset{outcome.proxy}
                && multiset(proxies.items) + multiset{outcome.proxy} == multiset(old(proxies.items))
                && forall r :: r in proxies.items ==> !IsLess(r, outcome.proxy, now)
    {
      var s := SaveProxyList(lastSaved, now, proxies.items);
      saved, written := s.0, s.1;
      if proxies.Len() == 0 {
        return saved, written, Idle;
      }
      outcome := Schedule(now);
    }

    /** The rest of a worker iteration on a non-empty heap: pop an isLess-minimal
        record (the abstraction of heap.Pop); push it back if it is not yet due, otherwise hand it to
        checkProxy. */
    method Schedule(now: Instant) returns (outcome: StepOutcome)
      requires |proxies.items| > 0
      modifies this, proxies
      ensures old(Valid()) ==> Valid()
      ensures Records() == old(Records())
      ensures !outcome.Idle?
      ensures outcome.Requeued? ==>
                && outcome.wait == RecheckIn(outcome.proxy, now) && outcome.wait > 0
                && inFlight == old(inFlight)
                && |proxies.items| > 0 && proxies.items[|proxies.items| - 1] == outcome.proxy
                && multiset(proxies.items) == multiset(old(proxies.items))
                && forall r :: r in proxies.items ==> RecheckIn(r, now) > 0
      ensures outcome.Dispatched? ==>
                && RecheckIn(outcome.proxy, now) <= 0
                && outcome.proxy in old(proxies.items)
                && inFlight == old(inFlight) + multiset{outcome.proxy}
                && multiset(proxies.items) + multiset{outcome.proxy} == multiset(old(proxies.items))
                && forall r :: r in proxies.items ==> !IsLess(r, outcome.proxy, now)
    {
      ghost var waiting := proxies.items;
      var proxy := proxies.PopMin(now);
      var waitFor := RecheckIn(proxy, now);
      if waitFor > 0 {
        Requeue(proxy, waiting, now);
        outcome := Requeued(proxy, waitFor);
      } else {
        Dispatch(proxy, waiting);
        outcome := Dispatched(proxy);
      }
    }

    /** The record popped from `waiting` is not due: push it back. */
    method Requeue(proxy: Proxy, ghost waiting: seq<Proxy>, now: Instant)
      requires multiset(proxies.items) + multiset{proxy} == multiset(waiting)
      requires RecheckIn(proxy, now) > 0
      requires forall y :: y in proxies.items ==> !IsLess(y, proxy, now)
      modifies proxies
      ensures Consistent(multiset(waiting) + inFlight, goodProxyList.proxies) ==> Valid()
      ensures proxies.items == old(proxies.items) + [proxy]
      ensures multiset(proxies.items) == multiset(waiting)
      ensures forall r :: r in proxies.items ==> RecheckIn(r, now) > 0
    {
      ghost var rest := proxies.items;
      proxies.Push(proxy);
      NothingDue(rest, proxy, proxies.items, now);
      assert multiset(proxies.items) == multiset(rest) + multiset{proxy};
      if Consistent(multiset(waiting) + inFlight, goodProxyList.proxies) {
        RequeueKeeps(waiting, inFlight, goodProxyList.proxies, rest, proxies.items, proxy);
      }
    }

    /** The record popped from `waiting` is due: it is now being checked. */
    method Dispatch(proxy: Proxy, ghost waiting: seq<Proxy>)
      requires multiset(proxies.items) + multiset{proxy} == multiset(waiting)
      modifies this
      ensures old(Consistent(multiset(waiting) + inFlight, goodProxyList.proxies)) ==> Valid()
      ensures inFlight == old(inFlight) + multiset{proxy}
      ensures multiset(proxies.items) + inFlight == multiset(waiting) + old(inFlight)
    {
      inFlight := inFlight + multiset{proxy};
      if Consistent(multiset(waiting) + old(inFlight), goodProxyList.proxies) {
        DispatchKeeps(waiting, old(inFlight), goodProxyList.proxies, proxies.items, inFlight, proxy);
      }
    }

    /** checkProxy, once the network check has given checkResult at `now`: update
        the good list and the record, then push the record back into the heap. */
    method CheckProxy(proxy: Proxy, checkResult: bool, now: Instant)
      requires proxy in inFlight
      modifies this, proxies, goodProxyList`proxies
      ensures old(Valid()) ==> Valid()
      ensures inFlight == old(inFlight) - multiset{proxy}
      ensures proxies.items == old(proxies.items) + [AfterCheck(proxy, checkResult, now)]
      ensures goodProxyList.proxies == GoodAfterCheck(old(goodProxyList.proxies), proxy, checkResult)
      ensures Records() == old(Records()) - multiset{proxy} + multiset{AfterCheck(proxy, checkResult, now)}
    {
      ghost var waiting, good := proxies.items, goodProxyList.proxies;
      var p := UpdateHealth(proxy, checkResult, now);
      inFlight := inFlight - multiset{proxy};
      proxies.Push(p);
      if Consistent(multiset(waiting) + old(inFlight), good) {
        CheckStep(waiting, old(inFlight), good, proxies.items, inFlight, goodProxyList.proxies, proxy, checkResult, now);
      } else {
        assert multiset(proxies.items) == multiset(waiting) + multiset{p};
        MoveRecord(multiset(waiting), old(inFlight), proxy, p);
      }
    }

    /** The locked part of checkProxy: the good list follows the result, then
        the record's failCounter and lastCheck do. */
    method UpdateHealth(proxy: Proxy, checkResult: bool, now: Instant) returns (p: Proxy)
      modifies goodProxyList`proxies
      ensures p == AfterCheck(proxy, checkResult, now)
      ensures goodProxyList.proxies == GoodAfterCheck(old(goodProxyList.proxies), proxy, checkResult)
    {
      p := proxy;
      if checkResult {
        if p.failCounter != 0 {
          goodProxyList.Append(p.addr);
          p := p.(failCounter := 0);
        }
      } else {
        if p.failCounter == 0 {
          goodProxyList.Remove(p.addr);
        }
        p := p.(failCounter := p.failCounter + 1);
      }
      p := p.(lastCheck := now);
    }
  }

  /** The merge for a snapshot holding only x and the lines [x, y]. */
  lemma BootMerge(x: Proxy, y: Address)
    requires x.addr != y
    ensures Merged([x.addr, y], LoadCache(Some([x]))) == [x, NewProxy(y)]
  {
    assert LoadCache(Some([x])) == Some([x]);
    assert FirstWithAddr([x], y) == 1 by {
      assert [x][1..] == [];
    }
  }

  /** Seeding from [x, new y], in either order heap.Init may leave them, with x
      healthy puts x, and only x, in the good list. */
  lemma BootGood(x: Proxy, y: Address, ps: seq<Proxy>)
    requires x.failCounter == 0
    requires multiset(ps) == multiset([x, NewProxy(y)])
    ensures GoodAddrs(ps) == [x.addr]
  {
    var n := NewProxy(y);
    assert |ps| == 2 by {
      assert |multiset(ps)| == |ps|;
    }
    assert ps == [ps[0], ps[1]];
    assert multiset{ps[0], ps[1]} == multiset{x, n};
    assert x in multiset{ps[0], ps[1]} && n in multiset{ps[0], ps[1]};
    GoodAddrsPair(ps[0], ps[1]);
    if ps[0] == x {
      assert n in multiset{x, ps[1]};
    } else {
      assert ps[1] == x;
      assert n in multiset{ps[0], x};
    }
  }

  /** Seeding two records lists the healthy ones in order. */
  lemma GoodAddrsPair(a: Proxy, b: Proxy)
    ensures GoodAddrs([a, b]) ==
              (if a.failCounter == 0 then [a.addr] else []) + (if b.failCounter == 0 then [b.addr] else [])
  {
    assert [a, b][..1] == [a];
    assert [a][..0] == [];
    assert GoodAddrs([a]) == (if a.failCounter == 0 then [a.addr] else []);
  }

  /** Boot with a snapshot holding x healthy and the lines [x, y]: the heap holds
      x with failCounter 0 and a new y with failCounter 1, only x is in the good
      list, and the invariant holds. */
  method BootScenario(x: Proxy, y: Address, now: Instant)
    requires x.failCounter == 0 && x.addr != y
  {
    BootMerge(x, y);
    var lines := [x.addr, y];
    assert forall i, j :: 0 <= i < j < |lines| ==> lines[i] != lines[j];
    var cache := new CacheContext(lines, Some([x]), now);
    assert multiset(cache.proxies.items) == multiset([x, NewProxy(y)]);
    BootGood(x, y, cache.proxies.items);
    assert cache.goodProxyList.proxies == [x.addr];
    assert cache.Valid();
  }
}
