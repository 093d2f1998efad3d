# dynproxy proxy cache, modelled in Dafny

dynproxy is an HTTP proxy that forwards each request through one of many upstream
proxies. Its `proxy_cache` package decides which upstream proxies are healthy:

- **Records.** The cache keeps one health record per configured address: the
  address, the time of the last check, and the number of checks in a row that
  failed (`failCounter`).
- **Boot.** The records are built by merging the proxy file's lines with a saved
  snapshot. A line without a saved record starts unhealthy, with failCounter 1.
- **Worker.** The records wait in a priority queue (a `container/heap` over a
  slice). A worker pops the root of the heap. If it is not due yet, the worker
  pushes it back. Otherwise a check runs, and the record returns to the queue
  with a new failCounter and lastCheck.
- **Backoff.** A record is due 5 minutes × 2^failCounter after its last check,
  with failCounter capped at 30 and the delay capped at 24 hours.
- **Good list.** The addresses of the records with failCounter 0 are handed out
  round-robin.
- **Snapshot.** At most every 10 seconds, the worker writes the queue to the
  snapshot.

The model follows the package file by file:

- `proxy_record.dfy` (module `ProxyRecord`): the record, its units of time,
  and the package's constants.
- `proxy_list.dfy` (module `ProxyList`): Go's byte-wise ordering of strings,
  the `ProxyList` sort hooks, and `sort.Sort` as a sort that yields a
  permutation.
- `heap.dfy` (module `Heap`):
  - `recheckIn`, over mathematical integers and, separately, with the int64
    product the code computes;
  - the FNV-1a 64 hash;
  - `isLess`, with its order properties;
  - the `ProxyHeap` hooks, as a class over a `seq` field;
  - `heap.Init`, as container/heap's sift-down loop;
  - an abstraction of `heap.Pop` that removes an `isLess`-minimal record.
- `good_proxy_list.dfy` (module `GoodProxies`):
  - `GoodProxyList` as a class with `next`, `append` and the swap-remove `remove`;
  - the round-robin sequence that repeated `next` calls yield;
  - the package test's scenario, as `GoodProxyListScenario`.
- `checker.dfy` (module `Checker`):
  - `saveProxyList`'s time gate;
  - `LoadCache`;
  - the merge loop of `readProxiesFromFile`, with `sort.Search` written as Go's
    binary-search loop;
  - the seeding loop of `NewProxyCache`;
  - one iteration of `worker`;
  - `checkProxy` once the network result is known;
  - the cache's invariant.

**The cache's invariant.** Every record has a distinct address. A record's
failCounter is 0 exactly when its address is in the good list. The good list
holds each address at most once, and only addresses of records. The records
being checked count as records: a ghost multiset `inFlight` next to the
heap holds them.

The invariant is established at boot when the configured lines are distinct:
nothing in the source de-duplicates them, and `DuplicateLineBreaksSeeding`
shows what a repeated line does. Every worker step and every check then
preserves the invariant.

The network check, the clock and the files are inputs:

- The result of `checkWithProxy` is the boolean `checkResult`.
- `time.Now()` is the instant `now`.
- The proxy file's lines are a sequence of addresses.
- The decoded snapshot and the registry to be written are values of type
  `Option<seq<Proxy>>`.

Times are integer nanoseconds after Go's zero `time.Time`. Addresses are byte
sequences, because Go compares and hashes strings byte by byte.

**Clamped branch.** The floor branch (heap.go:55-56) returns 0 when the
backoff instant is before now. The other two branches give 0 only at an
equality: the clamped branch when the 24-hour ceiling equals now, the last
branch when the backoff instant equals now. The clamped branch returns `checkInMax - now`
(heap.go:57-58) without a floor, so it is negative once the 24-hour ceiling has
passed; see `Heap.RecheckInNegativePastCeiling`.

## Model

| member | source | states |
|---|---|---|
| ProxyList.AddrLessIrreflexive | proxy_cache/proxy_list.go:8 | no address is below itself under Go's string `<` |
| ProxyList.AddrLessTransitive | proxy_cache/proxy_list.go:8 | Go's string `<` is transitive |
| ProxyList.AddrLessTotal | proxy_cache/proxy_list.go:8 | any two different addresses are ordered one way or the other |
| ProxyList.AddrLessAsymmetric | proxy_cache/proxy_list.go:8 | `a < b` excludes `b < a` |
| ProxyList.AddrLeTransitive | proxy_cache/proxy_list.go:8 | `<=` on addresses is transitive |
| ProxyList.AddrLeLessTransitive | proxy_cache/proxy_list.go:8 | `a <= b < c` gives `a < c` |
| ProxyList.AddrLess | proxy_cache/proxy_list.go:8 | plain definition of Go's byte-wise string `<`; its order properties are the lemmas above |
| ProxyList.Len | proxy_cache/proxy_list.go:7 | plain definition: the length of the slice |
| ProxyList.Less | proxy_cache/proxy_list.go:8 | a position Less than another holds a different address, and the other is not Less than it |
| ProxyList.LessIgnoresHealth | proxy_cache/proxy_list.go:8 | Less depends only on the two addresses, not on lastCheck or failCounter |
| ProxyList.LessStrictOrder | proxy_cache/proxy_list.go:8 | Less is irreflexive and transitive on positions |
| ProxyList.Swap | proxy_cache/proxy_list.go:9 | the array after the swap is the old one with positions i and j exchanged |
| ProxyList.Insert | proxy_cache/checker.go:307-308 | inserting into an address-sorted list keeps it sorted and adds exactly that record |
| ProxyList.SortByAddr | proxy_cache/checker.go:307-308 | sort.Sort's result is ascending by address and a permutation of its input |
| Heap.Pow2Monotone | proxy_cache/heap.go:53 | `1 << k` grows with k |
| Heap.Due | proxy_cache/heap.go:45-53 | the due instant lies between 5 minutes and 24 hours after lastCheck |
| Heap.RecheckIn | proxy_cache/heap.go:43-62 | 0 once the backoff instant has passed, otherwise the time left to the due instant; positive exactly when the record is not yet due, and then, when lastCheck is not after now, at most 24 h; negative only past the ceiling |
| Heap.RecheckInTestValues | proxy_cache/heap_test.go:20-68 | checked 3 min ago: 2 min to wait with 0 failures, 37 min with 3, 24 h − 3 min with 28 and with 80 |
| Heap.RecheckInEpoch | proxy_cache/heap_test.go:8-18 | a record never checked and never failed is due once five minutes of the clock have passed |
| Heap.RecheckInCapped | proxy_cache/heap.go:48-51 | every failCounter of 30 or more waits as long as 30 |
| Heap.RecheckInMonotone | proxy_cache/heap.go:48-53 | more failures never make a record due sooner, nor a waiting record wait less |
| Heap.RecheckInNegativePastCeiling | proxy_cache/heap.go:57-58 | the clamped branch is not floored: 25 h after the last check with 10 failures the result is −1 h |
| Heap.WrapInt64 | proxy_cache/heap.go:53 | the result is in int64 range and congruent to the input modulo 2^64 |
| Heap.RecheckInAsWritten | proxy_cache/heap.go:43-62 | plain definition: recheckIn with the int64 product the code computes |
| Heap.RecheckInAsWrittenAgrees | proxy_cache/heap.go:43-62 | for failCounter up to 24 the int64 product does not wrap and the code agrees with RecheckIn |
| Heap.WrappedBackoffs | proxy_cache/heap.go:53 | the int64 values of `5 min * (1 << k)` for k = 0, 3, 24, 25, 28, 29, 30 |
| Heap.RecheckInAsWrittenOverflows | proxy_cache/heap.go:53 | as written, 25 and 29 failures give 0 (due at once), where 24 failures and the corrected RecheckIn give 24 h − 3 min |
| Heap.RecheckInAsWrittenTestValues | proxy_cache/heap_test.go:20-68 | the code as written meets the test values too |
| Heap.StringHash | proxy_cache/heap.go:64-68 | FNV-1a 64 of the address bytes, a uint64 |
| Heap.FnvWriteAppend | proxy_cache/heap.go:64-68 | hashing s then t is hashing s + t |
| Heap.StringHashExtend | proxy_cache/heap.go:64-68 | one more byte is one more FNV-1a step |
| Heap.StringHashVectors | proxy_cache/heap.go:64-68 | the published FNV-1a 64 values of "" and "a" |
| Heap.IsLess | proxy_cache/heap.go:32-40 | a record with a shorter wait comes first; a record that comes first never waits longer |
| Heap.IsLessStrictOrder | proxy_cache/heap.go:32-40 | for one `now`, isLess is irreflexive, asymmetric and transitive |
| Heap.IsLessTotal | proxy_cache/heap.go:32-40 | isLess orders any two records whose address hashes differ |
| Heap.DueFirst | proxy_cache/heap.go:32-40 | a due record comes before every record not yet due |
| Heap.MinIndex | proxy_cache/heap.go:12 | a non-empty slice has a position that no record is Less than |
| Heap.MinimalNotDue | proxy_cache/checker.go:85-86 | when an isLess-minimal record is not due, no record is |
| Heap.ProxyHeap.constructor | proxy_cache/checker.go:42 | the heap holds the records read from the file |
| Heap.ProxyHeap.Len | proxy_cache/heap.go:11 | plain definition: the number of records in the heap |
| Heap.ProxyHeap.Less | proxy_cache/heap.go:12 | when position i is Less than j, the record at j is not isLess than the one at i |
| Heap.ProxyHeap.Swap | proxy_cache/heap.go:13-16 | positions i and j exchanged, nothing else changed |
| Heap.ProxyHeap.Push | proxy_cache/heap.go:18-22 | the record appended at the end |
| Heap.ProxyHeap.Pop | proxy_cache/heap.go:24-30 | the last record removed and returned |
| Heap.ProxyHeap.Down | proxy_cache/checker.go:47 | container/heap's sift-down from position i within the first n: the records are permuted, their number kept |
| Heap.ProxyHeap.Init | proxy_cache/checker.go:47 | heap.Init, sift-down from n/2 − 1 down to 0: the records are permuted, their number kept |
| Heap.ProxyHeap.PopMin | proxy_cache/checker.go:81 | abstraction of heap.Pop: returns a record of the heap that no remaining record is isLess than, and removes exactly one copy of it |
| GoodProxies.Cursor | proxy_cache/good_proxy_list.go:27-29 | the position `next` reads: the cursor, or 0 once it has run past the end |
| GoodProxies.FirstIndex | proxy_cache/good_proxy_list.go:43-49 | the first position holding the address, or the length when it is absent |
| GoodProxies.SwapRemove | proxy_cache/good_proxy_list.go:50-53 | one element fewer when the address is present; the list unchanged when it is absent |
| GoodProxies.SwapRemoveSpec | proxy_cache/good_proxy_list.go:50-53 | remove takes exactly one copy of the address out, leaves the list alone when it is absent, and changes no other position except that the last element fills the gap |
| GoodProxies.SwapRemoveMultiset | proxy_cache/good_proxy_list.go:51-52 | overwriting position k with the last element and truncating removes one copy of the old element |
| GoodProxies.RoundRobin | proxy_cache/good_proxy_list.go:20-33 | n calls hand out n addresses, each one in the list |
| GoodProxies.RoundRobinFrom | proxy_cache/good_proxy_list.go:20-33 | calls starting at cursor i return the elements from i to the end, then wrap to the first |
| GoodProxies.RoundRobinCycle | proxy_cache/good_proxy_list.go:20-33 | from cursor 0, n + 1 calls on n elements return the list in order and then its first element |
| GoodProxies.RoundRobinStep | proxy_cache/good_proxy_list.go:27-31 | one call reads the element under the cursor, and the rest of the run starts just past it |
| GoodProxies.RoundRobinMembers | proxy_cache/good_proxy_list.go:20-33 | every address handed out is in the list |
| GoodProxies.GoodProxyList.constructor | proxy_cache/good_proxy_list.go:14-16 | an empty list with the cursor at 0 |
| GoodProxies.GoodProxyList.Next | proxy_cache/good_proxy_list.go:20-33 | ProxyListEmpty and "" on an empty list; otherwise the element under the (wrapped) cursor, with the cursor just past it; the list is unchanged |
| GoodProxies.GoodProxyList.NextRun | proxy_cache/good_proxy_list.go:20-33 | n calls of Next on an unchanged list return RoundRobin from the cursor; from cursor 0, n + 1 calls on n elements return the list in order and then its first element |
| GoodProxies.GoodProxyList.Append | proxy_cache/good_proxy_list.go:35-39 | the address added at the end, the earlier order kept |
| GoodProxies.GoodProxyList.Remove | proxy_cache/good_proxy_list.go:41-55 | the linear search and swap-remove leave SwapRemove of the old list: one copy of the address fewer |
| GoodProxies.SwapRemoveMiddle | proxy_cache/good_proxy_list_test.go:34-41 | removing "two" from [one, two, three] gives [one, three], so the next call returns three |
| GoodProxies.GoodProxyListScenario | proxy_cache/good_proxy_list_test.go:8-42 | the package test on the class: three appends, next, a removal in the middle, and the next call after it; one more call wraps to the first address |
| Checker.SaveDue | proxy_cache/checker.go:114 | plain definition: a save is due unless the last one was less than 10 s ago; the gate's property is `Checker.SavesAreSpaced` |
| Checker.SaveProxyList | proxy_cache/checker.go:113-150 | plain definition: no save and the same lastSaved when SaveDue fails, otherwise the registry is written and lastSaved becomes now; the gate's property is `Checker.SavesAreSpaced` |
| Checker.SavesAreSpaced | proxy_cache/checker.go:113-116 | two saves in a row are at least 10 s apart |
| Checker.LoadCache | proxy_cache/checker.go:283-310 | no snapshot gives nil; a snapshot comes back ascending by address with exactly its records |
| Checker.Search | proxy_cache/checker.go:251-253 | sort.Search: the record just before the index is below the address and the one at it is not; on a sorted list, every record before it is below and none from it on is |
| Checker.NewProxy | proxy_cache/checker.go:261-267 | a new record has the line's address and a non-zero failCounter, so it starts unhealthy |
| Checker.Lookup | proxy_cache/checker.go:249-271 | the record a line gets has the line's address |
| Checker.Merged | proxy_cache/checker.go:249-271 | one record per line |
| Checker.FirstWithAddr | proxy_cache/checker.go:254 | the first position holding a record for the address, or the length when there is none |
| Checker.SearchFindsFirst | proxy_cache/checker.go:251-256 | on a sorted list, the search plus the test of line 254 finds a record exactly when one exists, and it is the first |
| Checker.FindCached | proxy_cache/checker.go:249-257 | −1 exactly when there is no snapshot or no saved record has the address; otherwise the position of the first saved record for it |
| Checker.SavedCount | proxy_cache/checker.go:259-271 | the number of lines with a saved record: at most the number of lines, 0 without a snapshot, all of them when each has one |
| Checker.LookupSpec | proxy_cache/checker.go:259-271 | a line gets a record with its address: a saved one when the snapshot has one for it, a new one with failCounter 1 otherwise |
| Checker.LookupUnique | proxy_cache/checker.go:259-271 | with one saved record per address, a line inherits exactly that record |
| Checker.ReadProxiesFromFile | proxy_cache/checker.go:228-280 | the merge loop yields one record per line, in order, as Lookup gives; cachedProxies counts the lines with a saved record and newProxies the rest; no snapshot means nothing cached |
| Checker.MergedStep | proxy_cache/checker.go:259-271 | one more line appends that line's record, and counts it exactly when the snapshot has a record for it |
| Checker.MergedSpec | proxy_cache/checker.go:245-273 | record k has line k's address; it is saved when the snapshot has that address, new otherwise |
| Checker.RestartKeepsRecords | proxy_cache/checker.go:245-273 | booting from the registry as saved gives every configured address whose record was saved exactly that record |
| Checker.GoodAddrs | proxy_cache/checker.go:48-52 | an address is seeded into the good list exactly when a record with it has failCounter 0 |
| Checker.AddRecord | proxy_cache/checker.go:175-178 | a record for a new address keeps the invariant once its address joins the good list when it is healthy |
| Checker.RemoveRecord | proxy_cache/checker.go:180-184 | taking a record out keeps the invariant once its address leaves the good list when it was healthy |
| Checker.GoodIsHealthy | proxy_cache/checker.go:60-62 | under the invariant, every good address belongs to a record with failCounter 0 |
| Checker.SeedConsistent | proxy_cache/checker.go:48-52 | seeding distinct-address records, in any order, establishes the invariant |
| Checker.UniqueWithout | proxy_cache/checker.go:48-52 | taking one record out of distinct-address records leaves them distinct, none with its address |
| Checker.UniqueAddrsRecords | proxy_cache/checker.go:245-273 | a list with distinct addresses holds each of its records once |
| Checker.GoodAddrsStep | proxy_cache/checker.go:48-52 | one more seeding iteration appends the record's address exactly when it is healthy |
| Checker.Seeded | proxy_cache/checker.go:40-52 | right after seeding, with nothing in flight, the invariant holds |
| Checker.BootConsistent | proxy_cache/checker.go:40-52 | the cache NewProxyCache builds from distinct lines satisfies the invariant, whatever order heap.Init leaves the records in |
| Checker.MergedUnique | proxy_cache/checker.go:245-273 | distinct lines give records with distinct addresses |
| Checker.DuplicateLineBreaksSeeding | proxy_cache/checker.go:48-52 | a line given twice with a healthy saved record gives two copies of that record and puts its address twice in the good list, breaking the invariant |
| Checker.AfterCheck | proxy_cache/checker.go:173-186 | a success clears failCounter, a failure adds one; lastCheck becomes now; the address stays |
| Checker.GoodAfterCheck | proxy_cache/checker.go:173-185 | a success never takes an address out of the good list and adds at most one; a failure never adds one and takes out at most one; afterwards the address is listed exactly when the check succeeded and it was unhealthy or already listed, or the check failed and it was unhealthy and listed, or it was listed twice |
| Checker.CheckPreservesConsistency | proxy_cache/checker.go:173-186 | replacing a record by its checked version and updating the good list as checkProxy does keeps the invariant |
| Checker.FailFailSucceed | proxy_cache/checker.go:173-186 | a healthy record failing twice then succeeding leaves, in turn, failCounter 1 and no good entry, 2 and nothing removed, 0 and its address back at the end |
| Checker.CheckStep | proxy_cache/checker.go:152-188 | after one check, the records are the old ones with the checked record replaced by its new version, and the invariant holds |
| Checker.DispatchKeeps | proxy_cache/checker.go:109 | handing a popped record to a check keeps the records and the invariant |
| Checker.RequeueKeeps | proxy_cache/checker.go:86-88 | pushing a record that is not due back keeps the records and the invariant |
| Checker.NothingDue | proxy_cache/checker.go:85-88 | when the popped record is not due, none of the waiting records is |
| Checker.CacheContext.constructor | proxy_cache/checker.go:40-58 | NewProxyCache: the heap holds the merged records in the order heap.Init leaves them, the good list is their healthy addresses in that order with the cursor at 0, nothing is in flight, and with distinct lines the invariant holds |
| Checker.CacheContext.NextProxy | proxy_cache/checker.go:60-62 | succeeds exactly when the good list is non-empty; then returns the address under the wrapped cursor, moves the cursor just past it, and, when the invariant held, the address belongs to a record with failCounter 0; otherwise ProxyListEmpty and "" with the cursor unchanged |
| Checker.CacheContext.WorkerStep | proxy_cache/checker.go:68-110 | one worker iteration: the save gate on the heap as it was; idle on an empty heap; otherwise a record not due is pushed back (and then none is due), or a due record is handed to a check; records kept, and the invariant kept when it held before; any cache is accepted, including one booted from repeated lines |
| Checker.CacheContext.Schedule | proxy_cache/checker.go:80-109 | pops an isLess-minimal record (the abstraction of heap.Pop); if it is not due it goes back and no record is due; otherwise it moves into the checks; records kept, and the invariant kept when it held before |
| Checker.CacheContext.Requeue | proxy_cache/checker.go:86-88 | the record not due goes back at the end of the heap and no waiting record is due; the invariant holds when it held before the pop |
| Checker.CacheContext.Dispatch | proxy_cache/checker.go:109 | the due record joins the records in flight; the invariant holds when it held before the pop |
| Checker.CacheContext.CheckProxy | proxy_cache/checker.go:152-188 | the checked record leaves the checks and its new version is pushed; the good list follows the result; the records change by that one record; the invariant holds when it held before |
| Checker.CacheContext.UpdateHealth | proxy_cache/checker.go:172-186 | the good list gains the address on a success of an unhealthy record and loses it on a failure of a healthy one, and the record becomes AfterCheck of the old one |
| Checker.BootMerge | proxy_cache/checker.go:245-273 | lines [x, y] with a snapshot holding only x give [x, a new record for y] |
| Checker.BootGood | proxy_cache/checker.go:47-52 | seeding [healthy x, new y], in either order, lists x alone |
| Checker.GoodAddrsPair | proxy_cache/checker.go:48-52 | seeding two records lists the healthy ones, in order |
| Checker.BootScenario | proxy_cache/checker.go:40-52 | boot with a snapshot holding a healthy x and lines [x, y]: the heap holds x and a new y, only x is good, and the invariant holds |

## Left out

- File I/O and gob are not modelled: opening the proxy file, `os.Stat`, the
  rename to `.old`, the encoding, and the panics and logged errors on failure.
  The lines read and the decoded snapshot are inputs; the registry to be
  written is an output.
- `checkWithProxy`, the HTTP request through the proxy, is not modelled; its
  result is the boolean input `checkResult`.
- Concurrency is not modelled: the goroutines, the locks, the atomic
  `checkPoolSize` with its wait for a free slot, and the goroutine statistics.
  A check is modelled as a record moving into the ghost `inFlight` multiset and
  back out.
- The worker's endless loop, its 10 s sleep and its spin on an empty heap are
  not modelled; `WorkerStep` is one iteration.
- The clock is not modelled: `time.Now()` is one instant `now` per operation.
  `isLess` reads the clock separately for each side and `saveProxyList` reads it
  twice; the model uses one reading for both.
- container/heap's sift-up is not modelled. `heap.Init` is modelled by its
  sift-down loop (`ProxyHeap.Init`, `ProxyHeap.Down`), which is proved to
  permute the records but not to leave them in heap order. `heap.Push` is
  `ProxyHeap.Push`; `heap.Pop` is abstracted by `ProxyHeap.PopMin`.
- Heap.ProxyHeap.PopMin: takes an isLess-minimal record at the current `now`,
  while the source's `heap.Pop` takes the root of a heap ordered at earlier
  instants. Once `now` has advanced, that root need not be isLess-minimal: with
  a = (a, 0, failCounter 1) and b = (b, 0, failCounter 0), heap.Init at time 0
  puts b at the root, yet at 20 min both are due and a comes first by hash. The
  order in which `CacheContext.Schedule` and `CacheContext.WorkerStep` dispatch
  due records can therefore differ from the source's.
- ProxyList.SortByAddr: `sort.Sort` is modelled by an insertion sort stated by
  its result, sorted and a permutation, and not by Go's algorithm. Records with
  equal addresses may appear in a different order.
- The constructor establishes the invariant only for distinct lines. The source
  does not de-duplicate the proxy file; see `Checker.DuplicateLineBreaksSeeding`.
  The cache's methods accept such a cache and state what they do to it, but
  they promise the invariant afterwards only when it held before.
- The snapshot holds only the waiting records, as the source's does. Records
  whose check is running are missing from a snapshot taken meanwhile.
- `Stop`, which panics, and `String` are not modelled.
- Logging is not modelled: the `log.Printf` in `ProxyHeap.Swap` (heap.go:14)
  and the `Debug`/`Debugf` calls of checker.go, which have no effect on the
  state.
- Heap.RecheckIn: uses mathematical integers, not Go's int64 `time.Duration`.
  The int64 product the code computes is `Heap.RecheckInAsWritten` (see
  Findings). `IsLess`, and so `ProxyHeap.PopMin`, `CacheContext.Schedule` and
  `CacheContext.WorkerStep`, use the mathematical `RecheckIn`, so the modelled
  scheduler never shows the source's immediate re-check of a record whose
  failCounter is 25 or 29. The time arithmetic of `Add` and `Sub` is exact
  here; in Go it departs from exact integers only for instants about 292 years
  apart.
- `uint` failCounter is a `nat`: its wrap-around after 2^64 failures is not
  modelled.

## Findings

| source | as written | input that shows it | evidently intended | confidence | as-written member | corrected member |
|---|---|---|---|---|---|---|
| proxy_cache/heap.go:53 | `proxyCheckTimeoutMin * (1 << failCounter)` is an int64 product, and the cap of 30 at heap.go:49-51 ("Catch integer overflow") does not keep it in range: 5 min × 2^25 already exceeds 2^63 ns, so it wraps | a record checked 3 min ago with failCounter 25 (or 29): the backoff wraps negative, the record is due at once (recheckIn 0) instead of waiting for the 24 h ceiling (24 h − 3 min) | the backoff saturates at the 24-hour ceiling for every failCounter above 24 (the behaviour at 24, 28 and 80) | not executed | Heap.RecheckInAsWrittenOverflows | Heap.RecheckIn |
