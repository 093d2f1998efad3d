/** The proxy record of the cache (proxy_cache/proxy.go), the units of time it is
    measured in and the constants of proxy_cache/checker.go that the scheduler uses. */
module ProxyRecord {

  /** One byte. A Go string is an immutable sequence of bytes: it is compared and
      hashed byte by byte, so addresses are modelled as byte sequences. */
  type byte = bv8

  /** A proxy address, "host:port", as the bytes of its Go string. */
  type Address = seq<byte>

  /** An instant: nanoseconds after Go's zero time.Time (January 1, year 1, UTC). */
  type Instant = int

  /** A time.Duration: a number of nanoseconds, possibly negative. */
  type Duration = int

  /** The zero time.Time, the lastCheck of a record that was never checked. */
  const ZeroTime: Instant := 0

  const Second: Duration := 1_000_000_000
  const Minute: Duration := 60 * Second
  const Hour: Duration := 60 * Minute

  /** Base of the exponential backoff (proxyCheckTimeoutMin). */
  const ProxyCheckTimeoutMin: Duration := 5 * Minute
  /** Ceiling of the backoff after the last check (proxyCheckTimeoutMax). */
  const ProxyCheckTimeoutMax: Duration := 24 * Hour
  /** Least time between two saves of the snapshot (autoSaveTimeout). */
  const AutoSaveTimeout: Duration := 10 * Second

  /** A health record: the proxy's address, when it was last checked and how many
      checks in a row have failed (a Go uint; never decremented, only reset to 0). */
  datatype Proxy = Proxy(addr: Address, lastCheck: Instant, failCounter: nat)

  datatype Option<T> = None | Some(value: T)
}
