/** Redis keys with a time to live, on a clock in microseconds. */
module Redis {
  import opened Common

  const SECOND := 1_000_000
  const MINUTE := 60 * SECOND
  const DAY := 86_400 * SECOND

  /** The seconds part of a time, as `int(now.timestamp())` takes it. */
  function Seconds(now: int): int {
    now / SECOND
  }

  datatype Kept<+V> = Kept(value: V, until: int)

  type Cache<K, V> = map<K, Kept<V>>

  /** GET and EXISTS: a key whose time to live has run out is not there. */
  function Get<K, V>(cache: Cache<K, V>, key: K, now: int): Option<V> {
    if key in cache && now < cache[key].until then Some(cache[key].value) else None
  }

  function SetEx<K, V>(cache: Cache<K, V>, key: K, ttl: nat, value: V, now: int): Cache<K, V> {
    cache[key := Kept(value, now + ttl * SECOND)]
  }
}
