/** A Redis-like keyed store with expiry deadlines.
    Time is an integer number of milliseconds. A key whose deadline has been reached reads as absent, although its
    entry may still be in the map until something overwrites it. A MULTI block or a Lua script is one function
    application; commands that the source sends separately are separate functions. */
module Redis {
  import opened Wrappers

  datatype Entry<+V> = Entry(value: V, deadline: int)

  type Store<K(==), V> = map<K, Entry<V>>

  predicate Live<K, V>(m: Store<K, V>, k: K, now: int) {
    k in m && now < m[k].deadline
  }

  /** GET */
  function Get<K, V>(m: Store<K, V>, k: K, now: int): Option<V> {
    if Live(m, k, now) then Some(m[k].value) else None
  }

  /** SET key value EX ttl */
  function SetEx<K, V>(m: Store<K, V>, k: K, v: V, now: int, ttl: int): Store<K, V> {
    m[k := Entry(v, now + ttl * 1000)]
  }

  /** EXPIRE key ttl: no effect on an absent or expired key. */
  function Expire<K, V>(m: Store<K, V>, k: K, now: int, ttl: int): Store<K, V> {
    if Live(m, k, now) then m[k := Entry(m[k].value, now + ttl * 1000)] else m
  }

  /** DEL */
  function Del<K, V>(m: Store<K, V>, k: K): Store<K, V> {
    m - {k}
  }

  /** SMEMBERS: an absent set has no members. */
  function SMembers<K, E>(m: Store<K, set<E>>, k: K, now: int): set<E> {
    if Live(m, k, now) then m[k].value else {}
  }

  /** SADD followed by EXPIRE in one MULTI. */
  function SAddExpire<K, E>(m: Store<K, set<E>>, k: K, e: E, now: int, ttl: int): Store<K, set<E>> {
    m[k := Entry(SMembers(m, k, now) + {e}, now + ttl * 1000)]
  }

  /** SREM: removing the last member removes the key. */
  function SRem<K, E>(m: Store<K, set<E>>, k: K, e: E, now: int): Store<K, set<E>> {
    if !Live(m, k, now) then m
    else if m[k].value - {e} == {} then m - {k}
    else m[k := Entry(m[k].value - {e}, m[k].deadline)]
  }
}
