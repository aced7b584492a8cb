/** The Redis key space the permission service caches into. An entry written by
    `SETEX key ttl value` at time `now` is live while the clock is below
    `now + ttl`; an expired entry reads as absent. */
module KeyValue {
  import opened Wrappers

  datatype Entry<V> = Entry(value: V, expiresAt: int)

  predicate Live<V>(entries: map<string, Entry<V>>, key: string, now: int) {
    key in entries && now < entries[key].expiresAt
  }

  /** The entries left once every key starting with `prefix` is deleted. */
  function WithoutPrefix<V>(entries: map<string, Entry<V>>, prefix: string): (r: map<string, Entry<V>>)
    ensures forall k :: k in r <==> k in entries && !(prefix <= k)
    ensures forall k :: k in r ==> r[k] == entries[k]
  {
    map k | k in entries && !(prefix <= k) :: entries[k]
  }

  class Cache<V> {
    var entries: map<string, Entry<V>>

    constructor ()
      ensures entries == map[]
    {
      entries := map[];
    }

    /** `GET key`: the value of a live entry, nothing otherwise. */
    function Get(key: string, now: int): (r: Option<V>)
      reads this
      ensures r.Some? <==> Live(entries, key, now)
      ensures r.Some? ==> r.value == entries[key].value
    {
      if key in entries && now < entries[key].expiresAt then Some(entries[key].value) else None
    }

    /** `SETEX key ttl value`. */
    method SetEx(key: string, ttl: int, value: V, now: int)
      modifies this
      ensures entries == old(entries)[key := Entry(value, now + ttl)]
      ensures forall t :: now <= t < now + ttl ==> Get(key, t) == Some(value)
    {
      entries := entries[key := Entry(value, now + ttl)];
    }

    /** `KEYS prefix*` followed by `DEL` of every key it returned. Expired
        entries read as absent, so dropping them too changes nothing visible. */
    method DeleteMatching(prefix: string)
      modifies this
      ensures entries == WithoutPrefix(old(entries), prefix)
      ensures forall k, t :: prefix <= k ==> Get(k, t).None?
      ensures forall k, t :: !(prefix <= k) ==> Get(k, t) == old(Get(k, t))
    {
      var matching := set k | k in entries && prefix <= k;
      entries := map k | k in entries && k !in matching :: entries[k];
    }
  }
}
