/** AbstractCache and ArrayCache: a key/value cache whose entries carry the
    time they were written and a time-to-live. Reading an expired entry
    removes it. The clock (`time()`) is the parameter `now`. */
module Cache {
  import opened Wrappers

  /** The array `pack` builds: `['key', 'time', 'ttl', 'value']`. */
  datatype Packed<V> = Packed(key: string, time: int, ttl: int, value: V)

  /** `pack`: the entry written at time `now`. */
  function Pack<V>(key: string, value: V, ttl: int, now: int): Packed<V> {
    Packed(key, now, ttl, value)
  }

  /** A positive ttl expires the entry once `now` reaches `time + ttl`; a
      ttl of zero or less never expires. */
  predicate Expired<V>(p: Packed<V>, now: int) {
    p.ttl > 0 && now >= p.time + p.ttl
  }

  /** `get` without its side effect: null when `info` is null, null when
      the entry has expired, its value otherwise. */
  function Unpack<V>(content: Option<Packed<V>>, now: int): (r: Option<V>)
    ensures r.Some? <==> content.Some? && !Expired(content.value, now)
    ensures r.Some? ==> r.value == content.value.value
  {
    match content
    case None => None
    case Some(p) => if Expired(p, now) then None else Some(p.value)
  }

  /** An entry written with `ttl <= 0` is read back at any later time. */
  lemma PackNeverExpires<V>(key: string, value: V, ttl: int, written: int, now: int)
    requires ttl <= 0
    ensures Unpack(Some(Pack(key, value, ttl, written)), now) == Some(value)
  {
  }

  /** An entry written with a positive ttl is read back exactly before
      `written + ttl`. */
  lemma PackExpiresAtTtl<V>(key: string, value: V, ttl: int, written: int, now: int)
    requires ttl > 0
    ensures Unpack(Some(Pack(key, value, ttl, written)), now) == (if now < written + ttl then Some(value) else None)
  {
  }

  /** `has`: the truthiness of what `get` returns, so a stored falsy value
      reads as absent. */
  predicate HasValue<V>(r: Option<V>, truthy: V -> bool) {
    r.Some? && truthy(r.value)
  }

  class ArrayCache<V> {
    /** `$data`: the packed entries by key. */
    var data: map<string, Packed<V>>

    constructor ()
      ensures data == map[]
    {
      data := map[];
    }

    /** `info`: the packed entry, or null. */
    function Info(key: string): (r: Option<Packed<V>>)
      reads this
      ensures r.Some? <==> key in data
      ensures r.Some? ==> r.value == data[key]
    {
      if key in data then Some(data[key]) else None
    }

    /** `set`: stores a fresh packed entry, overwriting. */
    method Set(key: string, value: V, ttl: int, now: int)
      modifies this
      ensures data == old(data)[key := Pack(key, value, ttl, now)]
    {
      data := data[key := Pack(key, value, ttl, now)];
    }

    method Remove(key: string)
      modifies this
      ensures data == old(data) - {key}
    {
      data := data - {key};
    }

    method Clear()
      modifies this
      ensures data == map[]
    {
      data := map[];
    }

    /** `get`: the unpacked value; an expired entry is removed under the
        key recorded inside it. */
    method Get(key: string, now: int) returns (r: Option<V>)
      modifies this
      ensures r == Unpack(old(Info(key)), now)
      ensures key in old(data) && Expired(old(data)[key], now) ==> data == old(data) - {old(data)[key].key}
      ensures !(key in old(data) && Expired(old(data)[key], now)) ==> data == old(data)
    {
      var content := Info(key);
      if content.None? {
        return None;
      }
      var p := content.value;
      if p.ttl > 0 && now >= p.time + p.ttl {
        Remove(p.key);
        return None;
      }
      r := Some(p.value);
    }

    /** `has`. */
    method Has(key: string, now: int, truthy: V -> bool) returns (b: bool)
      modifies this
      ensures b == HasValue(Unpack(old(Info(key)), now), truthy)
      ensures key in old(data) && Expired(old(data)[key], now) ==> data == old(data) - {old(data)[key].key}
      ensures !(key in old(data) && Expired(old(data)[key], now)) ==> data == old(data)
    {
      var r := Get(key, now);
      b := r.Some? && truthy(r.value);
    }
  }

  /** `set(k, v, 0)` followed by `get(k)` returns `v` whatever the time. */
  method SetThenGetWithoutTtl<V>(c: ArrayCache<V>, key: string, value: V, written: int, now: int) returns (r: Option<V>)
    modifies c
    ensures r == Some(value)
  {
    c.Set(key, value, 0, written);
    r := c.Get(key, now);
  }
}
