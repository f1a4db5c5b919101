/** Archive: a key/value side store attached to a document or a group.
    Whether a key is present is tracked in a separate key set, so a key can
    hold null and still be present; clearing empties the values but keeps
    the key set. */
module ArchiveStore {
  import opened PhpValues

  class Archive {
    /** The stored values (`$archive`). */
    var values: map<string, Value>
    /** The keys that were set and not removed since (`$keys`). */
    var keys: set<string>

    /** Every stored value belongs to a present key; the converse fails
        after `Clear`. */
    ghost predicate Valid()
      reads this
    {
      values.Keys <= keys
    }

    constructor ()
      ensures Valid() && values == map[] && keys == {}
    {
      values := map[];
      keys := {};
    }

    /** `has`: presence, independent of the value (which may be null). */
    predicate Has(key: string)
      reads this
    {
      key in keys
    }

    /** `get`: the stored value, or null (with a PHP notice) when there is
        none. */
    function Get(key: string): Value
      reads this
    {
      if key in values then values[key] else Null
    }

    method Set(key: string, value: Value)
      requires Valid()
      modifies this
      ensures Valid()
      ensures Has(key) && Get(key) == value
      ensures forall k :: k != key ==> (Has(k) <==> old(Has(k))) && Get(k) == old(Get(k))
      ensures values == old(values)[key := value] && keys == old(keys) + {key}
    {
      keys := keys + {key};
      values := values[key := value];
    }

    /** `remove`: nothing happens for an absent key; otherwise both the
        value and the presence go. */
    method Remove(key: string)
      requires Valid()
      modifies this
      ensures Valid()
      ensures !Has(key) && Get(key) == Null
      ensures forall k :: k != key ==> (Has(k) <==> old(Has(k))) && Get(k) == old(Get(k))
      ensures !old(Has(key)) ==> values == old(values) && keys == old(keys)
      ensures old(Has(key)) ==> values == old(values) - {key} && keys == old(keys) - {key}
    {
      if !Has(key) {
        return;
      }
      values := values - {key};
      keys := keys - {key};
    }

    /** `getByRef`: stores the default only for an absent key and returns
        the slot's value. A present key whose value was cleared gets a null
        slot, as taking a PHP reference to a missing element creates it. */
    method GetByRef(key: string, default: Value) returns (v: Value)
      requires Valid()
      modifies this
      ensures Valid() && Has(key) && key in values && v == values[key]
      ensures !old(Has(key)) ==> v == default && values == old(values)[key := default]
      ensures old(Has(key)) && key in old(values) ==> v == old(values)[key] && values == old(values)
      ensures old(Has(key)) && key !in old(values) ==> v == Null && values == old(values)[key := Null]
      ensures keys == old(keys) + {key}
    {
      if !Has(key) {
        Set(key, default);
      }
      if key !in values {
        values := values[key := Null];
      }
      v := values[key];
    }

    /** `getOrDefault`: the stored value when the key is present, otherwise
        the default. */
    function GetOrDefault(key: string, default: Value): (r: Value)
      reads this
      ensures Has(key) ==> r == Get(key)
      ensures !Has(key) ==> r == default
    {
      if Has(key) then Get(key) else default
    }

    /** `all`: the stored values. */
    function All(): map<string, Value>
      reads this
    {
      values
    }

    /** `clear`: empties the values but leaves every key present. */
    method Clear()
      requires Valid()
      modifies this
      ensures Valid() && All() == map[]
      ensures forall k :: Has(k) <==> old(Has(k))
      ensures forall k :: Get(k) == Null
    {
      values := map[];
    }
  }
}
