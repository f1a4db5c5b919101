/** Document identifiers and the identity map: one document per
    identifier, keyed by the identifier's string form. */
module Identity {
  import opened Wrappers
  import opened Strings

  /** The identifiers the repository handles: a MongoDB ObjectId (its
      string form is its hexadecimal text), an integer or a string. */
  datatype Id = ObjectId(hex: string) | IntId(n: int) | StrId(s: string)

  /** `(string) $id`. */
  function IdKey(id: Id): string {
    match id
    case ObjectId(hex) => hex
    case IntId(n) => IntToString(n)
    case StrId(s) => s
  }

  /** Different identifiers can share a key: the integer 5 and the string
      "5" name the same identity-map entry. */
  lemma IntAndStringIdsShareKey()
    ensures IntId(5) != StrId("5") && IdKey(IntId(5)) == IdKey(StrId("5"))
  {
    assert NatToString(5) == [DigitChar(5)];
  }

  class IdentityMap<D> {
    /** `$documents`, by string id. */
    var documents: map<string, D>

    constructor ()
      ensures documents == map[]
    {
      documents := map[];
    }

    /** `set`: stores under the string form, overwriting. */
    method Set(id: Id, d: D)
      modifies this
      ensures documents == old(documents)[IdKey(id) := d]
      ensures Has(id) && Get(id) == Some(d)
      ensures forall other :: IdKey(other) != IdKey(id) ==> Get(other) == old(Get(other))
    {
      documents := documents[IdKey(id) := d];
    }

    predicate Has(id: Id)
      reads this
    {
      IdKey(id) in documents
    }

    /** `get`: the stored document; for an absent id PHP warns and yields
        null. */
    function Get(id: Id): (r: Option<D>)
      reads this
      ensures r.Some? <==> Has(id)
      ensures r.Some? ==> r.value == documents[IdKey(id)]
    {
      if IdKey(id) in documents then Some(documents[IdKey(id)]) else None
    }

    function All(): map<string, D>
      reads this
    {
      documents
    }

    /** `remove`: deletes only that key. */
    method Remove(id: Id)
      modifies this
      ensures documents == old(documents) - {IdKey(id)}
      ensures !Has(id)
      ensures forall other :: IdKey(other) != IdKey(id) ==> Get(other) == old(Get(other))
    {
      documents := documents - {IdKey(id)};
    }

    method Clear()
      modifies this
      ensures documents == map[] && All() == map[]
    {
      documents := map[];
    }
  }
}
