/** Repository lookups by id. Ids are converted with `idToMongo` (the
    parameter `toMongo`); ids whose documents are already in the identity
    map are served from it, and only the others go to the database (the
    parameter `query`, standing for `createQuery(['_id' => ['$in' => …]])
    ->all()`). */
module Repositories {
  import opened Wrappers
  import opened Identity
  import opened PhpArrays

  /** `idsToMongo`: converts every id in place, keeping the order. */
  method IdsToMongo(ids: seq<Id>, toMongo: Id -> Id) returns (r: seq<Id>)
    ensures |r| == |ids|
    ensures forall i :: 0 <= i < |ids| ==> r[i] == toMongo(ids[i])
  {
    r := ids;
    var i := 0;
    while i < |r|
      invariant 0 <= i <= |r| == |ids|
      invariant forall j :: 0 <= j < i ==> r[j] == toMongo(ids[j])
      invariant forall j :: i <= j < |r| ==> r[j] == ids[j]
    {
      r := r[i := toMongo(r[i])];
      i := i + 1;
    }
  }

  /** The documents `findById` collects from the identity map `docs`,
      keyed by string id, in request order. */
  function Resident<D>(ids: seq<Id>, docs: map<string, D>): Assoc<D> {
    if ids == [] then []
    else
      var acc := Resident(ids[..|ids| - 1], docs);
      var k := IdKey(ids[|ids| - 1]);
      if k in docs then Put(acc, k, docs[k]) else acc
  }

  /** The ids `findById` still has to fetch, in request order. */
  function Remaining<D>(ids: seq<Id>, docs: map<string, D>): seq<Id> {
    if ids == [] then []
    else
      var acc := Remaining(ids[..|ids| - 1], docs);
      var id := ids[|ids| - 1];
      if IdKey(id) in docs then acc else acc + [id]
  }

  /** Every id of the request lands in exactly one part: the remaining ids
      are the non-resident ones, and the resident entries are keyed by the
      resident ids and hold the identity map's documents. */
  lemma {:induction false} PartitionIsExact<D>(ids: seq<Id>, docs: map<string, D>, k: string)
    ensures DistinctKeys(Resident(ids, docs))
    ensures forall id :: id in Remaining(ids, docs) <==> id in ids && IdKey(id) !in docs
    ensures HasKey(Resident(ids, docs), k) <==> k in docs && exists i :: 0 <= i < |ids| && IdKey(ids[i]) == k
    ensures HasKey(Resident(ids, docs), k) ==> Lookup(Resident(ids, docs), k) == Some(docs[k])
    decreases |ids|
  {
    RemainingIsExact(ids, docs);
    if ids != [] {
      var p := ids[..|ids| - 1];
      var x := ids[|ids| - 1];
      PartitionIsExact(p, docs, k);
      if IdKey(x) in docs {
        PutLookup(Resident(p, docs), IdKey(x), docs[IdKey(x)], k);
      }
      KeySnoc(ids, k);
    }
  }

  /** The remaining ids are the non-resident ones. */
  lemma {:induction false} RemainingIsExact<D>(ids: seq<Id>, docs: map<string, D>)
    ensures forall id :: id in Remaining(ids, docs) <==> id in ids && IdKey(id) !in docs
    decreases |ids|
  {
    if ids != [] {
      var p := ids[..|ids| - 1];
      RemainingIsExact(p, docs);
      assert ids == p + [ids[|ids| - 1]];
    }
  }

  /** Some id of a request has the string id `k` exactly when one before
      the last does or the last does. */
  lemma KeySnoc(ids: seq<Id>, k: string)
    requires ids != []
    ensures var p := ids[..|ids| - 1];
      (exists i :: 0 <= i < |ids| && IdKey(ids[i]) == k) <==>
      (exists i :: 0 <= i < |p| && IdKey(p[i]) == k) || IdKey(ids[|ids| - 1]) == k
  {
    var p := ids[..|ids| - 1];
    if exists i :: 0 <= i < |ids| && IdKey(ids[i]) == k {
      var i :| 0 <= i < |ids| && IdKey(ids[i]) == k;
      if i < |p| {
        assert p[i] == ids[i];
      }
    }
    if exists i :: 0 <= i < |p| && IdKey(p[i]) == k {
      var i :| 0 <= i < |p| && IdKey(p[i]) == k;
      assert ids[i] == p[i];
    }
  }

  /** All ids of the request are resident and no two share a string id. */
  predicate AllResidentAndDistinct<D>(ids: seq<Id>, docs: map<string, D>) {
    (forall i :: 0 <= i < |ids| ==> IdKey(ids[i]) in docs) &&
    (forall i, j :: 0 <= i < j < |ids| ==> IdKey(ids[i]) != IdKey(ids[j]))
  }

  /** `findById` skips the query (its counts agree) exactly when every id
      is resident and no two ids share a string form: a repeated id
      triggers a query for the empty remainder. */
  lemma {:induction false} CountsAgree<D>(ids: seq<Id>, docs: map<string, D>)
    ensures |Resident(ids, docs)| <= |ids|
    ensures |Resident(ids, docs)| == |ids| <==> AllResidentAndDistinct(ids, docs)
    decreases |ids|
  {
    if ids != [] {
      var p := ids[..|ids| - 1];
      var x := ids[|ids| - 1];
      assert ids == p + [x];
      CountsAgree(p, docs);
      var acc := Resident(p, docs);
      PartitionIsExact(p, docs, IdKey(x));
      if IdKey(x) in docs {
        PutLookup(acc, IdKey(x), docs[IdKey(x)], IdKey(x));
      }
      if AllResidentAndDistinct(ids, docs) {
        assert AllResidentAndDistinct(p, docs);
        assert !HasKey(acc, IdKey(x)) by {
          forall i | 0 <= i < |p|
            ensures IdKey(p[i]) != IdKey(x)
          {
            assert ids[i] == p[i];
          }
        }
      }
      if |Resident(ids, docs)| == |ids| {
        assert IdKey(x) in docs && |acc| == |p| && !HasKey(acc, IdKey(x));
        forall i, j | 0 <= i < j < |ids|
          ensures IdKey(ids[i]) != IdKey(ids[j])
        {
          if j < |p| {
            assert ids[i] == p[i] && ids[j] == p[j];
          } else {
            assert ids[i] == p[i];
          }
        }
        forall i | 0 <= i < |ids|
          ensures IdKey(ids[i]) in docs
        {
          if i < |p| {
            assert ids[i] == p[i];
          }
        }
      }
    }
  }

  /** `findById` after the ids are converted: `queried` is the id list
      sent to the database, or None when the identity map held everything. */
  method FindById<D>(ids: seq<Id>, toMongo: Id -> Id, im: IdentityMap<D>, query: seq<Id> -> Assoc<D>)
    returns (result: Assoc<D>, queried: Option<seq<Id>>)
    ensures var m := seq(|ids|, i requires 0 <= i < |ids| => toMongo(ids[i]));
      && (queried.None? <==> |Resident(m, im.documents)| == |m|)
      && (queried.None? ==> result == Resident(m, im.documents))
      && (queried.Some? ==>
            queried.value == Remaining(m, im.documents) &&
            result == Merge(Resident(m, im.documents), query(queried.value)))
  {
    var converted := IdsToMongo(ids, toMongo);
    ghost var m := seq(|ids|, i requires 0 <= i < |ids| => toMongo(ids[i]));
    assert converted == m;
    var documents: Assoc<D> := [];
    var remaining: seq<Id> := [];
    var i := 0;
    while i < |converted|
      invariant 0 <= i <= |converted|
      invariant documents == Resident(converted[..i], im.documents)
      invariant remaining == Remaining(converted[..i], im.documents)
    {
      assert converted[..i + 1][..i] == converted[..i];
      var id := converted[i];
      if im.Has(id) {
        documents := Put(documents, IdKey(id), im.Get(id).value);
      } else {
        remaining := remaining + [id];
      }
      i := i + 1;
    }
    assert converted[..i] == converted;
    if |documents| == |converted| {
      return documents, None;
    }
    result := Merge(documents, query(remaining));
    queried := Some(remaining);
  }

  /** What `findById` returns for a resident id: the identity map's
      document, unless the database answer carries the same key. */
  lemma FindByIdKeepsResident<D>(m: seq<Id>, docs: map<string, D>, answer: Assoc<D>, id: Id)
    requires id in m && IdKey(id) in docs && DistinctKeys(answer)
    ensures !HasKey(answer, IdKey(id)) ==> Lookup(Merge(Resident(m, docs), answer), IdKey(id)) == Some(docs[IdKey(id)])
    ensures Lookup(Resident(m, docs), IdKey(id)) == Some(docs[IdKey(id)])
  {
    var i :| 0 <= i < |m| && m[i] == id;
    PartitionIsExact(m, docs, IdKey(id));
    MergeLookup(Resident(m, docs), answer, IdKey(id));
  }

  /** `findOneById`: the resident document, or the single-document query
      (the parameter `queryOne`); `queried` says whether it ran. */
  method FindOneById<D>(id: Id, toMongo: Id -> Id, im: IdentityMap<D>, queryOne: Id -> Option<D>)
    returns (r: Option<D>, queried: bool)
    ensures queried <==> !im.Has(toMongo(id))
    ensures !queried ==> r == im.Get(toMongo(id))
    ensures queried ==> r == queryOne(toMongo(id))
  {
    var converted := toMongo(id);
    if im.Has(converted) {
      return im.Get(converted), false;
    }
    r := queryOne(converted);
    queried := true;
  }
}
