/** PolymorphicReferenceGroup: a reference group whose members may belong
    to different document classes. The parent's reference field holds one
    datum per member, carrying the member's `id` and a discriminator that
    names its class, directly or through a discriminator map. Loading the
    saved members batches the ids by class, classes in the order they first
    appear, and asks each class's repository once for its whole batch. The
    repositories' `findById` is a parameter. */
module PolymorphicGroups {
  import opened Wrappers
  import opened PhpValues
  import opened Strings
  import opened PhpArrays

  /** `(array) $v`, as the list of its values: null is empty, an array
      gives its entries, any other scalar is a list of itself. */
  function SavedData(field: Value): (r: seq<Value>)
    ensures field.Null? ==> r == []
    ensures field.Arr? ==> |r| == |field.entries| && forall i :: 0 <= i < |r| ==> r[i] == field.entries[i].1
    ensures !field.Null? && !field.Arr? && !field.Obj? ==> r == [field]
  {
    match field
    case Null => []
    case Arr(e) => seq(|e|, i requires 0 <= i < |e| => e[i].1)
    case Obj(_, _) => []
    case _ => [field]
  }

  /** `$datum[$k]`: the entry of an array datum, or null when it is
      missing or the datum is not an array. */
  function Field(datum: Value, k: string): Value {
    if datum.Arr? then Lookup(datum.entries, k).GetOr(Null) else Null
  }

  /** The discriminator field, and the map from discriminator values to
      classes (`false` when there is none). */
  datatype Discriminator = Discriminator(field: string, classes: Value)

  /** The class of one datum, as the key it is batched under: with a
      truthy map, the map's entry for the datum's discriminator (null when
      missing); otherwise the discriminator itself. */
  function ClassOf(datum: Value, disc: Discriminator): Result<string> {
    var value := Field(datum, disc.field);
    if Truthy(disc.classes) then
      if disc.classes.Arr? then
        var key :- ArrayKey(value);
        ArrayKey(Lookup(disc.classes.entries, key).GetOr(Null))
      else ArrayKey(Null)
    else ArrayKey(value)
  }

  /** The first loop of `doInitializeSaved`: appends each datum's id to its
      class's batch, a new class at the end. */
  function BatchFrom(acc: Assoc<seq<Value>>, data: seq<Value>, disc: Discriminator): Result<Assoc<seq<Value>>>
    decreases |data|
  {
    if data == [] then Ok(acc)
    else
      var c :- ClassOf(data[0], disc);
      BatchFrom(Put(acc, c, Lookup(acc, c).GetOr([]) + [Field(data[0], "id")]), data[1..], disc)
  }

  function Batches(data: seq<Value>, disc: Discriminator): Result<Assoc<seq<Value>>> {
    BatchFrom([], data, disc)
  }

  /** The ids of the data of class `c`, in order. */
  function IdsOf(data: seq<Value>, disc: Discriminator, c: string): seq<Value> {
    if data == [] then []
    else (if ClassOf(data[0], disc) == Ok(c) then [Field(data[0], "id")] else []) + IdsOf(data[1..], disc, c)
  }

  /** Appends `c` unless it is already there. */
  function AppendNew(ks: seq<string>, c: string): seq<string> {
    if c in ks then ks else ks + [c]
  }

  /** The classes of the data, each once, in order of first appearance. */
  function ClassesFrom(ks: seq<string>, data: seq<Value>, disc: Discriminator): seq<string>
    decreases |data|
  {
    if data == [] then ks
    else
      var c := ClassOf(data[0], disc);
      ClassesFrom(if c.Ok? then AppendNew(ks, c.value) else ks, data[1..], disc)
  }

  function Keys<V>(a: Assoc<V>): (r: seq<string>)
    ensures |r| == |a| && forall i :: 0 <= i < |a| ==> r[i] == a[i].0
  {
    seq(|a|, i requires 0 <= i < |a| => a[i].0)
  }

  /** The number of ids over all batches. */
  function Total(a: Assoc<seq<Value>>): nat {
    if a == [] then 0 else |a[0].1| + Total(a[1..])
  }

  /** Batching fails exactly when some datum has no class. */
  lemma {:induction false} BatchFromFails(acc: Assoc<seq<Value>>, data: seq<Value>, disc: Discriminator)
    ensures BatchFrom(acc, data, disc).Err? <==> exists i :: 0 <= i < |data| && ClassOf(data[i], disc).Err?
    decreases |data|
  {
    if data != [] {
      var c := ClassOf(data[0], disc);
      if c.Ok? {
        BatchFromFails(Put(acc, c.value, Lookup(acc, c.value).GetOr([]) + [Field(data[0], "id")]), data[1..], disc);
        FailsInTail(data, disc);
      }
    }
  }

  /** When the first datum has a class, a datum without one is in the
      rest. */
  lemma FailsInTail(data: seq<Value>, disc: Discriminator)
    requires data != [] && ClassOf(data[0], disc).Ok?
    ensures (exists i :: 0 <= i < |data| && ClassOf(data[i], disc).Err?) <==>
      (exists i :: 0 <= i < |data[1..]| && ClassOf(data[1..][i], disc).Err?)
  {
    var rest := data[1..];
    if exists i :: 0 <= i < |rest| && ClassOf(rest[i], disc).Err? {
      var i :| 0 <= i < |rest| && ClassOf(rest[i], disc).Err?;
      assert data[i + 1] == rest[i];
    }
    if exists i :: 0 <= i < |data| && ClassOf(data[i], disc).Err? {
      var i :| 0 <= i < |data| && ClassOf(data[i], disc).Err?;
      assert i != 0;
      assert rest[i - 1] == data[i];
    }
  }

  /** One round of batching adds `id` to the batch of `k` only. */
  lemma BatchStep(acc: Assoc<seq<Value>>, k: string, id: Value, c: string)
    requires DistinctKeys(acc)
    ensures var acc' := Put(acc, k, Lookup(acc, k).GetOr([]) + [id]);
      && DistinctKeys(acc')
      && (HasKey(acc', c) <==> HasKey(acc, c) || k == c)
      && Lookup(acc', c).GetOr([]) == Lookup(acc, c).GetOr([]) + (if k == c then [id] else [])
  {
    PutLookup(acc, k, Lookup(acc, k).GetOr([]) + [id], c);
  }

  /** Each class's batch is the ids of its data, in order, after what the
      accumulator held; a class no datum has and the accumulator lacks has
      no batch. */
  lemma {:induction false} BatchFromLookup(acc: Assoc<seq<Value>>, data: seq<Value>, disc: Discriminator, c: string)
    requires DistinctKeys(acc) && BatchFrom(acc, data, disc).Ok?
    ensures DistinctKeys(BatchFrom(acc, data, disc).value)
    ensures HasKey(BatchFrom(acc, data, disc).value, c) <==> HasKey(acc, c) || IdsOf(data, disc, c) != []
    ensures Lookup(BatchFrom(acc, data, disc).value, c).GetOr([]) == Lookup(acc, c).GetOr([]) + IdsOf(data, disc, c)
    decreases |data|
  {
    if data == [] {
      assert Lookup(acc, c).GetOr([]) + [] == Lookup(acc, c).GetOr([]);
    } else {
      var k, id, rest := BatchFromUnfold(acc, data, disc);
      var acc' := Put(acc, k, Lookup(acc, k).GetOr([]) + [id]);
      BatchStep(acc, k, id, c);
      BatchFromLookup(acc', rest, disc, c);
      IdsOfUnfold(data, disc, k, c);
      AppendAssoc(Lookup(acc, c).GetOr([]), if k == c then [id] else [], IdsOf(rest, disc, c));
    }
  }

  /** The ids of a class, one datum at a time. */
  lemma IdsOfUnfold(data: seq<Value>, disc: Discriminator, k: string, c: string)
    requires data != [] && ClassOf(data[0], disc) == Ok(k)
    ensures IdsOf(data, disc, c) == (if k == c then [Field(data[0], "id")] else []) + IdsOf(data[1..], disc, c)
  {
  }

  lemma AppendAssoc<T>(a: seq<T>, b: seq<T>, c: seq<T>)
    ensures (a + b) + c == a + (b + c)
  {
  }

  /** One step of batching, named. */
  lemma BatchFromUnfold(acc: Assoc<seq<Value>>, data: seq<Value>, disc: Discriminator) returns (k: string, id: Value, rest: seq<Value>)
    requires data != [] && BatchFrom(acc, data, disc).Ok?
    ensures ClassOf(data[0], disc) == Ok(k) && id == Field(data[0], "id") && rest == data[1..]
    ensures BatchFrom(acc, data, disc) == BatchFrom(Put(acc, k, Lookup(acc, k).GetOr([]) + [id]), rest, disc)
  {
    k, id, rest := ClassOf(data[0], disc).value, Field(data[0], "id"), data[1..];
  }

  /** The batches come in order of the classes' first appearance. */
  lemma {:induction false} BatchFromKeys(acc: Assoc<seq<Value>>, data: seq<Value>, disc: Discriminator)
    requires DistinctKeys(acc) && BatchFrom(acc, data, disc).Ok?
    ensures Keys(BatchFrom(acc, data, disc).value) == ClassesFrom(Keys(acc), data, disc)
    decreases |data|
  {
    if data != [] {
      var k := ClassOf(data[0], disc).value;
      var v := Lookup(acc, k).GetOr([]) + [Field(data[0], "id")];
      var acc' := Put(acc, k, v);
      PutLookup(acc, k, v, k);
      assert Keys(acc') == AppendNew(Keys(acc), k) by {
        var i := KeyIndex(acc, k);
        if i < 0 {
          assert k !in Keys(acc);
        } else {
          assert k in Keys(acc);
        }
      }
      BatchFromKeys(acc', data[1..], disc);
    }
  }

  lemma {:induction false} TotalAppend(a: Assoc<seq<Value>>, e: (string, seq<Value>))
    ensures Total(a + [e]) == Total(a) + |e.1|
    decreases |a|
  {
    if a == [] {
      assert [e][1..] == [];
    } else {
      assert (a + [e])[1..] == a[1..] + [e];
      TotalAppend(a[1..], e);
    }
  }

  lemma {:induction false} TotalUpdate(a: Assoc<seq<Value>>, i: nat, e: (string, seq<Value>))
    requires i < |a|
    ensures Total(a[i := e]) == Total(a) - |a[i].1| + |e.1|
    decreases i
  {
    if i > 0 {
      assert a[i := e][1..] == a[1..][i - 1 := e];
      TotalUpdate(a[1..], i - 1, e);
    }
  }

  /** Every datum's id lands in exactly one batch. */
  lemma {:induction false} BatchFromTotal(acc: Assoc<seq<Value>>, data: seq<Value>, disc: Discriminator)
    requires BatchFrom(acc, data, disc).Ok?
    ensures Total(BatchFrom(acc, data, disc).value) == Total(acc) + |data|
    decreases |data|
  {
    if data != [] {
      var k := ClassOf(data[0], disc).value;
      var v := Lookup(acc, k).GetOr([]) + [Field(data[0], "id")];
      var i := KeyIndex(acc, k);
      if i < 0 {
        TotalAppend(acc, (k, v));
      } else {
        TotalUpdate(acc, i, (k, v));
      }
      BatchFromTotal(Put(acc, k, v), data[1..], disc);
    }
  }

  /** The batches of the saved data: one per class, in first-appearance
      order, each with the ids of that class in order, all ids counted
      once. */
  lemma BatchesProperties(data: seq<Value>, disc: Discriminator)
    requires Batches(data, disc).Ok?
    ensures DistinctKeys(Batches(data, disc).value)
    ensures Keys(Batches(data, disc).value) == ClassesFrom([], data, disc)
    ensures forall c ::
              Lookup(Batches(data, disc).value, c) == (if IdsOf(data, disc, c) != [] then Some(IdsOf(data, disc, c)) else None)
    ensures Total(Batches(data, disc).value) == |data|
  {
    forall c
      ensures Lookup(Batches(data, disc).value, c) ==
        if IdsOf(data, disc, c) != [] then Some(IdsOf(data, disc, c)) else None
    {
      BatchFromLookup([], data, disc, c);
      assert !HasKey<seq<Value>>([], c);
      assert [] + IdsOf(data, disc, c) == IdsOf(data, disc, c);
      var r := Batches(data, disc).value;
      assert Lookup(r, c).Some? ==> Lookup(r, c) == Some(Lookup(r, c).GetOr([]));
    }
    BatchFromLookup([], data, disc, "");
    assert Keys<seq<Value>>([]) == [];
    BatchFromKeys([], data, disc);
    BatchFromTotal([], data, disc);
  }

  /** The second loop: each batch's `findById` result, concatenated. */
  function Fetched<D>(batches: Assoc<seq<Value>>, find: (string, seq<Value>) -> seq<D>): seq<D> {
    if batches == [] then [] else find(batches[0].0, batches[0].1) + Fetched(batches[1..], find)
  }

  /** `doInitializeSaved`: batches the ids by class, then calls
      `findById` once per batch, in batch order, and concatenates the
      documents found. A datum without a class raises an Error before any
      call. */
  method InitializeSaved<D>(data: seq<Value>, disc: Discriminator, find: (string, seq<Value>) -> seq<D>)
    returns (r: Result<seq<D>>, calls: Assoc<seq<Value>>)
    ensures r.Err? <==> Batches(data, disc).Err?
    ensures r.Err? ==> calls == []
    ensures r.Ok? ==> calls == Batches(data, disc).value && r.value == Fetched(calls, find)
  {
    var ids: Assoc<seq<Value>> := [];
    var i := 0;
    while i < |data|
      invariant 0 <= i <= |data|
      invariant BatchFrom(ids, data[i..], disc) == Batches(data, disc)
    {
      assert data[i..][1..] == data[i + 1..];
      var c := ClassOf(data[i], disc);
      if c.Err? {
        return Err(c.error), [];
      }
      ids := Put(ids, c.value, Lookup(ids, c.value).GetOr([]) + [Field(data[i], "id")]);
      i := i + 1;
    }
    var documents: seq<D> := [];
    calls := [];
    var j := 0;
    while j < |ids|
      invariant 0 <= j <= |ids|
      invariant calls == ids[..j]
      invariant documents + Fetched(ids[j..], find) == Fetched(ids, find)
    {
      assert ids[j..][1..] == ids[j + 1..];
      calls := calls + [ids[j]];
      documents := documents + find(ids[j].0, ids[j].1);
      j := j + 1;
    }
    assert ids[..j] == ids;
    return Ok(documents), calls;
  }

  /** `findById` is called once for each class that has ids, with exactly
      that class's ids, in order, and for no other class. */
  lemma OneCallPerClass(data: seq<Value>, disc: Discriminator, c: string)
    requires Batches(data, disc).Ok?
    ensures var calls := Batches(data, disc).value;
      && (IdsOf(data, disc, c) != [] <==> exists i :: 0 <= i < |calls| && calls[i].0 == c)
      && (forall i, j :: 0 <= i < j < |calls| ==> calls[i].0 != calls[j].0)
      && (forall i :: 0 <= i < |calls| && calls[i].0 == c ==> calls[i].1 == IdsOf(data, disc, c))
  {
    BatchesProperties(data, disc);
    var calls := Batches(data, disc).value;
    forall i | 0 <= i < |calls| && calls[i].0 == c
      ensures calls[i].1 == IdsOf(data, disc, c)
    {
      assert KeyIndex(calls, c) == i;
    }
  }
}
