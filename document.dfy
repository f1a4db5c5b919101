/** Document: the root document of a collection. On top of the change
    tracking of `Documents` it keeps the `isNew` flag, the fields loaded by
    the query that produced it (`queryFields`), the hashes of the queries
    that returned it, and a queue of one-shot event callbacks. The
    repository, the collection and the loading of raw data into fields are
    outside the model: a fetch is a parameter and `save` reports the
    options it routes. */
module RootDocument {
  import opened Wrappers
  import opened PhpValues
  import opened Strings
  import opened Groups
  import opened Cache
  import opened Documents

  /** The cached query hint: `['fields' => [name => 1], 'references' =>
      [name, ...]]`, either key possibly missing. */
  datatype Hint = Hint(fields: Option<map<string, int>>, references: Option<seq<string>>)

  /** A falsy cache value (null or `[]`) is read as the empty hint. */
  const EmptyHint := Hint(None, None)

  /** `isset($value['fields'][$field]) && (int) $value['fields'][$field] === 1`. */
  predicate HasField(v: Hint, field: string) {
    v.fields.Some? && field in v.fields.value && v.fields.value[field] == 1
  }

  /** `$value['fields'][$field] = 1`. */
  function WithField(v: Hint, field: string): (r: Hint)
    ensures HasField(r, field)
    ensures forall f :: HasField(v, f) ==> HasField(r, f)
  {
    v.(fields := Some(v.fields.GetOr(map[])[field := 1]))
  }

  /** `isset($value['references']) && in_array($reference, $value['references'])`. */
  predicate HasReference(v: Hint, reference: string) {
    v.references.Some? && reference in v.references.value
  }

  /** `$value['references'][] = $reference`. */
  function WithReference(v: Hint, reference: string): (r: Hint)
    ensures HasReference(r, reference)
    ensures forall x :: HasReference(v, x) ==> HasReference(r, x)
    ensures r.references.Some? && |r.references.value| == |v.references.GetOr([])| + 1
    ensures r.references.value[..|v.references.GetOr([])|] == v.references.GetOr([])
  {
    v.(references := Some(v.references.GetOr([]) + [reference]))
  }

  /** What `addFieldCache` and `addReferenceCache` add to a hint. */
  datatype Widening = FieldFlag(field: string) | Reference(name: string) {
    /** The hint already has the entry: nothing is written. */
    predicate In(v: Hint) {
      match this
      case FieldFlag(f) => HasField(v, f)
      case Reference(n) => HasReference(v, n)
    }

    /** The hint with the entry added. */
    function Apply(v: Hint): (r: Hint)
      ensures In(r)
    {
      match this
      case FieldFlag(f) => WithField(v, f)
      case Reference(n) => WithReference(v, n)
    }
  }

  /** The cache map after `get(hash)`: an expired entry is removed. */
  function AfterGet(data: map<string, Packed<Hint>>, hash: string, now: int): map<string, Packed<Hint>> {
    if hash in data && Expired(data[hash], now) then data - {data[hash].key} else data
  }

  /** What `get(hash)` returns, with a falsy value read as `[]`. */
  function CachedHint(data: map<string, Packed<Hint>>, hash: string, now: int): Hint {
    Unpack(if hash in data then Some(data[hash]) else None, now).GetOr(EmptyHint)
  }

  /** One hash of `addFieldCache` / `addReferenceCache`: read the hint and,
      unless it already has the entry, write it back widened with no
      ttl. */
  function WidenStep(data: map<string, Packed<Hint>>, hash: string, now: int, w: Widening): map<string, Packed<Hint>> {
    var v := CachedHint(data, hash, now);
    var d1 := AfterGet(data, hash, now);
    if w.In(v) then d1 else d1[hash := Pack(hash, w.Apply(v), 0, now)]
  }

  /** The loop over the query hashes, in order. */
  function WidenAll(data: map<string, Packed<Hint>>, hashes: seq<string>, now: int, w: Widening): map<string, Packed<Hint>>
    decreases |hashes|
  {
    if hashes == [] then data else WidenAll(WidenStep(data, hashes[0], now, w), hashes[1..], now, w)
  }

  /** Every entry is stored under its own key, as `set` stores it. */
  predicate KeysMatch(data: map<string, Packed<Hint>>) {
    forall k :: k in data ==> data[k].key == k
  }

  /** The hint under `hash` is live and already has the entry. */
  ghost predicate Widened(data: map<string, Packed<Hint>>, hash: string, now: int, w: Widening) {
    hash in data && !Expired(data[hash], now) && w.In(data[hash].value)
  }

  /** One step widens its own hash and keeps every hash already widened. */
  lemma WidenStepWidens(data: map<string, Packed<Hint>>, hash: string, now: int, w: Widening, other: string)
    requires KeysMatch(data)
    ensures KeysMatch(WidenStep(data, hash, now, w))
    ensures Widened(WidenStep(data, hash, now, w), hash, now, w)
    ensures Widened(data, other, now, w) ==> Widened(WidenStep(data, hash, now, w), other, now, w)
  {
    var v := CachedHint(data, hash, now);
    var d1 := AfterGet(data, hash, now);
    if w.In(v) {
      assert hash in data && !Expired(data[hash], now);
    }
  }

  /** After the loop every hash holds a live hint with the entry, and the
      entries already present stay so. */
  lemma {:induction false} WidenAllWidens(data: map<string, Packed<Hint>>, hashes: seq<string>, now: int, w: Widening)
    requires KeysMatch(data)
    ensures KeysMatch(WidenAll(data, hashes, now, w))
    ensures forall h :: h in hashes ==> Widened(WidenAll(data, hashes, now, w), h, now, w)
    ensures forall h :: Widened(data, h, now, w) ==> Widened(WidenAll(data, hashes, now, w), h, now, w)
    decreases |hashes|
  {
    if hashes != [] {
      var d1 := WidenStep(data, hashes[0], now, w);
      forall h
        ensures KeysMatch(d1) && Widened(d1, hashes[0], now, w)
        ensures Widened(data, h, now, w) ==> Widened(d1, h, now, w)
      {
        WidenStepWidens(data, hashes[0], now, w, h);
      }
      WidenAllWidens(d1, hashes[1..], now, w);
      forall h | h in hashes
        ensures Widened(WidenAll(data, hashes, now, w), h, now, w)
      {
        if h != hashes[0] {
          assert h in hashes[1..];
        }
      }
    }
  }

  /** The four kinds of one-shot events. */
  datatype OnceType = PreInsert | PostInsert | PreUpdate | PostUpdate

  /** A registered callable, identified by a token. */
  type Callback = nat

  class Document {
    /** The identity embedded documents record as their root. */
    const ref: RootRef
    var isNew: bool
    var id: Value
    /** `queryFields`: null, or the fields flagged 1; `Some({})` is `[]`,
        which means every field was loaded. */
    var queryFields: Option<set<string>>
    /** The archive entry `query_hashes`, absent until first written. */
    var queryHashes: Option<seq<string>>
    var data: Doc
    var onceEvents: map<OnceType, seq<Callback>>

    constructor(ref: RootRef, data: Doc)
      ensures this.ref == ref && this.data == data
      ensures isNew && id == Null && queryFields == None && queryHashes == None && onceEvents == map[]
    {
      this.ref := ref;
      this.data := data;
      isNew := true;
      id := Null;
      queryFields := None;
      queryHashes := None;
      onceEvents := map[];
    }

    /** `isFieldInQuery`: `[]` means all fields; otherwise membership, and
        nothing while queryFields is still null. */
    function IsFieldInQuery(field: string): (r: bool)
      reads this
      ensures queryFields == Some({}) ==> r
      ensures queryFields.None? ==> !r
      ensures queryFields.Some? && queryFields.value != {} ==> (r <==> field in queryFields.value)
    {
      queryFields == Some({}) || (queryFields.Some? && field in queryFields.value)
    }

    /** `setQueryFields`: keeps the fields whose flag is truthy. */
    method SetQueryFields(fields: seq<(string, Value)>)
      modifies this
      ensures queryFields == Some(set i | 0 <= i < |fields| && Truthy(fields[i].1) :: fields[i].0)
      ensures forall f :: f in queryFields.value <==> exists i :: 0 <= i < |fields| && fields[i].0 == f && Truthy(fields[i].1)
      ensures isNew == old(isNew) && id == old(id) && queryHashes == old(queryHashes) && data == old(data) && onceEvents == old(onceEvents)
    {
      var kept: set<string> := {};
      var i := 0;
      while i < |fields|
        invariant 0 <= i <= |fields|
        invariant kept == set j | 0 <= j < i && Truthy(fields[j].1) :: fields[j].0
        invariant isNew == old(isNew) && id == old(id) && queryHashes == old(queryHashes) && data == old(data) && onceEvents == old(onceEvents)
      {
        if Truthy(fields[i].1) {
          kept := kept + {fields[i].0};
        }
        i := i + 1;
      }
      queryFields := Some(kept);
    }

    /** `save`: a new document resets queryFields to `[]` and hands the
        options to the repository as batch-insert options; a persisted one
        hands them over as update options. */
    method Save(options: seq<(string, Value)>) returns (insertOptions: seq<(string, Value)>, updateOptions: seq<(string, Value)>)
      modifies this
      ensures old(isNew) ==> insertOptions == options && updateOptions == [] && queryFields == Some({})
      ensures !old(isNew) ==> insertOptions == [] && updateOptions == options && queryFields == old(queryFields)
      ensures isNew == old(isNew) && id == old(id) && queryHashes == old(queryHashes) && data == old(data) && onceEvents == old(onceEvents)
    {
      if isNew {
        queryFields := Some({});
        insertOptions := options;
        updateOptions := [];
      } else {
        insertOptions := [];
        updateOptions := options;
      }
    }

    /** `refresh`: a new document raises LogicException; otherwise the
        document is looked up by its id (returned here). */
    method Refresh() returns (o: Outcome, lookup: Option<Value>)
      ensures isNew ==> o == Fail(Logic) && lookup == None
      ensures !isNew ==> o == Pass && lookup == Some(id)
    {
      if isNew {
        return Fail(Logic), None;
      }
      return Pass, Some(id);
    }

    /** `loadFull`: nothing is fetched when every field is loaded or the
        document is new; otherwise the fetched data minus the modified
        fields is loaded and queryFields becomes `[]`. Always true. */
    method LoadFull(fetched: map<string, Value>) returns (r: bool, loaded: Option<map<string, Value>>)
      modifies this
      ensures r
      ensures old(queryFields) == Some({}) || old(isNew) ==> loaded == None && queryFields == old(queryFields)
      ensures !(old(queryFields) == Some({}) || old(isNew)) ==>
        loaded == Some(map k | k in fetched && k !in data.fieldsModified :: fetched[k]) && queryFields == Some({})
      ensures isNew == old(isNew) && id == old(id) && queryHashes == old(queryHashes) && data == old(data) && onceEvents == old(onceEvents)
    {
      r := true;
      if queryFields == Some({}) || isNew {
        return r, None;
      }
      var remaining := fetched;
      var names := data.fieldsModified.Keys;
      while names != {}
        invariant names <= data.fieldsModified.Keys
        invariant remaining == map k | k in fetched && (k !in data.fieldsModified || k in names) :: fetched[k]
        decreases names
      {
        var n :| n in names;
        remaining := remaining - {n};
        names := names - {n};
      }
      assert remaining == map k | k in fetched && k !in data.fieldsModified :: fetched[k];
      loaded := Some(remaining);
      queryFields := Some({});
    }

    /** `getQueryHashes`: the list, `[]` when absent. */
    function GetQueryHashes(): (r: seq<string>)
      reads this
      ensures queryHashes.Some? ==> r == queryHashes.value
      ensures queryHashes.None? ==> r == []
    {
      queryHashes.GetOr([])
    }

    /** `addQueryHash`: appends, creating the list when absent. */
    method AddQueryHash(hash: string)
      modifies this
      ensures queryHashes == Some(old(GetQueryHashes()) + [hash])
      ensures isNew == old(isNew) && id == old(id) && queryFields == old(queryFields) && data == old(data) && onceEvents == old(onceEvents)
    {
      queryHashes := Some(GetQueryHashes() + [hash]);
    }

    /** `removeQueryHash`: removes the first occurrence and re-indexes. An
        absent hash makes `array_search` return false, which as a key is
        0, so the first hash is removed instead. */
    method RemoveQueryHash(hash: string)
      modifies this
      ensures hash in old(GetQueryHashes()) ==> queryHashes == Some(RemoveFirst(old(GetQueryHashes()), hash))
      ensures hash !in old(GetQueryHashes()) && old(GetQueryHashes()) != [] ==> queryHashes == Some(old(GetQueryHashes())[1..])
      ensures old(GetQueryHashes()) == [] ==> queryHashes == Some([])
      ensures isNew == old(isNew) && id == old(id) && queryFields == old(queryFields) && data == old(data) && onceEvents == old(onceEvents)
    {
      var hs := GetQueryHashes();
      var i := IndexOf(hs, hash);
      if i < 0 {
        i := 0;
      }
      if i < |hs| {
        assert i == 0 ==> hs[..i] + hs[i + 1..] == hs[1..];
        hs := hs[..i] + hs[i + 1..];
      }
      queryHashes := Some(hs);
    }

    /** `clearQueryHashes`: removes the archive entry. */
    method ClearQueryHashes()
      modifies this
      ensures queryHashes == None && GetQueryHashes() == []
      ensures isNew == old(isNew) && id == old(id) && queryFields == old(queryFields) && data == old(data) && onceEvents == old(onceEvents)
    {
      queryHashes := None;
    }

    /** The loop shared by `addFieldCache` and `addReferenceCache`. */
    method WidenHints(cache: ArrayCache<Hint>, now: int, w: Widening)
      modifies cache
      ensures cache.data == WidenAll(old(cache.data), GetQueryHashes(), now, w)
    {
      var hashes := GetQueryHashes();
      var i := 0;
      while i < |hashes|
        invariant 0 <= i <= |hashes|
        invariant WidenAll(cache.data, hashes[i..], now, w) == WidenAll(old(cache.data), hashes, now, w)
      {
        ghost var before := cache.data;
        var value := cache.Get(hashes[i], now);
        var v := value.GetOr(EmptyHint);
        assert v == CachedHint(before, hashes[i], now);
        if !w.In(v) {
          cache.Set(hashes[i], w.Apply(v), 0, now);
        }
        assert cache.data == WidenStep(before, hashes[i], now, w);
        assert hashes[i..][1..] == hashes[i + 1..];
        i := i + 1;
      }
    }

    /** `addFieldCache`: without a fields cache nothing happens; otherwise
        the field, stripped of its `.<digits>` indexes, is flagged 1 in the
        hint of every query hash. */
    method AddFieldCache(field: string, cache: ArrayCache?<Hint>, now: int)
      modifies cache
      ensures cache != null ==>
        cache.data == WidenAll(old(cache.data), GetQueryHashes(), now, FieldFlag(StripIndexes(field)))
      ensures cache != null && KeysMatch(old(cache.data)) ==>
        forall h :: h in GetQueryHashes() ==> Widened(cache.data, h, now, FieldFlag(StripIndexes(field)))
    {
      if cache == null {
        return;
      }
      WidenHints(cache, now, FieldFlag(StripIndexes(field)));
      if KeysMatch(old(cache.data)) {
        WidenAllWidens(old(cache.data), GetQueryHashes(), now, FieldFlag(StripIndexes(field)));
      }
    }

    /** `addReferenceCache`: without a fields cache nothing happens;
        otherwise the reference is appended to the hint of every query hash
        that lacks it. */
    method AddReferenceCache(reference: string, cache: ArrayCache?<Hint>, now: int)
      modifies cache
      ensures cache != null ==>
        cache.data == WidenAll(old(cache.data), GetQueryHashes(), now, Reference(reference))
      ensures cache != null && KeysMatch(old(cache.data)) ==>
        forall h :: h in GetQueryHashes() ==> Widened(cache.data, h, now, Reference(reference))
    {
      if cache == null {
        return;
      }
      WidenHints(cache, now, Reference(reference));
      if KeysMatch(old(cache.data)) {
        WidenAllWidens(old(cache.data), GetQueryHashes(), now, Reference(reference));
      }
    }

    /** `registerOnceEvent`: a non-callable raises Exception; a callable
        is queued after the earlier ones of its type. */
    method RegisterOnceEvent(event: Callback, callable: bool, t: OnceType) returns (o: Outcome)
      modifies this
      ensures !callable ==> o == Fail(GenericException) && onceEvents == old(onceEvents)
      ensures callable ==> o == Pass && onceEvents == old(onceEvents)[t := old(QueuedOnce(t)) + [event]]
      ensures isNew == old(isNew) && id == old(id) && queryFields == old(queryFields) && queryHashes == old(queryHashes) && data == old(data)
    {
      if !callable {
        return Fail(GenericException);
      }
      onceEvents := onceEvents[t := QueuedOnce(t) + [event]];
      return Pass;
    }

    /** The callbacks queued for a type. */
    function QueuedOnce(t: OnceType): (r: seq<Callback>)
      reads this
      ensures t in onceEvents ==> r == onceEvents[t]
      ensures t !in onceEvents ==> r == []
    {
      if t in onceEvents then onceEvents[t] else []
    }

    /** `executeOnceEvent`: runs the queued callbacks in registration order
        (`ran`) and empties the queue; an unset type runs nothing. */
    method ExecuteOnceEvent(t: OnceType) returns (ran: seq<Callback>)
      modifies this
      ensures ran == old(QueuedOnce(t))
      ensures t in old(onceEvents) ==> onceEvents == old(onceEvents)[t := []]
      ensures t !in old(onceEvents) ==> onceEvents == old(onceEvents)
      ensures isNew == old(isNew) && id == old(id) && queryFields == old(queryFields) && queryHashes == old(queryHashes) && data == old(data)
    {
      ran := [];
      if t !in onceEvents {
        return;
      }
      var queue := onceEvents[t];
      var i := 0;
      while i < |queue|
        invariant 0 <= i <= |queue|
        invariant ran == queue[..i]
      {
        ran := ran + [queue[i]];
        i := i + 1;
      }
      onceEvents := onceEvents[t := []];
    }

    /** `isModified` of the root: embedded documents report against this
        document's `isNew`; other roots are asked through `othersNew`. */
    predicate IsModified(othersNew: RootRef -> bool)
      reads this
    {
      Documents.IsModified(data, Some(ref), RootsNew(othersNew))
    }

    function RootsNew(othersNew: RootRef -> bool): RootRef -> bool
      reads this
    {
      var me := ref;
      var flag := isNew;
      (r: RootRef) => if r == me then flag else othersNew(r)
    }

    /** `clearModified` of the root: the tree is left as
        `Documents.ClearModified` leaves it, settled on success and as far
        as it got when a call raised. */
    method ClearModified(toStr: Doc -> Option<string>) returns (o: Outcome)
      modifies this
      ensures data == Documents.ClearModified(old(data), toStr).value
      ensures o.Pass? <==> Documents.ClearModified(old(data), toStr).Done?
      ensures o.Pass? ==> Settled(data)
      ensures o.Fail? ==> o.error == Documents.ClearModified(old(data), toStr).error
      ensures old(data).fields.Some? ==> data.fieldsModified == map[]
      ensures isNew == old(isNew) && id == old(id) && queryFields == old(queryFields) && queryHashes == old(queryHashes) && onceEvents == old(onceEvents)
    {
      var r := Documents.ClearModified(data, toStr);
      if r.Done? {
        ClearModifiedSettles(data, toStr);
        o := Pass;
      } else {
        o := Fail(r.error);
      }
      data := r.value;
    }
  }

  /** Registering then executing: the callbacks run once, in order, and a
      second execution runs nothing. */
  method ExecuteRunsOnce(doc: Document, t: OnceType, a: Callback, b: Callback) returns (first: seq<Callback>, second: seq<Callback>)
    requires t !in doc.onceEvents
    modifies doc
    ensures first == [a, b] && second == []
  {
    var o1 := doc.RegisterOnceEvent(a, true, t);
    var o2 := doc.RegisterOnceEvent(b, true, t);
    first := doc.ExecuteOnceEvent(t);
    second := doc.ExecuteOnceEvent(t);
  }

  /** `setQueryFields` with no truthy flag yields `[]`, which reads as
      "every field is in the query". */
  method NoFlagMeansAllFields(doc: Document, fields: seq<(string, Value)>, probe: string) returns (r: bool)
    requires forall i :: 0 <= i < |fields| ==> !Truthy(fields[i].1)
    modifies doc
    ensures r
  {
    doc.SetQueryFields(fields);
    assert forall f :: f !in doc.queryFields.value;
    assert doc.queryFields.value == {};
    r := doc.IsFieldInQuery(probe);
  }

  /** Removing a hash that is not listed drops the first one. */
  method RemoveAbsentHashDropsFirst(doc: Document, first: string, second: string, absent: string) returns (after: seq<string>)
    requires doc.queryHashes == None && absent != first && absent != second
    modifies doc
    ensures after == [second]
  {
    doc.AddQueryHash(first);
    doc.AddQueryHash(second);
    doc.RemoveQueryHash(absent);
    after := doc.GetQueryHashes();
  }
}
