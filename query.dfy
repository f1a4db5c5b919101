/** Query: a fluent builder over one document class's collection. Its
    setters validate their argument and throw on a bad one, leaving the
    query as it was; `one` borrows the limit for a single run;
    `generateOptionsForFind` turns the builder's state into the driver's
    find options; and `createResult` filters a text search's scored
    response. Running a query (`all`), the text-search command and the
    documents' ids are parameters. */
module Queries {
  import opened Wrappers
  import opened PhpValues
  import opened PhpArrays

  /** A text search: the search, the score a result must reach (none, or a
      zero score, means no threshold) and the language. */
  datatype TextSearch = TextSearch(search: Value, requiredScore: Option<real>, language: Value)

  /** Everything a query holds besides its repository and hash. */
  datatype QueryState = QueryState(
    criteria: Assoc<Value>,
    fields: Value,
    references: Value,
    sort: Value,
    limit: Option<int>,
    skip: Option<int>,
    batchSize: Option<int>,
    hint: Value,
    snapshot: bool,
    timeout: Option<int>,
    text: Option<TextSearch>)

  /** `isset($cache[$k])`: the entry of a cache array that is present and
      not null. */
  function CacheEntry(cache: Option<Assoc<Value>>, k: string): (r: Option<Value>)
    ensures r.Some? <==> cache.Some? && HasKey(cache.value, k) && !Lookup(cache.value, k).value.Null?
    ensures r.Some? ==> Lookup(cache.value, k) == r
  {
    if cache.Some? then
      match Lookup(cache.value, k)
      case Some(v) => if v.Null? then None else Some(v)
      case None => None
    else None
  }

  /** The state of a new query: no criteria, no fields and no references
      unless the query's cache remembers some, no snapshot, and every
      other setting unset. */
  function InitialState(cache: Option<Assoc<Value>>): (s: QueryState)
    ensures s.criteria == [] && !s.snapshot && s.text.None?
    ensures s.limit.None? && s.skip.None? && s.batchSize.None? && s.timeout.None?
    ensures s.sort.Null? && s.hint.Null?
    ensures s.fields == CacheEntry(cache, "fields").GetOr(Arr([]))
    ensures s.references == CacheEntry(cache, "references").GetOr(Arr([]))
  {
    QueryState([], CacheEntry(cache, "fields").GetOr(Arr([])), CacheEntry(cache, "references").GetOr(Arr([])),
      Null, None, None, None, Null, false, None, None)
  }

  /** The argument check of `limit`, `skip`, `batchSize` and `timeout`:
      null unsets, a genuine integer is stored, and anything else (a
      numeric string, a float, a non-number) is an invalid argument. */
  function CountArg(v: Value): (r: Result<Option<int>>)
    ensures r.Ok? <==> v.Null? || IsStrictInt(v)
    ensures r.Err? ==> r.error == InvalidArgument
    ensures r.Ok? && r.value.Some? ==> v == Int(r.value.value)
    ensures r == Ok(None) ==> v.Null?
  {
    if v.Null? then Ok(None)
    else if IsNumeric(v) && IsStrictInt(v) then Ok(Some(v.i))
    else Err(InvalidArgument)
  }

  /** The argument check of `references`, `sort` and `hint`: null or an
      array is stored as it is; anything else is an invalid argument,
      except that formatting an object without a string conversion into
      the message fails first. `toStr` stands for an object's
      `__toString`, if it has one. */
  function ArrayArg(v: Value, toStr: Value -> Option<string>): (r: Result<Value>)
    ensures r.Ok? <==> v.Null? || v.Arr?
    ensures r.Ok? ==> r.value == v
    ensures r.Err? ==> r.error == (if v.Obj? && toStr(v).None? then PhpError else InvalidArgument)
  {
    if v.Null? || v.Arr? then Ok(v)
    else if v.Obj? && toStr(v).None? then Err(PhpError)
    else Err(InvalidArgument)
  }

  /** The value a getter hands back for a count setting. */
  function CountValue(o: Option<int>): Value {
    if o.Some? then Int(o.value) else Null
  }

  /** Whatever a count getter returns, its setter accepts and stores
      unchanged. */
  lemma CountArgRoundTrip(o: Option<int>)
    ensures CountArg(CountValue(o)) == Ok(o)
  {
  }

  /** An option value: `0` and unset are both falsy. */
  predicate IsSetCount(o: Option<int>) {
    o.Some? && o.value != 0
  }

  /** One optional entry of the find options. */
  function OptionEntry(name: string, present: bool, v: Value): (r: Assoc<Value>)
    ensures HasKey(r, name) <==> present
    ensures forall n :: Lookup(r, n) == if present && n == name then Some(v) else None
  {
    if present then
      assert [(name, v)][0].0 == name;
      [(name, v)]
    else []
  }

  /** `generateOptionsForFind`: projection, limit, skip and sort, each only
      when truthy, in that order. */
  function FindOptions(s: QueryState): Assoc<Value> {
    OptionEntry("projection", Truthy(s.fields), s.fields) +
    (OptionEntry("limit", IsSetCount(s.limit), CountValue(s.limit)) +
    (OptionEntry("skip", IsSetCount(s.skip), CountValue(s.skip)) +
    OptionEntry("sort", Truthy(s.sort), s.sort)))
  }

  /** Each find option is present exactly when its setting is truthy, and
      then carries the setting; no other option appears. */
  lemma FindOptionsLookup(s: QueryState, n: string)
    ensures Lookup(FindOptions(s), n) ==
      if n == "projection" && Truthy(s.fields) then Some(s.fields)
      else if n == "limit" && IsSetCount(s.limit) then Some(Int(s.limit.value))
      else if n == "skip" && IsSetCount(s.skip) then Some(Int(s.skip.value))
      else if n == "sort" && Truthy(s.sort) then Some(s.sort)
      else None
  {
    var p := OptionEntry("projection", Truthy(s.fields), s.fields);
    var l := OptionEntry("limit", IsSetCount(s.limit), CountValue(s.limit));
    var k := OptionEntry("skip", IsSetCount(s.skip), CountValue(s.skip));
    var so := OptionEntry("sort", Truthy(s.sort), s.sort);
    LookupConcat(p, l + (k + so), n);
    LookupConcat(l, k + so, n);
    LookupConcat(k, so, n);
  }

  // ---------------------------------------------------------------------
  // Text search results

  /** One entry of a text search's response: its score and its document. */
  datatype Scored<D> = Scored(score: real, obj: D)

  /** The text command `createResult` sends: the limit grows by the skip
      when both are set, since the skipped results are dropped locally. */
  datatype TextCommand = TextCommand(
    search: Value, criteria: Assoc<Value>, fields: Value, limit: Option<int>, language: Value,
    options: Assoc<Value>)

  function CommandOf(s: QueryState, t: TextSearch): (c: TextCommand)
    ensures c.search == t.search && c.language == t.language
    ensures c.criteria == s.criteria && c.fields == s.fields
    ensures IsSetCount(s.skip) && IsSetCount(s.limit) ==> c.limit == Some(s.limit.value + s.skip.value)
    ensures !(IsSetCount(s.skip) && IsSetCount(s.limit)) ==> c.limit == s.limit
    ensures HasKey(c.options, "timeout") <==> IsSetCount(s.timeout)
    ensures IsSetCount(s.timeout) ==> c.options == [("timeout", Int(s.timeout.value))]
  {
    var limit := if IsSetCount(s.skip) && IsSetCount(s.limit) then Some(s.limit.value + s.skip.value) else s.limit;
    var options := if IsSetCount(s.timeout) then [("timeout", Int(s.timeout.value))] else [];
    assert IsSetCount(s.timeout) ==> options[0].0 == "timeout";
    TextCommand(t.search, s.criteria, s.fields, limit, t.language, options)
  }

  /** Whether the response entry at `index` survives: its score reaches the
      required score (when that is truthy) and it is not among the first
      `skip` entries (when skip is truthy). */
  predicate Kept(s: QueryState, t: TextSearch, index: nat, score: real) {
    !(t.requiredScore.Some? && t.requiredScore.value != 0.0 && t.requiredScore.value > score) &&
    !(IsSetCount(s.skip) && index < s.skip.value)
  }

  /** The result of `createResult` from the entry at `index` on: each kept
      document stored under its id, a later one replacing an earlier one
      with the same id. */
  function Collect<D>(acc: Assoc<D>, s: QueryState, t: TextSearch, rs: seq<Scored<D>>, index: nat,
                      idKey: D -> string): Assoc<D>
    decreases |rs|
  {
    if rs == [] then acc
    else
      var acc' := if Kept(s, t, index, rs[0].score) then Put(acc, idKey(rs[0].obj), rs[0].obj) else acc;
      Collect(acc', s, t, rs[1..], index + 1, idKey)
  }

  /** The entry at position `i` of `rs` is kept and has id `k`. */
  predicate KeptWithId<D>(s: QueryState, t: TextSearch, rs: seq<Scored<D>>, index: nat, idKey: D -> string,
                          k: string, i: int)
    requires 0 <= i < |rs|
  {
    Kept(s, t, index + i, rs[i].score) && idKey(rs[i].obj) == k
  }

  /** Shifting the window by one entry. */
  lemma KeptWithIdTail<D>(s: QueryState, t: TextSearch, rs: seq<Scored<D>>, index: nat, idKey: D -> string,
                          k: string, i: int)
    requires 0 < i < |rs|
    ensures KeptWithId(s, t, rs, index, idKey, k, i) == KeptWithId(s, t, rs[1..], index + 1, idKey, k, i - 1)
  {
    assert rs[1..][i - 1] == rs[i];
  }

  /** A key is in the result exactly when it was there before or some
      kept entry has that id; the keys stay distinct. */
  lemma {:induction false} CollectKeys<D>(acc: Assoc<D>, s: QueryState, t: TextSearch, rs: seq<Scored<D>>,
                                          index: nat, idKey: D -> string, k: string)
    requires DistinctKeys(acc)
    ensures DistinctKeys(Collect(acc, s, t, rs, index, idKey))
    ensures HasKey(Collect(acc, s, t, rs, index, idKey), k) <==>
      HasKey(acc, k) || exists i :: 0 <= i < |rs| && KeptWithId(s, t, rs, index, idKey, k, i)
    decreases |rs|
  {
    if rs != [] {
      var kept := Kept(s, t, index, rs[0].score);
      var acc' := if kept then Put(acc, idKey(rs[0].obj), rs[0].obj) else acc;
      if kept {
        PutLookup(acc, idKey(rs[0].obj), rs[0].obj, k);
      }
      CollectKeys(acc', s, t, rs[1..], index + 1, idKey, k);
      assert Collect(acc, s, t, rs, index, idKey) == Collect(acc', s, t, rs[1..], index + 1, idKey);
      assert HasKey(acc', k) <==> HasKey(acc, k) || KeptWithId(s, t, rs, index, idKey, k, 0);
      if exists i :: 0 <= i < |rs| && KeptWithId(s, t, rs, index, idKey, k, i) {
        var i :| 0 <= i < |rs| && KeptWithId(s, t, rs, index, idKey, k, i);
        if i > 0 {
          KeptWithIdTail(s, t, rs, index, idKey, k, i);
        }
      }
      var rest, next := rs[1..], index + 1;
      if exists i :: 0 <= i < |rest| && KeptWithId(s, t, rest, next, idKey, k, i) {
        var i :| 0 <= i < |rest| && KeptWithId(s, t, rest, next, idKey, k, i);
        KeptWithIdTail(s, t, rs, index, idKey, k, i + 1);
      }
    }
  }

  /** A key holds the document of the last kept entry with that id. */
  lemma {:induction false} CollectLast<D>(acc: Assoc<D>, s: QueryState, t: TextSearch, rs: seq<Scored<D>>,
                                          index: nat, idKey: D -> string, k: string, i: int)
    requires DistinctKeys(acc)
    requires 0 <= i < |rs| && KeptWithId(s, t, rs, index, idKey, k, i)
    requires forall j :: i < j < |rs| ==> !KeptWithId(s, t, rs, index, idKey, k, j)
    ensures Lookup(Collect(acc, s, t, rs, index, idKey), k) == Some(rs[i].obj)
    decreases |rs|
  {
    var kept := Kept(s, t, index, rs[0].score);
    var acc' := if kept then Put(acc, idKey(rs[0].obj), rs[0].obj) else acc;
    if kept {
      PutLookup(acc, idKey(rs[0].obj), rs[0].obj, k);
    }
    assert Collect(acc, s, t, rs, index, idKey) == Collect(acc', s, t, rs[1..], index + 1, idKey);
    var rest, next := rs[1..], index + 1;
    forall j | 0 <= j < |rest|
      ensures KeptWithId(s, t, rest, next, idKey, k, j) == KeptWithId(s, t, rs, index, idKey, k, j + 1)
    {
      KeptWithIdTail(s, t, rs, index, idKey, k, j + 1);
    }
    if i > 0 {
      CollectLast(acc', s, t, rs[1..], index + 1, idKey, k, i - 1);
    } else {
      CollectKeys(acc', s, t, rs[1..], index + 1, idKey, k);
      CollectUntouched(acc', s, t, rs[1..], index + 1, idKey, k);
    }
  }

  /** A key no kept entry carries keeps its earlier value. */
  lemma {:induction false} CollectUntouched<D>(acc: Assoc<D>, s: QueryState, t: TextSearch, rs: seq<Scored<D>>,
                                               index: nat, idKey: D -> string, k: string)
    requires DistinctKeys(acc)
    requires forall j :: 0 <= j < |rs| ==> !KeptWithId(s, t, rs, index, idKey, k, j)
    ensures Lookup(Collect(acc, s, t, rs, index, idKey), k) == Lookup(acc, k)
    decreases |rs|
  {
    if rs != [] {
      var kept := Kept(s, t, index, rs[0].score);
      var acc' := if kept then Put(acc, idKey(rs[0].obj), rs[0].obj) else acc;
      if kept {
        PutLookup(acc, idKey(rs[0].obj), rs[0].obj, k);
      }
      var rest, next := rs[1..], index + 1;
      forall j | 0 <= j < |rest|
        ensures !KeptWithId(s, t, rest, next, idKey, k, j)
      {
        KeptWithIdTail(s, t, rs, index, idKey, k, j + 1);
      }
      CollectUntouched(acc', s, t, rs[1..], index + 1, idKey, k);
      assert !KeptWithId(s, t, rs, index, idKey, k, 0);
      assert Collect(acc, s, t, rs, index, idKey) == Collect(acc', s, t, rs[1..], index + 1, idKey);
    }
  }

  /** The documents of a finished query, as `one` sees them: the head of
      the results, or null when there are none. */
  function Head<D>(results: seq<D>): (r: Option<D>)
    ensures r.None? <==> results == []
    ensures r.Some? ==> r.value == results[0]
  {
    if results == [] then None else Some(results[0])
  }

  class Query {
    var criteria: Assoc<Value>
    var fields: Value
    var references: Value
    var sort: Value
    var limit: Option<int>
    var skip: Option<int>
    var batchSize: Option<int>
    var hint: Value
    var snapshot: bool
    var timeout: Option<int>
    var text: Option<TextSearch>
    /** The query's identity, derived from where it was created. */
    const hash: string

    function State(): QueryState
      reads this
    {
      QueryState(criteria, fields, references, sort, limit, skip, batchSize, hint, snapshot, timeout, text)
    }

    /** A new query, with `cache` the entry the query cache holds for
        `hash`, if any. */
    constructor(hash: string, cache: Option<Assoc<Value>>)
      ensures State() == InitialState(cache)
      ensures this.hash == hash
    {
      this.hash := hash;
      criteria := [];
      fields := Arr([]);
      references := Arr([]);
      sort := Null;
      limit := None;
      skip := None;
      batchSize := None;
      hint := Null;
      snapshot := false;
      timeout := None;
      text := None;
      new;
      var f := CacheEntry(cache, "fields");
      if f.Some? {
        fields := f.value;
      }
      var r := CacheEntry(cache, "references");
      if r.Some? {
        references := r.value;
      }
    }

    method Criteria(c: Assoc<Value>)
      modifies this
      ensures State() == old(State()).(criteria := c)
    {
      criteria := c;
    }

    /** `mergeCriteria`: the criteria are always an array here, so the
        new criteria are merged over the old ones. */
    method MergeCriteria(c: Assoc<Value>)
      modifies this
      ensures State() == old(State()).(criteria := Merge(old(criteria), c))
    {
      criteria := Merge(criteria, c);
    }

    method Fields(f: Value)
      modifies this
      ensures State() == old(State()).(fields := f)
    {
      fields := f;
    }

    method References(v: Value, toStr: Value -> Option<string>) returns (o: Outcome)
      modifies this
      ensures o.Pass? <==> ArrayArg(v, toStr).Ok?
      ensures o.Fail? ==> o.error == ArrayArg(v, toStr).error && State() == old(State())
      ensures o.Pass? ==> State() == old(State()).(references := v)
    {
      var a := ArrayArg(v, toStr);
      if a.Err? {
        return Fail(a.error);
      }
      references := a.value;
      return Pass;
    }

    method Sort(v: Value, toStr: Value -> Option<string>) returns (o: Outcome)
      modifies this
      ensures o.Pass? <==> ArrayArg(v, toStr).Ok?
      ensures o.Fail? ==> o.error == ArrayArg(v, toStr).error && State() == old(State())
      ensures o.Pass? ==> State() == old(State()).(sort := v)
    {
      var a := ArrayArg(v, toStr);
      if a.Err? {
        return Fail(a.error);
      }
      sort := a.value;
      return Pass;
    }

    method Hint(v: Value, toStr: Value -> Option<string>) returns (o: Outcome)
      modifies this
      ensures o.Pass? <==> ArrayArg(v, toStr).Ok?
      ensures o.Fail? ==> o.error == ArrayArg(v, toStr).error && State() == old(State())
      ensures o.Pass? ==> State() == old(State()).(hint := v)
    {
      var a := ArrayArg(v, toStr);
      if a.Err? {
        return Fail(a.error);
      }
      hint := a.value;
      return Pass;
    }

    method Limit(v: Value) returns (o: Outcome)
      modifies this
      ensures o.Pass? <==> CountArg(v).Ok?
      ensures o.Fail? ==> o == Fail(InvalidArgument) && State() == old(State())
      ensures o.Pass? ==> State() == old(State()).(limit := CountArg(v).value)
    {
      var a := CountArg(v);
      if a.Err? {
        return Fail(a.error);
      }
      limit := a.value;
      return Pass;
    }

    method Skip(v: Value) returns (o: Outcome)
      modifies this
      ensures o.Pass? <==> CountArg(v).Ok?
      ensures o.Fail? ==> o == Fail(InvalidArgument) && State() == old(State())
      ensures o.Pass? ==> State() == old(State()).(skip := CountArg(v).value)
    {
      var a := CountArg(v);
      if a.Err? {
        return Fail(a.error);
      }
      skip := a.value;
      return Pass;
    }

    method BatchSize(v: Value) returns (o: Outcome)
      modifies this
      ensures o.Pass? <==> CountArg(v).Ok?
      ensures o.Fail? ==> o == Fail(InvalidArgument) && State() == old(State())
      ensures o.Pass? ==> State() == old(State()).(batchSize := CountArg(v).value)
    {
      var a := CountArg(v);
      if a.Err? {
        return Fail(a.error);
      }
      batchSize := a.value;
      return Pass;
    }

    method Timeout(v: Value) returns (o: Outcome)
      modifies this
      ensures o.Pass? <==> CountArg(v).Ok?
      ensures o.Fail? ==> o == Fail(InvalidArgument) && State() == old(State())
      ensures o.Pass? ==> State() == old(State()).(timeout := CountArg(v).value)
    {
      var a := CountArg(v);
      if a.Err? {
        return Fail(a.error);
      }
      timeout := a.value;
      return Pass;
    }

    /** `snapshot`: only a boolean is accepted. */
    method Snapshot(v: Value) returns (o: Outcome)
      modifies this
      ensures o.Pass? <==> v.Bool?
      ensures o.Fail? ==> o == Fail(InvalidArgument) && State() == old(State())
      ensures o.Pass? ==> State() == old(State()).(snapshot := v.b)
    {
      if !v.Bool? {
        return Fail(InvalidArgument);
      }
      snapshot := v.b;
      return Pass;
    }

    /** `text`: a null search clears the text search. */
    method Text(search: Value, requiredScore: Option<real>, language: Value)
      modifies this
      ensures search.Null? ==> State() == old(State()).(text := None)
      ensures !search.Null? ==> State() == old(State()).(text := Some(TextSearch(search, requiredScore, language)))
    {
      if search.Null? {
        text := None;
      } else {
        text := Some(TextSearch(search, requiredScore, language));
      }
    }

    /** `one`: runs the query with limit 1 and puts the old limit back; the
        result is the first document, if any. `all` stands for running the
        query in a given state. */
    method One<D>(all: QueryState -> seq<D>) returns (r: Option<D>)
      modifies this
      ensures State() == old(State())
      ensures r == Head(all(old(State()).(limit := Some(1))))
    {
      var currentLimit := limit;
      var o := Limit(Int(1));
      var results := all(State());
      limit := currentLimit;
      r := Head(results);
    }

    /** `createResult`: nothing without a text search; otherwise sends the
        text command and keeps, under each document's id, the response
        entries that reach the required score and lie past the skip.
        `run` stands for the repository's text command. */
    method CreateResult<D>(run: TextCommand -> seq<Scored<D>>, idKey: D -> string) returns (r: Option<Assoc<D>>)
      ensures text.None? ==> r.None?
      ensures text.Some? ==> r == Some(Collect([], State(), text.value, run(CommandOf(State(), text.value)), 0, idKey))
    {
      if text.None? {
        return None;
      }
      var t := text.value;
      var s := State();
      var response := run(CommandOf(s, t));
      var result: Assoc<D> := [];
      var i := 0;
      while i < |response|
        invariant 0 <= i <= |response|
        invariant Collect(result, s, t, response[i..], i, idKey) == Collect([], s, t, response, 0, idKey)
      {
        assert response[i..][1..] == response[i + 1..];
        if Kept(s, t, i, response[i].score) {
          result := Put(result, idKey(response[i].obj), response[i].obj);
        }
        i := i + 1;
      }
      return Some(result);
    }
  }

  /** Later criteria override earlier ones key by key. */
  lemma MergeCriteriaOverrides(old_: Assoc<Value>, c: Assoc<Value>, k: string)
    requires DistinctKeys(old_) && DistinctKeys(c)
    ensures Lookup(Merge(old_, c), k) == if HasKey(c, k) then Lookup(c, k) else Lookup(old_, k)
  {
    MergeLookup(old_, c, k);
  }
}
