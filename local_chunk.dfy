/** LocalChunk: one page of a query's results where the sort may be done
    in memory. The first field of the sort strategy decides: a field with a
    local sorting strategy loads the strategy's fields, computes a value for
    every element and sorts the ids by it; any other field sorts on the
    server and pages by counting the elements that pass the filter. Query
    results are cached per query key, and the page's documents are then
    fetched by id. The subclass's filter, its local strategies and their
    value functions are given at construction; the query key, running the
    query and fetching by id are parameters. */
module LocalChunks {
  import opened Wrappers
  import opened PhpValues
  import opened Strings
  import opened PhpArrays
  import opened Queries

  // ---------------------------------------------------------------------
  // asort($valued, SORT_NUMERIC): a stable ascending sort by value

  type Valued = seq<(string, real)>

  predicate SortedByValue(s: Valued) {
    forall i, j :: 0 <= i < j < |s| ==> s[i].1 <= s[j].1
  }

  /** Places `x` before the first entry whose value is not below its own. */
  function InsertByValue(x: (string, real), s: Valued): (r: Valued)
    ensures multiset(r) == multiset([x] + s)
    ensures |r| == |s| + 1
  {
    if s == [] || x.1 <= s[0].1 then [x] + s
    else
      assert multiset([x] + s) == multiset([s[0]] + ([x] + s[1..])) by {
        assert s == [s[0]] + s[1..];
      }
      [s[0]] + InsertByValue(x, s[1..])
  }

  lemma {:induction false} InsertByValueSorted(x: (string, real), s: Valued)
    requires SortedByValue(s)
    ensures SortedByValue(InsertByValue(x, s))
    ensures InsertByValue(x, s) != [] && (InsertByValue(x, s)[0] == x || (s != [] && InsertByValue(x, s)[0] == s[0]))
  {
    if s != [] && x.1 > s[0].1 {
      SortedTail(s);
      InsertByValueSorted(x, s[1..]);
      var t := InsertByValue(x, s[1..]);
      forall k | 0 <= k < |t|
        ensures s[0].1 <= t[k].1
      {
        assert t[k] in multiset([x] + s[1..]);
        if t[k] != x {
          assert t[k] in s[1..];
          var m :| 0 <= m < |s[1..]| && s[1..][m] == t[k];
          assert s[m + 1] == t[k];
        }
      }
      SortedCons(s[0], t);
    } else if s != [] {
      forall k | 0 <= k < |s|
        ensures x.1 <= s[k].1
      {
        if k > 0 {
          assert s[0].1 <= s[k].1;
        }
      }
      SortedCons(x, s);
    }
  }

  lemma SortedTail(s: Valued)
    requires s != [] && SortedByValue(s)
    ensures SortedByValue(s[1..])
  {
    forall i, j | 0 <= i < j < |s[1..]|
      ensures s[1..][i].1 <= s[1..][j].1
    {
      assert s[1..][i] == s[i + 1] && s[1..][j] == s[j + 1];
    }
  }

  /** An entry no greater than any of a sorted list can go in front. */
  lemma SortedCons(a: (string, real), t: Valued)
    requires SortedByValue(t) && forall k :: 0 <= k < |t| ==> a.1 <= t[k].1
    ensures SortedByValue([a] + t)
  {
    var r := [a] + t;
    forall i, j | 0 <= i < j < |r|
      ensures r[i].1 <= r[j].1
    {
      assert r[j] == t[j - 1];
      if i > 0 {
        assert r[i] == t[i - 1];
      }
    }
  }

  /** `asort`: every entry of `s`, in ascending order of value. */
  function SortByValue(s: Valued): (r: Valued)
    ensures multiset(r) == multiset(s)
    ensures |r| == |s|
  {
    if s == [] then []
    else
      assert s == [s[0]] + s[1..];
      InsertByValue(s[0], SortByValue(s[1..]))
  }

  lemma {:induction false} SortByValueSorted(s: Valued)
    ensures SortedByValue(SortByValue(s))
  {
    if s != [] {
      SortByValueSorted(s[1..]);
      InsertByValueSorted(s[0], SortByValue(s[1..]));
    }
  }

  /** The entries of `s` with value `v`, in order. */
  function WithValue(s: Valued, v: real): (r: Valued)
    ensures |r| <= |s|
  {
    if s == [] then []
    else (if s[0].1 == v then [s[0]] else []) + WithValue(s[1..], v)
  }

  lemma {:induction false} InsertByValueStable(x: (string, real), s: Valued, v: real)
    ensures WithValue(InsertByValue(x, s), v) == WithValue([x] + s, v)
  {
    if s != [] && x.1 > s[0].1 {
      InsertByValueStable(x, s[1..], v);
      assert ([x] + s)[1..] == s;
      assert ([x] + s[1..])[1..] == s[1..];
      assert ([s[0]] + InsertByValue(x, s[1..]))[1..] == InsertByValue(x, s[1..]);
    }
  }

  /** `asort` is stable: entries of equal value keep their order. */
  lemma {:induction false} SortByValueStable(s: Valued, v: real)
    ensures WithValue(SortByValue(s), v) == WithValue(s, v)
  {
    if s != [] {
      SortByValueStable(s[1..], v);
      InsertByValueStable(s[0], SortByValue(s[1..]), v);
      assert ([s[0]] + SortByValue(s[1..]))[1..] == SortByValue(s[1..]);
      assert s == [s[0]] + s[1..];
    }
  }

  function Keys<V>(a: Assoc<V>): (r: seq<string>)
    ensures |r| == |a|
    ensures forall i :: 0 <= i < |a| ==> r[i] == a[i].0
  {
    if a == [] then [] else [a[0].0] + Keys(a[1..])
  }

  // ---------------------------------------------------------------------
  // getPage: array_slice over the sorted ids

  function Min(a: int, b: int): (r: int)
    ensures r <= a && r <= b && (r == a || r == b)
  {
    if a <= b then a else b
  }

  function Max(a: int, b: int): (r: int)
    ensures r >= a && r >= b && (r == a || r == b)
  {
    if a >= b then a else b
  }

  /** `array_slice($s, $offset, $length)`: a negative offset counts from
      the end, a negative length stops that many entries before the end. */
  function Slice<T>(s: seq<T>, offset: int, length: int): (r: seq<T>)
    ensures |r| <= |s|
  {
    var n := |s|;
    var lo := if offset < 0 then Max(n + offset, 0) else Min(offset, n);
    var hi := if length < 0 then Max(n + length, lo) else Min(lo + length, n);
    s[lo..hi]
  }

  /** `getPage`: every id when the page size is falsy; otherwise the page
      `array_slice($ids, $page * $pageSize, $pageSize)`. The product fails
      as `*` does; a fractional offset or length is truncated. */
  function PageOf(ids: seq<string>, page: Value, pageSize: Value): (r: Result<seq<string>>)
    ensures !Truthy(pageSize) ==> r == Ok(ids)
    ensures r.Ok? ==> |r.value| <= |ids|
  {
    if !Truthy(pageSize) then Ok(ids)
    else
      var offset :- Mul(page, pageSize);
      var length := ToNumber(pageSize).value;
      Ok(Slice(ids, Trunc(AsReal(offset)), Trunc(AsReal(length))))
  }

  /** With a positive integer page size, page `p` holds the ids from
      `p * pageSize` up to the next page's start, cut at the end. */
  lemma PageOfWindow(ids: seq<string>, p: nat, pageSize: nat)
    requires pageSize > 0
    ensures PageOf(ids, Int(p), Int(pageSize)) ==
      Ok(ids[Min(p * pageSize, |ids|)..Min(p * pageSize + pageSize, |ids|)])
  {
    var m := p * pageSize;
    assert Mul(Int(p), Int(pageSize)) == Ok(Int(m));
    assert ToNumber(Int(pageSize)).value == Int(pageSize);
    assert Trunc(AsReal(Int(m))) == m by {
      assert AsReal(Int(m)) == m as real;
    }
    assert Trunc(AsReal(Int(pageSize))) == pageSize by {
      assert AsReal(Int(pageSize)) == pageSize as real;
    }
    SliceWindow(ids, m, pageSize);
  }

  /** A slice at a non-negative offset and length is the window there, cut
      at the end. */
  lemma SliceWindow<T>(s: seq<T>, offset: nat, length: nat)
    ensures Slice(s, offset, length) == s[Min(offset, |s|)..Min(offset + length, |s|)]
  {
  }

  /** Pages tile the ids: the first `k` pages, one after another, are the
      first `k * pageSize` ids. */
  lemma {:induction false} PagesTile(ids: seq<string>, k: nat, pageSize: nat)
    requires pageSize > 0
    ensures Pages(ids, k, pageSize) == ids[..Min(k * pageSize, |ids|)]
  {
    if k > 0 {
      PagesTile(ids, k - 1, pageSize);
      PagesTileStep(ids, k - 1, pageSize);
    }
  }

  lemma PagesTileStep(ids: seq<string>, k: nat, pageSize: nat)
    requires pageSize > 0
    requires Pages(ids, k, pageSize) == ids[..Min(k * pageSize, |ids|)]
    ensures Pages(ids, k + 1, pageSize) == ids[..Min((k + 1) * pageSize, |ids|)]
  {
    var m := k * pageSize;
    MulNat(k, pageSize);
    var a, b := Min(m, |ids|), Min(m + pageSize, |ids|);
    PagesStep(ids, k, pageSize);
    PrefixJoin(ids, a, b);
    assert m + pageSize == (k + 1) * pageSize;
  }

  lemma PagesStep(ids: seq<string>, k: nat, pageSize: nat)
    requires pageSize > 0
    ensures Pages(ids, k + 1, pageSize) ==
      Pages(ids, k, pageSize) + ids[Min(k * pageSize, |ids|)..Min(k * pageSize + pageSize, |ids|)]
  {
    PageOfWindow(ids, k, pageSize);
  }

  lemma MulNat(a: nat, b: nat)
    ensures a * b >= 0
  {
  }

  lemma PrefixJoin<T>(s: seq<T>, a: int, b: int)
    requires 0 <= a <= b <= |s|
    ensures s[..a] + s[a..b] == s[..b]
  {
  }

  /** The first `k` pages, one after another. */
  function Pages(ids: seq<string>, k: nat, pageSize: nat): seq<string>
    requires pageSize > 0
  {
    if k == 0 then []
    else
      var page := PageOf(ids, Int(k - 1), Int(pageSize));
      Pages(ids, k - 1, pageSize) + (if page.Ok? then page.value else [])
  }

  // ---------------------------------------------------------------------
  // getDBSelectedIds

  /** The criterion `getDBSelectedIds` adds for each sort field. */
  const Exists: Value := Arr([("$exists", Int(1))])

  /** `mergeCriteria([$field => ['$exists' => 1]])` for each field in turn. */
  function WithExists(criteria: Assoc<Value>, fields: seq<string>): Assoc<Value>
    decreases |fields|
  {
    if fields == [] then criteria else WithExists(Merge(criteria, [(fields[0], Exists)]), fields[1..])
  }

  /** Every sort field must exist; the other criteria stay. */
  lemma {:induction false} WithExistsLookup(criteria: Assoc<Value>, fields: seq<string>, k: string)
    requires DistinctKeys(criteria)
    ensures DistinctKeys(WithExists(criteria, fields))
    ensures Lookup(WithExists(criteria, fields), k) == if k in fields then Some(Exists) else Lookup(criteria, k)
    decreases |fields|
  {
    if fields != [] {
      var c := Merge(criteria, [(fields[0], Exists)]);
      MergeLookup(criteria, [(fields[0], Exists)], k);
      assert HasKey([(fields[0], Exists)], k) <==> k == fields[0] by {
        if k == fields[0] {
          assert [(fields[0], Exists)][0].0 == k;
        }
      }
      WithExistsLookup(c, fields[1..], k);
      assert k in fields <==> k == fields[0] || k in fields[1..] by {
        assert fields == [fields[0]] + fields[1..];
      }
    }
  }

  /** The loop of `getDBSelectedIds` that merges `['$exists' => 1]` into
      the criteria for each sort field, in turn. */
  method RequireExists(q: Query, keys: seq<string>)
    modifies q
    ensures q.State() == old(q.State()).(criteria := WithExists(old(q.State()).criteria, keys))
  {
    ghost var c0 := q.criteria;
    var k := 0;
    while k < |keys|
      invariant 0 <= k <= |keys|
      invariant WithExists(q.criteria, keys[k..]) == WithExists(c0, keys)
      invariant q.State() == old(q.State()).(criteria := q.criteria)
    {
      assert keys[k..][1..] == keys[k + 1..];
      q.MergeCriteria([(keys[k], Exists)]);
      k := k + 1;
    }
    assert keys[k..] == [];
  }

  /** Whether an element passes the subclass's filter (none passes all). */
  predicate Passes<E>(filter: Option<E -> bool>, e: E) {
    filter.None? || filter.value(e)
  }

  /** The ids of the elements that pass the filter, in order. */
  function Passing<E>(elems: Assoc<E>, filter: Option<E -> bool>): (r: seq<string>)
    ensures |r| <= |elems|
  {
    if elems == [] then []
    else (if Passes(filter, elems[0].1) then [elems[0].0] else []) + Passing(elems[1..], filter)
  }

  /** Whether the passing element counted `count` is on the page. */
  predicate InWindow(count: int, start: real, end: real, all: bool) {
    all || (count as real >= start && (count as real) < end)
  }

  /** The selection loop of `getDBSelectedIds` from a point on: the total
      so far (which is also the count of passing elements so far) and the
      ids chosen so far. */
  function DBSelect<E>(elems: Assoc<E>, filter: Option<E -> bool>, start: real, end: real, all: bool,
                       total: nat, ids: seq<string>): (nat, seq<string>)
    decreases |elems|
  {
    if elems == [] then (total, ids)
    else if Passes(filter, elems[0].1) then
      DBSelect(elems[1..], filter, start, end, all, total + 1,
        ids + (if InWindow(total, start, end, all) then [elems[0].0] else []))
    else DBSelect(elems[1..], filter, start, end, all, total, ids)
  }

  /** The counting loop of `getDBSelectedIds`: every element passing the
      filter is counted, and its id kept when its position falls on the
      page. */
  method SelectOnPage<E>(elems: Assoc<E>, filter: Option<E -> bool>, from: real, to: real, all: bool)
    returns (total: nat, ids: seq<string>)
    ensures (total, ids) == DBSelect(elems, filter, from, to, all, 0, [])
  {
    ids := [];
    var count: nat := 0;
    total := 0;
    var i := 0;
    while i < |elems|
      invariant 0 <= i <= |elems|
      invariant count == total
      invariant DBSelect(elems[i..], filter, from, to, all, total, ids) == DBSelect(elems, filter, from, to, all, 0, [])
    {
      assert elems[i..][1..] == elems[i + 1..];
      if Passes(filter, elems[i].1) {
        total := total + 1;
        if all || (count as real >= from && (count as real) < to) {
          ids := ids + [elems[i].0];
        } else {
          assert ids + [] == ids;
        }
        count := count + 1;
      }
      i := i + 1;
    }
  }

  /** The passing ids from position `from` on that fall on the page. */
  function OnPage(p: seq<string>, from: nat, start: real, end: real, all: bool): seq<string>
    decreases |p|
  {
    if p == [] then []
    else (if InWindow(from, start, end, all) then [p[0]] else []) + OnPage(p[1..], from + 1, start, end, all)
  }

  /** The loop counts every passing element and keeps the passing ids
      whose position is on the page. */
  lemma {:induction false} DBSelectIsOnPage<E>(elems: Assoc<E>, filter: Option<E -> bool>, start: real, end: real,
                                              all: bool, total: nat, ids: seq<string>)
    ensures DBSelect(elems, filter, start, end, all, total, ids) ==
      (total + |Passing(elems, filter)|, ids + OnPage(Passing(elems, filter), total, start, end, all))
    decreases |elems|
  {
    if elems != [] {
      var p := Passing(elems, filter);
      var rest := Passing(elems[1..], filter);
      if Passes(filter, elems[0].1) {
        var chosen := if InWindow(total, start, end, all) then [elems[0].0] else [];
        DBSelectIsOnPage(elems[1..], filter, start, end, all, total + 1, ids + chosen);
        assert p == [elems[0].0] + rest;
        assert p[1..] == rest;
        assert OnPage(p, total, start, end, all) == chosen + OnPage(rest, total + 1, start, end, all);
        assert ids + chosen + OnPage(rest, total + 1, start, end, all) == ids + OnPage(p, total, start, end, all);
      } else {
        DBSelectIsOnPage(elems[1..], filter, start, end, all, total, ids);
        assert p == rest;
      }
    } else {
      assert ids + [] == ids;
    }
  }

  /** Without a page size every passing id is selected. */
  lemma {:induction false} OnPageAll(p: seq<string>, from: nat, start: real, end: real)
    ensures OnPage(p, from, start, end, true) == p
    decreases |p|
  {
    if p != [] {
      OnPageAll(p[1..], from + 1, start, end);
    }
  }

  /** `x` brought into `[lo, hi]`. */
  function Clamp(x: int, lo: int, hi: int): int
    requires lo <= hi
  {
    Min(Max(x, lo), hi)
  }

  /** With integer bounds the page is a contiguous run of the passing ids:
      those at positions from `start` up to `end`, cut to the list. */
  lemma {:induction false} OnPageWindow(p: seq<string>, from: nat, start: int, end: int)
    ensures var lo := Clamp(start - from, 0, |p|);
      OnPage(p, from, start as real, end as real, false) == p[lo..Clamp(end - from, lo, |p|)]
    decreases |p|
  {
    if p != [] {
      OnPageWindow(p[1..], from + 1, start, end);
      var lo := Clamp(start - from, 0, |p|);
      var hi := Clamp(end - from, lo, |p|);
      var lo' := Clamp(start - from - 1, 0, |p| - 1);
      var hi' := Clamp(end - from - 1, lo', |p| - 1);
      if InWindow(from, start as real, end as real, false) {
        assert lo == 0 && lo' == 0 && hi' == hi - 1;
        assert p[lo..hi] == [p[0]] + p[1..][lo'..hi'];
      } else if start > from {
        assert lo' == lo - 1 && hi' == hi - 1;
        assert p[lo..hi] == p[1..][lo'..hi'];
      } else {
        assert hi == lo && hi' == lo';
      }
    }
  }

  // ---------------------------------------------------------------------
  // getElems: the query results, cached per query key

  /** Writes each record under its id, in order. */
  function PutAll<E>(acc: Assoc<E>, records: seq<(string, E)>): Assoc<E>
    decreases |records|
  {
    if records == [] then acc else PutAll(Put(acc, records[0].0, records[0].1), records[1..])
  }

  /** The cached form of a query's records: one entry per id. */
  function Collected<E>(records: seq<(string, E)>): Assoc<E> {
    PutAll([], records)
  }

  /** The cache entry has distinct ids, and exactly the ids of the
      records. */
  lemma {:induction false} PutAllKeys<E>(acc: Assoc<E>, records: seq<(string, E)>, k: string)
    requires DistinctKeys(acc)
    ensures DistinctKeys(PutAll(acc, records))
    ensures HasKey(PutAll(acc, records), k) <==> HasKey(acc, k) || exists i :: 0 <= i < |records| && records[i].0 == k
    decreases |records|
  {
    if records != [] {
      var acc' := Put(acc, records[0].0, records[0].1);
      PutLookup(acc, records[0].0, records[0].1, k);
      PutAllKeys(acc', records[1..], k);
      if exists i :: 0 <= i < |records| && records[i].0 == k {
        var i :| 0 <= i < |records| && records[i].0 == k;
        if i > 0 {
          assert records[1..][i - 1].0 == k;
        }
      }
      var rest := records[1..];
      if exists i :: 0 <= i < |rest| && rest[i].0 == k {
        var i :| 0 <= i < |rest| && rest[i].0 == k;
        assert records[i + 1].0 == k;
      }
    }
  }

  /** `fields($list)` for a list of field names. */
  function FieldsValue(fs: seq<string>): (v: Value)
    ensures v.Arr? && |v.entries| == |fs|
    ensures forall i :: 0 <= i < |fs| ==> v.entries[i] == (IntToString(i), Str(fs[i]))
  {
    Arr(seq(|fs|, i requires 0 <= i < |fs| => (IntToString(i), Str(fs[i]))))
  }

  /** The query as `getElems` runs it: with the chunk's fields when there
      are any. */
  function WithFields(s: QueryState, fs: seq<string>): QueryState {
    if fs == [] then s else s.(fields := FieldsValue(fs))
  }

  // ---------------------------------------------------------------------
  // The chunk

  /** A local sorting strategy: the name of the value function, and the
      fields it needs loaded. */
  datatype LocalStrategy = LocalStrategy(valueFunc: string, fields: seq<string>)

  /** Everything a local chunk changes. */
  datatype LocalState<E> = LocalState(
    sortStrategy: Option<Assoc<Value>>,
    page: Value,
    pageSize: Value,
    ordering: Value,
    valueFunc: Option<string>,
    fields: seq<string>,
    dbSortFields: Option<Assoc<Value>>,
    cache: map<string, Assoc<E>>)

  /** `setSortStrategy`: an array is kept, any other value becomes the one
      field `[$v => 1]` (null gives the field ""), which fails for an
      object. */
  function SortStrategyArg(v: Value): (r: Result<Assoc<Value>>)
    ensures r.Err? <==> v.Obj?
    ensures v.Arr? ==> r == Ok(v.entries)
    ensures v.Str? ==> r == Ok([(v.s, Int(1))])
    ensures v.Null? ==> r == Ok([("", Int(1))])
  {
    if v.Arr? then Ok(v.entries)
    else
      var k :- ArrayKey(v);
      Ok([(k, Int(1))])
  }

  /** The first sort field; an empty strategy reads a missing offset, null,
      which as a key is "". */
  function FirstKey(a: Assoc<Value>): string {
    if a == [] then "" else a[0].0
  }

  /** `prepareForQuery`: reading the sort strategy before it is set fails;
      a first field with a local strategy loads the filter fields and the
      strategy's fields and sorts locally by the strategy's value function,
      in the field's direction; any other first field loads the filter
      fields and sorts on the server by the whole strategy. */
  function Prepared<E>(strategies: Assoc<LocalStrategy>, filterFields: seq<string>, s: LocalState<E>)
    : (r: (LocalState<E>, Outcome))
    ensures r.1.Fail? <==> s.sortStrategy.None?
    ensures r.1.Fail? ==> r.0 == s
    ensures r.1.Pass? ==>
      r.0.cache == s.cache && r.0.page == s.page && r.0.pageSize == s.pageSize && r.0.sortStrategy == s.sortStrategy
  {
    if s.sortStrategy.None? then (s, Fail(PhpError))
    else
      var ss := s.sortStrategy.value;
      var field := FirstKey(ss);
      match Lookup(strategies, field)
      case Some(st) =>
        (s.(fields := filterFields + st.fields, ordering := Lookup(ss, field).GetOr(Null), valueFunc := Some(st.valueFunc)), Pass)
      case None =>
        (s.(fields := filterFields, dbSortFields := Some(ss)), Pass)
  }

  /** A value-function name as `if ($this->valueFunc)` sees it. */
  predicate SortsLocally(valueFunc: Option<string>) {
    valueFunc.Some? && valueFunc.value != "" && valueFunc.value != "0"
  }

  /** Preparing with a local first field selects locally, with the
      strategy's fields after the filter fields; preparing with any other
      first field sorts on the server. */
  lemma PreparedChoosesSort<E>(strategies: Assoc<LocalStrategy>, filterFields: seq<string>, s: LocalState<E>)
    requires s.sortStrategy.Some?
    ensures var (s', _) := Prepared(strategies, filterFields, s);
      var field := FirstKey(s.sortStrategy.value);
      if HasKey(strategies, field) then
        s'.fields == filterFields + Lookup(strategies, field).value.fields &&
        s'.valueFunc == Some(Lookup(strategies, field).value.valueFunc) &&
        s'.ordering == Lookup(s.sortStrategy.value, field).GetOr(Null) &&
        s'.dbSortFields == s.dbSortFields
      else
        s'.fields == filterFields && s'.dbSortFields == s.sortStrategy &&
        s'.valueFunc == s.valueFunc && s'.ordering == s.ordering
  {
  }

  /** The local sort is never switched off: once a local strategy has been
      prepared, a later server-sorted preparation still selects locally. */
  lemma LocalSortPersists<E>(strategies: Assoc<LocalStrategy>, filterFields: seq<string>, s: LocalState<E>,
                             next: Assoc<Value>)
    requires s.sortStrategy.Some? && HasKey(strategies, FirstKey(s.sortStrategy.value))
    requires !HasKey(strategies, FirstKey(next))
    ensures var s1 := Prepared(strategies, filterFields, s).0;
      var s2 := Prepared(strategies, filterFields, s1.(sortStrategy := Some(next))).0;
      s2.valueFunc == s1.valueFunc && s2.dbSortFields == Some(next)
  {
  }

  /** The selection of `getDBSelectedIds` over the cached elements: the
      page runs from `page * pageSize` for `pageSize` passing elements, and
      a falsy page size selects them all. */
  function DBSelection<E>(elems: Assoc<E>, filter: Option<E -> bool>, page: Value, pageSize: Value)
    : (r: Result<(nat, seq<string>)>)
    ensures r.Err? <==> Mul(page, pageSize).Err?
    ensures r.Ok? ==> r.value.0 == |Passing(elems, filter)|
    ensures r.Ok? && !Truthy(pageSize) ==> r.value.1 == Passing(elems, filter)
  {
    var start :- Mul(page, pageSize);
    var from := AsReal(start);
    var to := from + AsReal(ToNumber(pageSize).value);
    var result := DBSelect(elems, filter, from, to, !Truthy(pageSize), 0, []);
    DBSelectIsOnPage(elems, filter, from, to, !Truthy(pageSize), 0, []);
    if !Truthy(pageSize) then
      OnPageAll(Passing(elems, filter), 0, from, to);
      Ok(result)
    else Ok(result)
  }

  /** With integer page and page size the selected ids are the passing ids
      from `page * pageSize`, at most `pageSize` of them. */
  lemma DBSelectionWindow<E>(elems: Assoc<E>, filter: Option<E -> bool>, page: int, pageSize: int)
    requires pageSize != 0
    ensures var p := Passing(elems, filter);
      var lo := Clamp(page * pageSize, 0, |p|);
      DBSelection(elems, filter, Int(page), Int(pageSize)) ==
        Ok((|p|, p[lo..Clamp(page * pageSize + pageSize, lo, |p|)]))
  {
    var p := Passing(elems, filter);
    var start := page * pageSize;
    var end := start + pageSize;
    DBSelectionInt(elems, filter, page, pageSize);
    var from, to := start as real, end as real;
    DBSelectIsOnPage(elems, filter, from, to, false, 0, []);
    var onPage := OnPage(p, 0, from, to, false);
    assert [] + onPage == onPage;
    OnPageWindow(p, 0, start, end);
  }

  /** Integer paging in `DBSelection`. */
  lemma DBSelectionInt<E>(elems: Assoc<E>, filter: Option<E -> bool>, page: int, pageSize: int)
    requires pageSize != 0
    ensures DBSelection(elems, filter, Int(page), Int(pageSize)) ==
      Ok(DBSelect(elems, filter, (page * pageSize) as real, (page * pageSize + pageSize) as real, false, 0, []))
  {
    var start := page * pageSize;
    assert Mul(Int(page), Int(pageSize)) == Ok(Int(start));
    assert start as real + pageSize as real == (start + pageSize) as real;
  }

  /** The valued elements of `getLocallySortedIds` from a point on: each
      element passing the filter whose value is not null is written under
      its id with its value times the ordering, and counted. */
  function LocalValued<E>(elems: Assoc<E>, filter: Option<E -> bool>, value: E -> Option<int>, ordering: Value,
                          total: nat, valued: Valued): Result<(nat, Valued)>
    decreases |elems|
  {
    if elems == [] then Ok((total, valued))
    else if !Passes(filter, elems[0].1) || value(elems[0].1).None? then
      LocalValued(elems[1..], filter, value, ordering, total, valued)
    else
      var product :- Mul(Int(value(elems[0].1).value), ordering);
      LocalValued(elems[1..], filter, value, ordering, total + 1, Put(valued, elems[0].0, AsReal(product)))
  }

  /** `getLocallySortedIds` over the cached elements: the count of valued
      elements, and their ids in ascending order of value. */
  function LocalSelection<E>(elems: Assoc<E>, filter: Option<E -> bool>, value: E -> Option<int>, ordering: Value)
    : (r: Result<(nat, seq<string>)>)
  {
    var (total, valued) :- LocalValued(elems, filter, value, ordering, 0, []);
    Ok((total, Keys(SortByValue(valued))))
  }

  /** The local selection, paged: the number of valued elements and the
      ids on the page, or the error either step raises. */
  function LocalPage<E>(elems: Assoc<E>, filter: Option<E -> bool>, value: E -> Option<int>, ordering: Value,
                        page: Value, pageSize: Value): (r: Result<(nat, seq<string>)>)
    ensures r.Ok? <==> (LocalSelection(elems, filter, value, ordering).Ok? &&
                        PageOf(LocalSelection(elems, filter, value, ordering).value.1, page, pageSize).Ok?)
    ensures r.Ok? ==> (r.value.0 == LocalSelection(elems, filter, value, ordering).value.0 &&
                       |r.value.1| <= |LocalSelection(elems, filter, value, ordering).value.1|)
  {
    var (total, sorted) :- LocalSelection(elems, filter, value, ordering);
    var ids :- PageOf(sorted, page, pageSize);
    Ok((total, ids))
  }

  /** `getResult`'s answer for a selection: the selection's error, or its
      total with the document found for each selected id, in order. */
  predicate Delivers<D(==)>(r: Result<(nat, seq<Option<D>>)>, ids: seq<string>, sel: Result<(nat, seq<string>)>, found: Assoc<D>) {
    match sel
    case Err(e) => r == Err(e)
    case Ok((total, selected)) =>
      && ids == selected && r.Ok? && r.value.0 == total && |r.value.1| == |ids|
      && forall i :: 0 <= i < |ids| ==> r.value.1[i] == Lookup(found, ids[i])
  }

  /** The locally sorted ids come in ascending order of value, every
      valued element appears once, and equal values keep the order of the
      elements. */
  lemma LocalSelectionSorted<E>(elems: Assoc<E>, filter: Option<E -> bool>, value: E -> Option<int>,
                                ordering: Value, v: real)
    requires LocalValued(elems, filter, value, ordering, 0, []).Ok?
    ensures var valued := LocalValued(elems, filter, value, ordering, 0, []).value.1;
      var sorted := SortByValue(valued);
      LocalSelection(elems, filter, value, ordering).value.1 == Keys(sorted) &&
      SortedByValue(sorted) && multiset(sorted) == multiset(valued) &&
      WithValue(sorted, v) == WithValue(valued, v)
  {
    var valued := LocalValued(elems, filter, value, ordering, 0, []).value.1;
    SortByValueSorted(valued);
    SortByValueStable(valued, v);
  }

  class LocalChunk<E> {
    /** The subclass's filter; none lets every element through. */
    const filter: Option<E -> bool>
    const filterFields: seq<string>
    /** The local sorting strategies, by sort field. */
    const strategies: Assoc<LocalStrategy>
    /** The subclass's value functions, by name. */
    const valueOf: string -> E -> Option<int>

    var sortStrategy: Option<Assoc<Value>>
    var page: Value
    var pageSize: Value
    var ordering: Value
    var valueFunc: Option<string>
    var fields: seq<string>
    var dbSortFields: Option<Assoc<Value>>
    var cache: map<string, Assoc<E>>

    function State(): LocalState<E>
      reads this
    {
      LocalState(sortStrategy, page, pageSize, ordering, valueFunc, fields, dbSortFields, cache)
    }

    /** A new chunk: no sort strategy or pagination yet, ascending
        ordering, no value function, no fields and an empty cache. */
    constructor(filter: Option<E -> bool>, filterFields: seq<string>, strategies: Assoc<LocalStrategy>,
                valueOf: string -> E -> Option<int>)
      ensures this.filter == filter && this.filterFields == filterFields
      ensures this.strategies == strategies && this.valueOf == valueOf
      ensures State() == LocalState(None, Null, Null, Int(1), None, [], None, map[])
    {
      this.filter := filter;
      this.filterFields := filterFields;
      this.strategies := strategies;
      this.valueOf := valueOf;
      sortStrategy := None;
      page := Null;
      pageSize := Null;
      ordering := Int(1);
      valueFunc := None;
      fields := [];
      dbSortFields := None;
      cache := map[];
    }

    method SetPagination(page: Value, pageSize: Value)
      modifies this
      ensures State() == old(State()).(page := page, pageSize := pageSize)
    {
      this.page := page;
      this.pageSize := pageSize;
    }

    method SetSortStrategy(v: Value) returns (o: Outcome)
      modifies this
      ensures o.Pass? <==> SortStrategyArg(v).Ok?
      ensures o.Fail? ==> o == Fail(PhpError) && State() == old(State())
      ensures o.Pass? ==> State() == old(State()).(sortStrategy := Some(SortStrategyArg(v).value))
    {
      var a := SortStrategyArg(v);
      if a.Err? {
        return Fail(a.error);
      }
      sortStrategy := Some(a.value);
      return Pass;
    }

    /** `set`: the sort strategy, then the pagination; a failing strategy
        stops before the pagination is stored. */
    method Set(v: Value, page: Value, pageSize: Value) returns (o: Outcome)
      modifies this
      ensures o.Pass? <==> SortStrategyArg(v).Ok?
      ensures o.Fail? ==> State() == old(State())
      ensures o.Pass? ==>
        State() == old(State()).(sortStrategy := Some(SortStrategyArg(v).value), page := page, pageSize := pageSize)
    {
      o := SetSortStrategy(v);
      if o.Pass? {
        SetPagination(page, pageSize);
      }
    }

    /** `setCacheStorage`: the cache is replaced (sharing it with other
        chunks is not modelled). */
    method SetCacheStorage(c: map<string, Assoc<E>>)
      modifies this
      ensures State() == old(State()).(cache := c)
    {
      cache := c;
    }

    method PrepareForQuery() returns (o: Outcome)
      modifies this
      ensures (State(), o) == Prepared(strategies, filterFields, old(State()))
    {
      if sortStrategy.None? {
        return Fail(PhpError);
      }
      var ss := sortStrategy.value;
      var field := FirstKey(ss);
      var st := Lookup(strategies, field);
      if st.Some? {
        fields := filterFields + st.value.fields;
        ordering := Lookup(ss, field).GetOr(Null);
        valueFunc := Some(st.value.valueFunc);
      } else {
        fields := filterFields;
        dbSortFields := Some(ss);
      }
      return Pass;
    }

    /** `getElems`: runs the query (with the chunk's fields, if any) only
        when its key is not cached yet, caching the records by id; either
        way the cached records are returned. `keyOf` stands for
        `generateKey` and `run` for executing the query. */
    method GetElems(q: Query, keyOf: QueryState -> string, run: QueryState -> seq<(string, E)>)
      returns (elems: Assoc<E>, executed: bool)
      modifies this, q
      ensures q.State() == WithFields(old(q.State()), fields)
      ensures executed <==> keyOf(q.State()) !in old(cache)
      ensures elems == if executed then Collected(run(q.State())) else old(cache)[keyOf(q.State())]
      ensures State() == old(State()).(cache := old(cache)[keyOf(q.State()) := elems])
    {
      if fields != [] {
        q.Fields(FieldsValue(fields));
      }
      var key := keyOf(q.State());
      executed := key !in cache;
      if executed {
        var records := run(q.State());
        var acc: Assoc<E> := [];
        var i := 0;
        while i < |records|
          invariant 0 <= i <= |records|
          invariant PutAll(acc, records[i..]) == Collected(records)
        {
          assert records[i..][1..] == records[i + 1..];
          acc := Put(acc, records[i].0, records[i].1);
          i := i + 1;
        }
        cache := cache[key := acc];
      } else {
        cache := cache[key := cache[key]];
      }
      elems := cache[key];
    }

    /** `getDBSelectedIds`: sorts the query on the server, requires every
        sort field to exist, then counts the passing elements and keeps the
        ids on the page. Without server sort fields the field list cannot
        be read and the call fails after setting a null sort. */
    method GetDBSelectedIds(q: Query, keyOf: QueryState -> string, run: QueryState -> seq<(string, E)>)
      returns (r: Result<(nat, seq<string>)>)
      modifies this, q
      ensures dbSortFields.None? ==> r == Err(PhpError) && q.State() == old(q.State()).(sort := Null)
      ensures dbSortFields.Some? ==>
        q.State() == WithFields(old(q.State()).(sort := Arr(dbSortFields.value),
          criteria := WithExists(old(q.State()).criteria, Keys(dbSortFields.value))), fields)
      ensures dbSortFields.Some? ==>
        keyOf(q.State()) in cache && r == DBSelection(cache[keyOf(q.State())], filter, page, pageSize)
      ensures State().(cache := map[]) == old(State()).(cache := map[])
    {
      var dbf := dbSortFields;
      var o := q.Sort(if dbf.Some? then Arr(dbf.value) else Null, _ => None);
      if dbf.None? {
        return Err(PhpError);
      }
      RequireExists(q, Keys(dbf.value));
      var elems, executed := GetElems(q, keyOf, run);
      assert dbSortFields == dbf;
      var start := Mul(page, pageSize);
      if start.Err? {
        return Err(start.error);
      }
      var from := AsReal(start.value);
      var to := from + AsReal(ToNumber(pageSize).value);
      var total, ids := SelectOnPage(elems, filter, from, to, !Truthy(pageSize));
      return Ok((total, ids));
    }

    /** `getLocallySortedIds`: values every passing element with the value
        function, skips null values, and sorts the ids by value times the
        ordering. A product `*` refuses fails the call. */
    method GetLocallySortedIds(q: Query, keyOf: QueryState -> string, run: QueryState -> seq<(string, E)>)
      returns (r: Result<(nat, seq<string>)>)
      modifies this, q
      ensures q.State() == WithFields(old(q.State()), fields)
      ensures keyOf(q.State()) in cache
      ensures valueFunc.None? ==> r == Err(PhpError)
      ensures valueFunc.Some? ==>
        r == LocalSelection(cache[keyOf(q.State())], filter, valueOf(valueFunc.value), ordering)
      ensures State().(cache := map[]) == old(State()).(cache := map[])
    {
      var elems, executed := GetElems(q, keyOf, run);
      if valueFunc.None? {
        return Err(PhpError);
      }
      var value := valueOf(valueFunc.value);
      var valued: Valued := [];
      var total: nat := 0;
      var i := 0;
      while i < |elems|
        invariant 0 <= i <= |elems|
        invariant LocalValued(elems[i..], filter, value, ordering, total, valued) ==
          LocalValued(elems, filter, value, ordering, 0, [])
      {
        assert elems[i..][1..] == elems[i + 1..];
        if Passes(filter, elems[i].1) {
          var v := value(elems[i].1);
          if v.Some? {
            var product := Mul(Int(v.value), ordering);
            if product.Err? {
              return Err(product.error);
            }
            valued := Put(valued, elems[i].0, AsReal(product.value));
            total := total + 1;
          }
        }
        i := i + 1;
      }
      return Ok((total, Keys(SortByValue(valued))));
    }

    /** `getSelectedIds`: locally when a value function is set, on the
        server otherwise; a local selection is then paged. */
    method GetSelectedIds(q: Query, keyOf: QueryState -> string, run: QueryState -> seq<(string, E)>)
      returns (r: Result<(nat, seq<string>)>)
      modifies this, q
      ensures State().(cache := map[]) == old(State()).(cache := map[])
      ensures SortsLocally(valueFunc) ==> (keyOf(q.State()) in cache &&
        r == LocalPage(cache[keyOf(q.State())], filter, valueOf(valueFunc.value), ordering, page, pageSize))
      ensures !SortsLocally(valueFunc) && dbSortFields.Some? ==>
        keyOf(q.State()) in cache && r == DBSelection(cache[keyOf(q.State())], filter, page, pageSize)
      ensures !SortsLocally(valueFunc) && dbSortFields.None? ==> r == Err(PhpError)
    {
      if SortsLocally(valueFunc) {
        var sorted := GetLocallySortedIds(q, keyOf, run);
        if sorted.Err? {
          return Err(sorted.error);
        }
        var ids := PageOf(sorted.value.1, page, pageSize);
        if ids.Err? {
          return Err(ids.error);
        }
        return Ok((sorted.value.0, ids.value));
      } else {
        r := GetDBSelectedIds(q, keyOf, run);
      }
    }

    /** `getResult`: prepares, selects, and fetches the selected documents
        by id; the total is the selection's count. `find` stands for the
        repository's `findById`. */
    method GetResult<D>(q: Query, keyOf: QueryState -> string, run: QueryState -> seq<(string, E)>,
                        find: seq<string> -> Assoc<D>)
      returns (r: Result<(nat, seq<Option<D>>)>, ids: seq<string>)
      modifies this, q
      ensures old(sortStrategy).None? ==> r == Err(PhpError)
      ensures old(sortStrategy).Some? ==>
        State().(cache := map[]) == Prepared(strategies, filterFields, old(State())).0.(cache := map[])
      ensures r.Ok? ==> keyOf(q.State()) in cache
      ensures old(sortStrategy).Some? && SortsLocally(valueFunc) ==> (keyOf(q.State()) in cache &&
        Delivers(r, ids, LocalPage(cache[keyOf(q.State())], filter, valueOf(valueFunc.value), ordering, page, pageSize), find(ids)))
      ensures old(sortStrategy).Some? && !SortsLocally(valueFunc) && dbSortFields.Some? ==> (keyOf(q.State()) in cache &&
        Delivers(r, ids, DBSelection(cache[keyOf(q.State())], filter, page, pageSize), find(ids)))
      ensures old(sortStrategy).Some? && !SortsLocally(valueFunc) && dbSortFields.None? ==> r == Err(PhpError)
    {
      var o := PrepareForQuery();
      if o.Fail? {
        return Err(o.error), [];
      }
      var selected := GetSelectedIds(q, keyOf, run);
      if selected.Err? {
        return Err(selected.error), [];
      }
      ids := selected.value.1;
      var data := FindByIds(find(ids), ids);
      r := Ok((selected.value.0, data));
    }

    /** `findByIds`: the fetched document of each requested id, in the
        requested order; an id that was not found gives null. */
    static method FindByIds<D>(selected: Assoc<D>, ids: seq<string>) returns (data: seq<Option<D>>)
      ensures |data| == |ids|
      ensures forall i :: 0 <= i < |ids| ==> data[i] == Lookup(selected, ids[i])
    {
      data := [];
      for i := 0 to |ids|
        invariant |data| == i
        invariant forall j :: 0 <= j < i ==> data[j] == Lookup(selected, ids[j])
      {
        data := data + [Lookup(selected, ids[i])];
      }
    }
  }
}
