/** Chunk: one page of a query's results, sorted on the server. It holds
    the sort fields (a single field is wrapped as an ascending sort), the
    page number and the page size; applied to a query it sets the sort and,
    for a given page, the skip and the limit. Its result carries the data
    and a total that is counted only when first asked for. Running the
    query (`all`) and counting its matches (`count`) are parameters. */
module Chunks {
  import opened Wrappers
  import opened PhpValues
  import opened PhpArrays
  import opened Queries

  /** `set`'s treatment of the sort fields: null and arrays are kept, any
      other value becomes the one field `[$v => 1]`, which fails for an
      object (an illegal offset). */
  function SortFieldsArg(v: Value): (r: Result<Value>)
    ensures r.Err? <==> v.Obj?
    ensures v.Null? || v.Arr? ==> r == Ok(v)
    ensures v.Str? ==> r == Ok(Arr([(v.s, Int(1))]))
    ensures r.Ok? ==> r.value.Null? || r.value.Arr?
  {
    if v.Null? || v.Arr? then Ok(v)
    else
      var k :- ArrayKey(v);
      Ok(Arr([(k, Int(1))]))
  }

  /** The query state after `applyTo`, and whether it completed: the sort
      when there are sort fields; then, for a non-null page, the skip
      `pageSize * page` and the limit `pageSize`. A failing step leaves the
      steps before it done. `toStr` stands for an object's `__toString`,
      if it has one. */
  function Applied(sortFields: Value, page: Value, pageSize: Value, s: QueryState, toStr: Value -> Option<string>): (QueryState, Outcome) {
    var sorted := if sortFields.Null? then Ok(s) else
      (match ArrayArg(sortFields, toStr)
       case Ok(v) => Ok(s.(sort := v))
       case Err(e) => Err(e));
    if sorted.Err? then (s, Fail(sorted.error))
    else if page.Null? then (sorted.value, Pass)
    else
      var s1 := sorted.value;
      match Mul(pageSize, page)
      case Err(e) => (s1, Fail(e))
      case Ok(offset) =>
        match CountArg(offset)
        case Err(e) => (s1, Fail(e))
        case Ok(skip) =>
          var s2 := s1.(skip := skip);
          match CountArg(pageSize)
          case Err(e) => (s2, Fail(e))
          case Ok(limit) => (s2.(limit := limit), Pass)
  }

  /** Integer paging on a query: with array (or no) sort fields and
      integer page and page size, `applyTo` succeeds, skips
      `pageSize * page` results, limits to `pageSize`, and changes nothing
      else. */
  lemma AppliedPaging(sortFields: Value, page: int, pageSize: int, s: QueryState, toStr: Value -> Option<string>)
    requires sortFields.Null? || sortFields.Arr?
    ensures Applied(sortFields, Int(page), Int(pageSize), s, toStr) ==
      ((if sortFields.Null? then s else s.(sort := sortFields)).(skip := Some(pageSize * page), limit := Some(pageSize)), Pass)
  {
  }

  /** Without a page, `applyTo` leaves the skip and the limit alone. */
  lemma AppliedWithoutPage(sortFields: Value, pageSize: Value, s: QueryState, toStr: Value -> Option<string>)
    ensures var (s', o) := Applied(sortFields, Null, pageSize, s, toStr);
      s'.skip == s.skip && s'.limit == s.limit &&
      (o.Pass? <==> sortFields.Null? || sortFields.Arr?) &&
      s' == (if o.Pass? && !sortFields.Null? then s.(sort := sortFields) else s)
  {
  }

  /** The total of a chunk result: known, or to be counted on a query. */
  datatype Total = Known(n: int) | Deferred(query: Query)

  class ChunkResult<D> {
    const data: seq<D>
    var total: Total

    constructor(data: seq<D>, total: Total)
      ensures this.data == data && this.total == total
    {
      this.data := data;
      this.total := total;
    }

    /** `getTotal`: a deferred total is counted on the query as it is now,
        once; the count is kept and served from then on. */
    method GetTotal(count: QueryState -> int) returns (n: int)
      modifies this
      ensures old(total).Known? ==> n == old(total).n && total == old(total)
      ensures old(total).Deferred? ==> n == count(old(total).query.State())
      ensures total == Known(n)
    {
      if total.Deferred? {
        total := Known(count(total.query.State()));
      }
      n := total.n;
    }
  }

  class Chunk {
    var sortFields: Value
    var page: Value
    var pageSize: Value

    /** `new Chunk()`: no sort, no page. */
    constructor()
      ensures sortFields == Null && page == Null && pageSize == Null
    {
      sortFields := Null;
      page := Null;
      pageSize := Null;
    }

    /** `set`: normalises the sort fields and stores the page and the page
        size as given; an object sort field fails before anything is
        stored. */
    method Set(sortFields: Value, page: Value, pageSize: Value) returns (o: Outcome)
      modifies this
      ensures o.Pass? <==> SortFieldsArg(sortFields).Ok?
      ensures o.Fail? ==>
        o == Fail(PhpError) && this.sortFields == old(this.sortFields) &&
        this.page == old(this.page) && this.pageSize == old(this.pageSize)
      ensures o.Pass? ==>
        this.sortFields == SortFieldsArg(sortFields).value && this.page == page && this.pageSize == pageSize
    {
      var f := SortFieldsArg(sortFields);
      if f.Err? {
        return Fail(f.error);
      }
      this.sortFields := f.value;
      this.page := page;
      this.pageSize := pageSize;
      return Pass;
    }

    /** `applyTo`. */
    method ApplyTo(q: Query, toStr: Value -> Option<string>) returns (o: Outcome)
      modifies q
      ensures (q.State(), o) == Applied(sortFields, page, pageSize, old(q.State()), toStr)
    {
      if !sortFields.Null? {
        o := q.Sort(sortFields, toStr);
        if o.Fail? {
          return;
        }
      }
      if !page.Null? {
        var offset := Mul(pageSize, page);
        if offset.Err? {
          return Fail(offset.error);
        }
        o := q.Skip(offset.value);
        if o.Fail? {
          return;
        }
        o := q.Limit(pageSize);
        return;
      }
      return Pass;
    }

    /** `getResult`: applies the chunk to the query, takes its documents and
        defers the count. */
    method GetResult<D>(q: Query, all: QueryState -> seq<D>, toStr: Value -> Option<string>) returns (r: Result<ChunkResult<D>>)
      modifies q
      ensures var (s, o) := Applied(sortFields, page, pageSize, old(q.State()), toStr);
        q.State() == s && (r.Ok? <==> o.Pass?) && (r.Err? ==> r.error == o.error)
      ensures r.Ok? ==> fresh(r.value) && r.value.data == all(q.State()) && r.value.total == Deferred(q)
    {
      var o := ApplyTo(q, toStr);
      if o.Fail? {
        return Err(o.error);
      }
      var result := new ChunkResult(all(q.State()), Deferred(q));
      return Ok(result);
    }
  }
}
