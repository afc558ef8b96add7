/** `WebsiteService.findByQuery`: every query entry becomes an equality
    filter, with no pagination. */
module WebsiteService {
  import opened Wrappers
  import opened JsValues
  import opened QueryBuilder

  const Table := "websites"
  const QueryFailed := "查询失败: "

  /** The loop adding one `.eq(key, value)` per query entry. */
  function EqFilters(query: seq<Member>): (r: seq<Filter>)
    ensures |r| == |query|
    ensures forall i :: 0 <= i < |query| ==> r[i] == Eq(query[i].key, query[i].value)
    decreases |query|
  {
    if |query| == 0 then []
    else
      var n := |query| - 1;
      EqFilters(query[..n]) + [Eq(query[n].key, query[n].value)]
  }

  /** `from('websites').select('*')` with the equality filters and nothing
      else: no count, no range, no ordering. */
  function WebsiteQuery(query: seq<Member>): Query {
    Query(Table, "*", NoCount, EqFilters(query), None, None)
  }

  /** No key is reserved: every property of the query, `page` and `limit`
      included, is matched for equality, and nothing else is. */
  lemma EveryEntryIsEquality(query: seq<Member>)
    ensures forall m :: m in query ==> Eq(m.key, m.value) in WebsiteQuery(query).filters
    ensures forall f :: f in WebsiteQuery(query).filters ==> f.Eq? && Member(f.column, f.value) in query
    ensures WebsiteQuery(query).range == None && WebsiteQuery(query).limit == None
  {
    var fs := WebsiteQuery(query).filters;
    forall m | m in query ensures Eq(m.key, m.value) in fs {
      var i :| 0 <= i < |query| && query[i] == m;
      assert fs[i] == Eq(m.key, m.value);
    }
    forall f | f in fs ensures f.Eq? && Member(f.column, f.value) in query {
      var i :| 0 <= i < |fs| && fs[i] == f;
      assert query[i] == Member(f.column, f.value);
    }
  }

  /** An empty query reads the whole table unfiltered. */
  lemma EmptyQueryUnfiltered()
    ensures WebsiteQuery([]) == Query(Table, "*", NoCount, [], None, None)
  {
  }

  /** `findByQuery`: the rows the store returns, or its error thrown. */
  function FindByQuery(query: seq<Member>, store: Query -> Response): (r: Result<seq<Json>, Thrown>)
    ensures var resp := store(WebsiteQuery(query));
      && (r.Ok? <==> resp.error.None?)
      && (r.Ok? ==> r.value == resp.data)
      && (r.Err? ==> r.error == Thrown(QueryFailed + resp.error.value))
  {
    var resp := store(WebsiteQuery(query));
    match resp.error
    case Some(message) => Err(Thrown(QueryFailed + message))
    case None => Ok(resp.data)
  }
}

/** `WebsiteController.findByQuery`: the category `-1` ("all categories")
    is dropped from the query before the service runs it. */
module WebsiteController {
  import opened Wrappers
  import opened JsValues
  import opened QueryBuilder
  import WebsiteService

  const CategoryKey := "category_id"
  const AllCategories := Str("-1")

  /** `if (query.category_id && query.category_id === '-1') delete query.category_id`. */
  function DropCategorySentinel(query: seq<Member>): (r: seq<Member>)
    ensures Get(query, CategoryKey) == AllCategories ==> CategoryKey !in Keys(r)
    ensures Get(query, CategoryKey) != AllCategories ==> r == query
    ensures forall m: Member :: m.key != CategoryKey ==> (m in r <==> m in query)
  {
    var c := Get(query, CategoryKey);
    if Truthy(c) && c == AllCategories then
      RemoveKeys(query, CategoryKey);
      Remove(query, CategoryKey)
    else query
  }

  /** Dropping the sentinel twice is dropping it once. */
  lemma DropCategorySentinelIdempotent(query: seq<Member>)
    ensures DropCategorySentinel(DropCategorySentinel(query)) == DropCategorySentinel(query)
  {
    var r := DropCategorySentinel(query);
    if Get(query, CategoryKey) == AllCategories {
      assert Get(r, CategoryKey) == Undefined;
    }
  }

  /** The route: a `category_id` of `'-1'` is deleted before the service
      runs; any other query reaches the service as it came. Whatever the
      request, the service runs on a query that keeps every other property
      and, for an object with distinct keys, issues no `category_id = '-1'`
      clause. */
  function FindByQuery(query: seq<Member>, store: Query -> Response): (r: Result<seq<Json>, Thrown>)
    ensures Get(query, CategoryKey) != AllCategories ==> r == WebsiteService.FindByQuery(query, store)
    ensures Get(query, CategoryKey) == AllCategories ==>
      r == WebsiteService.FindByQuery(Remove(query, CategoryKey), store)
    ensures exists q: seq<Member> ::
      && r == WebsiteService.FindByQuery(q, store)
      && (forall m: Member :: m.key != CategoryKey ==> (m in q <==> m in query))
      && (UniqueKeys(query) ==> Eq(CategoryKey, AllCategories) !in WebsiteService.WebsiteQuery(q).filters)
  {
    var q := DropCategorySentinel(query);
    assert UniqueKeys(query) ==> Eq(CategoryKey, AllCategories) !in WebsiteService.WebsiteQuery(q).filters by {
      if UniqueKeys(query) {
        NoSentinelFilter(query);
      }
    }
    WebsiteService.FindByQuery(q, store)
  }

  /** No request makes the store filter on `category_id = '-1'`. */
  lemma NoSentinelFilter(query: seq<Member>)
    requires UniqueKeys(query)
    ensures Eq(CategoryKey, AllCategories) !in WebsiteService.WebsiteQuery(DropCategorySentinel(query)).filters
  {
    var r := DropCategorySentinel(query);
    WebsiteService.EveryEntryIsEquality(r);
    if Get(query, CategoryKey) == AllCategories {
      assert forall m :: m in r ==> m.key != CategoryKey by {
        forall m | m in r ensures m.key != CategoryKey {
          assert m.key in Keys(r);
        }
      }
    } else {
      forall m | m in query && m.key == CategoryKey ensures m.value != AllCategories {
        var i :| 0 <= i < |query| && query[i] == m;
      }
    }
  }
}
