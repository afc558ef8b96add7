/** `CategoriesService.findByQuery` and `isCategoryBoundToWebsite`: fuzzy
    filters from the query, an owner restriction for non-admin callers, a
    page of rows and the derived page count. */
module CategoryService {
  import opened Wrappers
  import opened JsValues
  import opened QueryBuilder
  import WebsiteService

  const Table := "categories"

  /** Destructured out of the query before the filters are built. */
  const ReservedKeys: seq<string> := ["page", "limit", "user_id"]

  const AdminRole := "admin"
  const OwnerColumn := "user_id"

  function Kept(m: Member): seq<Member> {
    if m.key in ReservedKeys then [] else [m]
  }

  /** The `...filters` rest of `{ page, limit, user_id, ...filters } = query`. */
  function FilterEntries(query: seq<Member>): seq<Member>
    decreases |query|
  {
    if |query| == 0 then []
    else
      var n := |query| - 1;
      FilterEntries(query[..n]) + Kept(query[n])
  }

  /** The rest holds exactly the entries not keyed `page`, `limit` or
      `user_id`, and is the whole query when it has none of them. */
  lemma {:induction false} FilterEntriesMembers(query: seq<Member>)
    ensures forall m :: m in FilterEntries(query) <==> m in query && m.key !in ReservedKeys
    ensures (forall m :: m in query ==> m.key !in ReservedKeys) ==> FilterEntries(query) == query
    decreases |query|
  {
    if |query| > 0 {
      var n := |query| - 1;
      assert query == query[..n] + [query[n]];
      FilterEntriesMembers(query[..n]);
    }
  }

  lemma FilterEntriesSnoc(q: seq<Member>, m: Member)
    ensures FilterEntries(q + [m]) == FilterEntries(q) + Kept(m)
  {
    assert (q + [m])[..|q|] == q;
  }

  /** The rest keeps the query's order: it distributes over concatenation. */
  lemma {:induction false} FilterEntriesAppend(a: seq<Member>, b: seq<Member>)
    ensures FilterEntries(a + b) == FilterEntries(a) + FilterEntries(b)
    decreases |b|
  {
    if |b| == 0 {
      assert a + b == a;
    } else {
      var n := |b| - 1;
      assert a + b == (a + b[..n]) + [b[n]];
      assert b == b[..n] + [b[n]];
      FilterEntriesSnoc(a + b[..n], b[n]);
      FilterEntriesSnoc(b[..n], b[n]);
      FilterEntriesAppend(a, b[..n]);
    }
  }

  /** `%${value}%`. */
  function FuzzyPattern(v: Json): string {
    "%" + ToJsString(v) + "%"
  }

  /** Positions of the entries with a truthy value, in increasing order. */
  function TruthyIndices(ms: seq<Member>): (idx: seq<nat>)
    ensures forall j :: 0 <= j < |idx| ==> idx[j] < |ms| && Truthy(ms[idx[j]].value)
    ensures forall i :: 0 <= i < |ms| && Truthy(ms[i].value) ==> i in idx
    ensures forall j, j' :: 0 <= j < j' < |idx| ==> idx[j] < idx[j']
    decreases |ms|
  {
    if |ms| == 0 then []
    else
      var n := |ms| - 1;
      TruthyIndices(ms[..n]) + (if Truthy(ms[n].value) then [n] else [])
  }

  /** The loop adding one `.ilike` per truthy filter value. */
  function FuzzyFilters(ms: seq<Member>): (r: seq<Filter>)
    ensures |r| <= |ms|
    ensures forall f :: f in r ==> f.Ilike? && f.column in Keys(ms)
    decreases |ms|
  {
    if |ms| == 0 then []
    else
      var n := |ms| - 1;
      assert Keys(ms[..n]) <= Keys(ms) by {
        forall m | m in ms[..n] ensures m in ms { }
      }
      assert ms[n] in ms;
      FuzzyFilters(ms[..n]) + (if Truthy(ms[n].value) then [Ilike(ms[n].key, FuzzyPattern(ms[n].value))] else [])
  }

  /** Exactly one `ilike(key, '%value%')` per truthy entry, in entry order;
      falsy values (`''`, `0`, `null`, `undefined`, `false`, NaN) add nothing. */
  lemma {:induction false} FuzzyFiltersFollowEntries(ms: seq<Member>)
    ensures |FuzzyFilters(ms)| == |TruthyIndices(ms)|
    ensures forall j :: 0 <= j < |FuzzyFilters(ms)| ==>
      FuzzyFilters(ms)[j] == Ilike(ms[TruthyIndices(ms)[j]].key, FuzzyPattern(ms[TruthyIndices(ms)[j]].value))
    decreases |ms|
  {
    if |ms| > 0 {
      var n := |ms| - 1;
      FuzzyFiltersFollowEntries(ms[..n]);
      assert forall i :: 0 <= i < n ==> ms[..n][i] == ms[i];
    }
  }

  /** The owner restriction: only callers without the `admin` role are
      confined to their own rows. */
  function OwnerFilters(roles: seq<string>, userId: Json): seq<Filter> {
    if AdminRole in roles then [] else [Eq(OwnerColumn, userId)]
  }

  /** `offset = (page - 1) * limit` and `.range(offset, offset + limit * 1 - 1)`. */
  function PageRange(page: int, limit: int): (r: RowRange)
    ensures r.to - r.from + 1 == limit
    ensures page >= 1 && limit >= 0 ==> r.from >= 0
  {
    var offset := (page - 1) * limit;
    RowRange(offset, offset + limit * 1 - 1)
  }

  /** Consecutive pages are adjacent. */
  lemma ConsecutivePagesAdjacent(page: int, limit: int)
    ensures PageRange(page + 1, limit).from == PageRange(page, limit).to + 1
  {
  }

  /** Different pages never share a row. */
  lemma PagesDisjoint(p: int, q: int, limit: int)
    requires limit >= 1 && p < q
    ensures PageRange(p, limit).to < PageRange(q, limit).from
  {
    assert (q - 1) * limit - p * limit == (q - 1 - p) * limit;
    assert (q - 1 - p) * limit >= 0;
  }

  /** Page 0 is not rejected: it asks for rows before the first one. */
  lemma PageZeroIsNegative(limit: int)
    requires limit >= 1
    ensures PageRange(0, limit) == RowRange(-limit, -1)
  {
  }

  /** `count || 0`. */
  function CountOrZero(count: Option<nat>): nat {
    match count
    case Some(c) => c
    case None => 0
  }

  /** `Math.ceil((count || 0) / limit)`: the least number of pages of `limit`
      rows that holds every counted row. */
  function TotalPages(count: Option<nat>, limit: int): (pages: nat)
    requires limit >= 1
    ensures pages == 0 <==> CountOrZero(count) == 0
    ensures CountOrZero(count) > 0 ==>
      (pages - 1) * limit < CountOrZero(count) <= pages * limit
  {
    var c := CountOrZero(count);
    if c % limit == 0 then c / limit else c / limit + 1
  }

  /** The envelope `findByQuery` returns. `total` is the raw count, which may
      be `null`. */
  datatype CategoryPage = CategoryPage(
    list: seq<Json>,
    total: Option<nat>,
    totalPages: nat,
    page: int,
    limit: int)

  /** What the source takes for granted of its query: numeric `page` and
      `limit`, with a positive `limit`. */
  predicate PagingQuery(query: seq<Member>) {
    Get(query, "page").Num? && Get(query, "limit").Num? && Get(query, "limit").n >= 1
  }

  /** The builder chain `findByQuery` issues for a caller with `roles`. */
  function CategoryQuery(query: seq<Member>, roles: seq<string>): (q: Query)
    requires PagingQuery(query)
    ensures q.table == Table && q.columns == "*" && q.count == ExactCount && q.limit == None
    ensures q.range == Some(PageRange(Get(query, "page").n, Get(query, "limit").n))
  {
    var page, limit, userId := Get(query, "page").n, Get(query, "limit").n, Get(query, "user_id");
    Query(Table, "*", ExactCount,
      FuzzyFilters(FilterEntries(query)) + OwnerFilters(roles, userId),
      Some(PageRange(page, limit)), None)
  }

  /** `page`, `limit` and `user_id` never become fuzzy filters. */
  lemma ReservedNeverFuzzy(query: seq<Member>, roles: seq<string>)
    requires PagingQuery(query)
    ensures forall f :: f in CategoryQuery(query, roles).filters && f.Ilike? ==> f.column !in ReservedKeys
  {
    var fs := FilterEntries(query);
    FilterEntriesMembers(query);
    var fuzzy := FuzzyFilters(fs);
    var owner := OwnerFilters(roles, Get(query, "user_id"));
    assert CategoryQuery(query, roles).filters == fuzzy + owner;
    forall f | f in fuzzy ensures f.column !in ReservedKeys {
      var m :| m in fs && m.key == f.column;
    }
  }

  /** The clauses of a query that test equality. */
  function EqFiltersOf(fs: seq<Filter>): (r: seq<Filter>)
    ensures forall f :: f in r <==> f in fs && f.Eq?
    decreases |fs|
  {
    if |fs| == 0 then []
    else
      var n := |fs| - 1;
      assert fs == fs[..n] + [fs[n]];
      EqFiltersOf(fs[..n]) + (if fs[n].Eq? then [fs[n]] else [])
  }

  lemma EqFiltersOfSnoc(fs: seq<Filter>, f: Filter)
    ensures EqFiltersOf(fs + [f]) == EqFiltersOf(fs) + (if f.Eq? then [f] else [])
  {
    assert (fs + [f])[..|fs|] == fs;
  }

  lemma {:induction false} EqFiltersOfAppend(a: seq<Filter>, b: seq<Filter>)
    ensures EqFiltersOf(a + b) == EqFiltersOf(a) + EqFiltersOf(b)
    decreases |b|
  {
    if |b| == 0 {
      assert a + b == a;
    } else {
      var n := |b| - 1;
      assert a + b == (a + b[..n]) + [b[n]];
      assert b == b[..n] + [b[n]];
      EqFiltersOfSnoc(a + b[..n], b[n]);
      EqFiltersOfSnoc(b[..n], b[n]);
      EqFiltersOfAppend(a, b[..n]);
    }
  }

  lemma {:induction false} EqFiltersOfFuzzy(fs: seq<Filter>)
    requires forall f :: f in fs ==> f.Ilike?
    ensures EqFiltersOf(fs) == []
    decreases |fs|
  {
    if |fs| > 0 {
      var n := |fs| - 1;
      assert fs[n] in fs;
      assert forall f :: f in fs[..n] ==> f in fs;
      EqFiltersOfFuzzy(fs[..n]);
    }
  }

  /** The visibility gate: a caller without `admin` gets exactly one equality
      clause, `user_id = <the query's user_id>`, placed after the fuzzy
      filters; an `admin` caller gets none. */
  lemma {:induction false} VisibilityGate(query: seq<Member>, roles: seq<string>)
    requires PagingQuery(query)
    ensures AdminRole !in roles ==>
      EqFiltersOf(CategoryQuery(query, roles).filters) == [Eq(OwnerColumn, Get(query, "user_id"))]
    ensures AdminRole !in roles ==>
      CategoryQuery(query, roles).filters[|CategoryQuery(query, roles).filters| - 1] == Eq(OwnerColumn, Get(query, "user_id"))
    ensures AdminRole in roles ==> EqFiltersOf(CategoryQuery(query, roles).filters) == []
  {
    var fuzzy := FuzzyFilters(FilterEntries(query));
    var owner := OwnerFilters(roles, Get(query, "user_id"));
    EqFiltersOfAppend(fuzzy, owner);
    EqFiltersOfFuzzy(fuzzy);
    assert owner == [] ==> EqFiltersOf(owner) == [];
  }

  /** The gate only appends: a caller without `admin` gets an admin's clauses
      followed by the owner clause. */
  lemma OwnerClauseAppended(query: seq<Member>, roles: seq<string>)
    requires PagingQuery(query)
    requires AdminRole !in roles
    ensures CategoryQuery(query, roles).filters ==
      CategoryQuery(query, [AdminRole]).filters + [Eq(OwnerColumn, Get(query, "user_id"))]
  {
    assert AdminRole in [AdminRole];
  }

  /** The clauses of the issued query: one `ilike(key, '%value%')` per truthy
      entry of the rest, in query order, then the owner clause unless the
      caller is an admin. */
  lemma IssuedFilters(query: seq<Member>, roles: seq<string>)
    requires PagingQuery(query)
    ensures var es, fs := FilterEntries(query), CategoryQuery(query, roles).filters;
      && |fs| == |TruthyIndices(es)| + (if AdminRole in roles then 0 else 1)
      && forall j :: 0 <= j < |TruthyIndices(es)| ==>
        fs[j] == Ilike(es[TruthyIndices(es)[j]].key, FuzzyPattern(es[TruthyIndices(es)[j]].value))
  {
    FuzzyFiltersFollowEntries(FilterEntries(query));
  }

  /** Message prefixes of the errors the service throws. */
  const QueryFailed := "查询出错: "
  const BindingCheckFailed := "检查绑定关系时出错: "

  /** `findByQuery`: the store's answer to `CategoryQuery` becomes a page
      envelope, or its error is thrown. */
  function FindByQuery(query: seq<Member>, roles: seq<string>, store: Query -> Response)
    : (r: Result<CategoryPage, Thrown>)
    requires PagingQuery(query)
    ensures var resp := store(CategoryQuery(query, roles));
      && (r.Ok? <==> resp.error.None?)
      && (r.Err? ==> r.error == Thrown(QueryFailed + resp.error.value))
      && (r.Ok? ==> r.value.list == resp.data && r.value.total == resp.count)
      && (r.Ok? ==> r.value.page == Get(query, "page").n && r.value.limit == Get(query, "limit").n)
      && (r.Ok? ==> r.value.totalPages == TotalPages(resp.count, r.value.limit))
  {
    var page, limit := Get(query, "page").n, Get(query, "limit").n;
    var resp := store(CategoryQuery(query, roles));
    match resp.error
    case Some(message) => Err(Thrown(QueryFailed + message))
    case None => Ok(CategoryPage(resp.data, resp.count, TotalPages(resp.count, limit), page, limit))
  }

  /** The existence check against the websites table: at most one row of
      `category_id` equal to the category. */
  function BindingQuery(categoryId: int): Query {
    Query(WebsiteService.Table, "category_id", NoCount, [Eq("category_id", Num(categoryId))], None, Some(1))
  }

  /** `isCategoryBoundToWebsite`: true exactly when the lookup returns a row. */
  function IsCategoryBoundToWebsite(categoryId: int, store: Query -> Response): (r: Result<bool, Thrown>)
    ensures var resp := store(BindingQuery(categoryId));
      && (r.Ok? <==> resp.error.None?)
      && (r.Ok? ==> (r.value <==> |resp.data| >= 1))
      && (r.Err? ==> r.error == Thrown(BindingCheckFailed + resp.error.value))
  {
    var resp := store(BindingQuery(categoryId));
    match resp.error
    case Some(message) => Err(Thrown(BindingCheckFailed + message))
    case None => Ok(|resp.data| > 0)
  }

  /** Worked values of the page count and the row range. */
  lemma PagingExamples()
    ensures TotalPages(Some(0), 10) == 0 && TotalPages(None, 10) == 0
    ensures TotalPages(Some(1), 10) == 1 && TotalPages(Some(25), 10) == 3 && TotalPages(Some(30), 10) == 3
    ensures PageRange(1, 20) == RowRange(0, 19) && PageRange(3, 20) == RowRange(40, 59)
  {
  }

  /** The query of the worked example below. */
  function ShopQuery(): seq<Member> {
    [Member("page", Num(1)), Member("limit", Num(10)), Member("name", Str("shop")), Member("user_id", Num(7))]
  }

  lemma ShopQueryFields()
    ensures Get(ShopQuery(), "page") == Num(1)
    ensures Get(ShopQuery(), "limit") == Num(10)
    ensures Get(ShopQuery(), "user_id") == Num(7)
  {
    var q := ShopQuery();
    assert q[1..][0] == Member("limit", Num(10));
    assert q[1..][1..][1..] == [Member("user_id", Num(7))];
  }

  lemma ShopQueryFilters()
    ensures FilterEntries(ShopQuery()) == [Member("name", Str("shop"))]
  {
    var q := ShopQuery();
    assert q[..3][..2][..1][..0] == [];
    assert FilterEntries(q[..3][..2][..1]) == [];
    assert FilterEntries(q[..3][..2]) == [];
    assert FilterEntries(q[..3]) == [Member("name", Str("shop"))];
    assert q[..|q| - 1] == q[..3];
  }

  lemma ShopPattern()
    ensures FuzzyPattern(Str("shop")) == "%shop%"
  {
    assert ToJsString(Str("shop")) == "shop";
    assert "%" + "shop" + "%" == "%shop%";
  }

  lemma ShopFuzzyFilters()
    ensures FuzzyFilters(FilterEntries(ShopQuery())) == [Ilike("name", "%shop%")]
  {
    ShopQueryFilters();
    ShopPattern();
    var name := [Member("name", Str("shop"))];
    assert name[..0] == [];
    assert FuzzyFilters(name[..0]) == [];
    assert Truthy(name[0].value);
    assert FuzzyFilters(name) == [] + [Ilike("name", FuzzyPattern(Str("shop")))];
  }

  lemma ShopQueryParts()
    ensures PagingQuery(ShopQuery())
    ensures CategoryQuery(ShopQuery(), ["user"]).filters ==
      FuzzyFilters(FilterEntries(ShopQuery())) + [Eq("user_id", Num(7))]
    ensures CategoryQuery(ShopQuery(), ["user"]).range == Some(PageRange(1, 10))
  {
    ShopQueryFields();
    assert AdminRole !in ["user"];
  }

  /** A non-admin caller 7 asking for page 1 of 10 categories named like
      "shop" gets `name ilike '%shop%' and user_id = 7`, rows 0 to 9. */
  lemma ShopQueryExample()
    ensures PagingQuery(ShopQuery())
    ensures CategoryQuery(ShopQuery(), ["user"]).filters == [Ilike("name", "%shop%"), Eq("user_id", Num(7))]
    ensures CategoryQuery(ShopQuery(), ["user"]).range == Some(RowRange(0, 9))
  {
    ShopQueryParts();
    ShopFuzzyFilters();
    var cq := CategoryQuery(ShopQuery(), ["user"]);
    assert cq.filters == [Ilike("name", "%shop%")] + [Eq("user_id", Num(7))];
    assert PageRange(1, 10) == RowRange(0, 9);
  }
}
