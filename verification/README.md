# dream-hub API core in Dafny

A Dafny model of the three pieces of logic in the dream-hub NestJS API that are more than
pass-through glue around the Supabase store:

- **The case/date interceptor** (`CamelToSnakeInterceptor`). Request bodies and query maps
  get snake_case keys. Responses get camelCase keys. On requests, `page` and `limit` are
  parsed with `parseInt` at every object level. A value whose converted key contains `date`
  or `At` is passed through `formatTime`. Modules `CaseInterceptor`, `Entries`
  (`Object.fromEntries`), `JsValues` (JavaScript values) and `Text` (string search).
- **Dynamic query shaping.** `CategoriesService.findByQuery` builds fuzzy `ilike` filters
  from the truthy query entries. It adds an owner `eq('user_id', …)` filter for non-admin
  callers and asks for one page of rows. It then derives the page count.
  `isCategoryBoundToWebsite` is an existence check. `WebsiteService.findByQuery` turns every
  entry into an `eq` filter. `WebsiteController.findByQuery` first drops `category_id = '-1'`.
  The Supabase builder chain is recorded as a `QueryBuilder.Query` value, and the store's
  answer is a function parameter (`Query -> Response`). Modules `QueryBuilder`,
  `CategoryService`, `WebsiteService`, `WebsiteController`.
- **The exception filter** (`AllExceptionsFilter.catch`): any thrown exception becomes
  `{ code, success, message, error }`. Modules `ExceptionFilter` and `CategoryRoute` (the
  category query followed by the filter).

The library functions the interceptor calls are `camelCase`, `snakeCase` (change-case-object),
`formatTime` and `parseInt`. They are not given bodies: they are fields of the
`CaseInterceptor.Helpers` record, and every statement about the interceptor holds for any
choice of them. The caller's `roles` come from `userService.findOne`, which is not part of
this model, so they are a parameter.

Behaviour of the code worth noting:

- The code skips every falsy filter value (`''`, `0`, `false`, `null`, `undefined`, NaN), not
  only empty ones.
- `total` is the store's raw `count`, which may be `null`; only `totalPages` coalesces it to 0.
- `page = 0` is not rejected: it yields the range `(-limit, -1)` (`PageZeroIsNegative`).
- `parseInt` is called without a radix.
- Nothing in the code bounds `list` by `limit`; that is left to the store.

## Model

| member | source | states |
|---|---|---|
| CaseInterceptor.Convert | apps/api/src/common/interceptors/camel-to-snake.interceptor.ts:31-63 | scalars (null, undefined, numbers, strings, booleans) come back unchanged; arrays stay arrays of the same length; objects stay objects with pairwise distinct keys and never gain entries |
| CaseInterceptor.ConvertArray | apps/api/src/common/interceptors/camel-to-snake.interceptor.ts:32-33 | an array converts element-wise: same length, element i is the conversion of input element i |
| CaseInterceptor.ConvertObjectKeys | apps/api/src/common/interceptors/camel-to-snake.interceptor.ts:35-40 | the key set of a converted object is exactly the image of the input keys under camelCase (responses) or snakeCase (requests) |
| CaseInterceptor.ConvertObjectLastWins | apps/api/src/common/interceptors/camel-to-snake.interceptor.ts:55-60 | every output property is the conversion of the LAST input entry whose key re-cases to that name |
| CaseInterceptor.ConvertObjectEntries | apps/api/src/common/interceptors/camel-to-snake.interceptor.ts:35-40 | the entry count is kept if and only if no two keys re-case to the same name; without a collision entry i is the conversion of input entry i |
| CaseInterceptor.ParseIntValue | apps/api/src/common/interceptors/camel-to-snake.interceptor.ts:51 | the result of `parseInt` is a number or NaN, and NaN exactly when `parseInt` finds no integer |
| CaseInterceptor.InboundPagingCoerced | apps/api/src/common/interceptors/camel-to-snake.interceptor.ts:48-53 | on requests a key spelled exactly `page` or `limit` carries `parseInt` of its old value (date-formatted if its snake_case key is date-like) |
| CaseInterceptor.OutboundNeverParses | apps/api/src/common/interceptors/camel-to-snake.interceptor.ts:31-43 | response conversion never consults `parseInt` at any depth: any two `parseInt` functions give the same result |
| CaseInterceptor.DateKeyIffOccurs | apps/api/src/common/interceptors/camel-to-snake.interceptor.ts:65-70 | a key is date-like exactly when `date` or `At` occurs in it at some position, case-sensitively |
| CaseInterceptor.ConvertMemberDates | apps/api/src/common/interceptors/camel-to-snake.interceptor.ts:56-70 | a value goes through `formatTime` iff its converted key is date-like, otherwise it is the plain recursive conversion; a nested object reaches `formatTime` with its keys already converted |
| CaseInterceptor.ConvertKeepsShape | apps/api/src/common/interceptors/camel-to-snake.interceptor.ts:31-63 | a tree with no date-like keys, no re-casing collisions and scalar paging values converts to a tree of the same array/object nesting with the same element and entry counts |
| CaseInterceptor.Intercept | apps/api/src/common/interceptors/camel-to-snake.interceptor.ts:14-28 | the handler sees the snake_case conversion of body and query (the truthiness guards never change this), and the client gets the camelCase conversion of the handler's response |
| Text.IncludesIffOccurs | apps/api/src/common/interceptors/camel-to-snake.interceptor.ts:67 | `includes` holds exactly when the substring occurs at some index |
| Entries.Put | apps/api/src/common/interceptors/camel-to-snake.interceptor.ts:35-40 | writing a property keeps keys distinct; an existing key is updated in place and every other property is untouched; a new key is appended |
| Entries.FromEntries | apps/api/src/common/interceptors/camel-to-snake.interceptor.ts:55-60 | the built object has pairwise distinct keys, exactly the keys of the entries, and at most as many properties as entries |
| Entries.FromEntriesLastWins | apps/api/src/common/interceptors/camel-to-snake.interceptor.ts:35-40 | each property holds the value of the last entry with its key |
| Entries.FromEntriesOrder | apps/api/src/common/interceptors/camel-to-snake.interceptor.ts:55-60 | properties appear in the order of their keys' first occurrence among the entries |
| Entries.FromEntriesOfUnique | apps/api/src/common/interceptors/camel-to-snake.interceptor.ts:55-60 | entries with distinct keys come back unchanged |
| Entries.FromEntriesLength | apps/api/src/common/interceptors/camel-to-snake.interceptor.ts:55-60 | the property count equals the entry count if and only if the entry keys are distinct |
| Entries.FirstIndex | apps/api/src/common/interceptors/camel-to-snake.interceptor.ts:55-60 | the position returned holds the key and no earlier position does |
| Entries.LastIndex | apps/api/src/common/interceptors/camel-to-snake.interceptor.ts:55-60 | the position returned holds the key and no later position does |
| CategoryService.FilterEntriesMembers | apps/api/src/modules/category/category.service.ts:79 | the `...filters` rest holds exactly the query entries not keyed `page`, `limit` or `user_id`, and equals the query when it has none of them |
| CategoryService.FilterEntriesAppend | apps/api/src/modules/category/category.service.ts:79 | the rest keeps the query's order: it distributes over concatenation |
| CategoryService.TruthyIndices | apps/api/src/modules/category/category.service.ts:88-92 | the positions listed are exactly those of truthy values, strictly increasing |
| CategoryService.FuzzyFilters | apps/api/src/modules/category/category.service.ts:88-92 | only `ilike` clauses, at most one per entry, each on a key of the filter entries |
| CategoryService.FuzzyFiltersFollowEntries | apps/api/src/modules/category/category.service.ts:88-92 | exactly one `ilike(key, '%value%')` per truthy entry, in entry order, and none for falsy values |
| CategoryService.ReservedNeverFuzzy | apps/api/src/modules/category/category.service.ts:79-92 | `page`, `limit` and `user_id` never become `ilike` clauses of the issued query |
| CategoryService.VisibilityGate | apps/api/src/modules/category/category.service.ts:94-97 | a caller without `admin` gets exactly one equality clause, `user_id = <query user_id>`, as the last clause; an `admin` caller gets none |
| CategoryService.OwnerClauseAppended | apps/api/src/modules/category/category.service.ts:94-97 | a caller without `admin` gets exactly an admin's clauses followed by `user_id = <query user_id>` |
| CategoryService.IssuedFilters | apps/api/src/modules/category/category.service.ts:79-97 | the issued query's clauses start with one `ilike(key, '%value%')` per truthy non-reserved entry, in query order, and hold one more clause exactly when the caller is not an admin |
| CategoryService.EqFiltersOfAppend | apps/api/src/modules/category/category.service.ts:94-97 | selecting equality clauses distributes over concatenation |
| CategoryService.EqFiltersOfFuzzy | apps/api/src/modules/category/category.service.ts:88-92 | a run of `ilike` clauses contains no equality clause |
| CategoryService.PageRange | apps/api/src/modules/category/category.service.ts:99-102 | the inclusive range spans exactly `limit` rows and starts at 0 or later when `page >= 1` |
| CategoryService.ConsecutivePagesAdjacent | apps/api/src/modules/category/category.service.ts:81 | page p+1 starts right after page p ends |
| CategoryService.PagesDisjoint | apps/api/src/modules/category/category.service.ts:99-102 | for `limit >= 1`, an earlier page ends before a later one starts |
| CategoryService.PageZeroIsNegative | apps/api/src/modules/category/category.service.ts:81 | page 0 is not rejected and asks for rows -limit to -1 |
| CategoryService.TotalPages | apps/api/src/modules/category/category.service.ts:108 | the page count is 0 iff `count \|\| 0` is 0, and otherwise the least n with `(n-1)*limit < count <= n*limit` |
| CategoryService.PagingExamples | apps/api/src/modules/category/category.service.ts:99-108 | counts 0, null, 1, 25, 30 at limit 10 give 0, 0, 1, 3, 3 pages; pages 1 and 3 of 20 are rows 0-19 and 40-59 |
| CategoryService.CategoryQuery | apps/api/src/modules/category/category.service.ts:84-102 | the issued query reads `categories` with an exact count and asks for the page range of the query's `page` and `limit` |
| CategoryService.ShopQueryExample | apps/api/src/modules/category/category.service.ts:78-102 | non-admin caller 7 asking for page 1 of 10 with `name = 'shop'` issues `name ilike '%shop%' and user_id = 7` over rows 0-9 |
| CategoryService.FindByQuery | apps/api/src/modules/category/category.service.ts:104-116 | a store error throws `查询出错: <message>` and returns no envelope; otherwise `list` and `total` are the store's data and raw count, `page` and `limit` are echoed, and `totalPages` is `TotalPages` of the count and `limit` |
| CategoryService.IsCategoryBoundToWebsite | apps/api/src/modules/category/category.service.ts:119-131 | a store error throws; otherwise the answer is true iff the one-row lookup on `websites.category_id` returned a row |
| WebsiteService.EqFilters | apps/api/src/modules/website/website.service.ts:73-75 | one `eq(key, value)` per query entry, clause i from entry i |
| WebsiteService.EveryEntryIsEquality | apps/api/src/modules/website/website.service.ts:69-84 | every entry, `page` and `limit` included, is an equality clause; every clause comes from an entry; no range or row limit is applied |
| WebsiteService.EmptyQueryUnfiltered | apps/api/src/modules/website/website.service.ts:70-84 | an empty query is a plain `select('*')` of `websites` |
| WebsiteService.FindByQuery | apps/api/src/modules/website/website.service.ts:84-88 | a store error throws `查询失败: <message>`; otherwise the store's rows are returned |
| WebsiteController.DropCategorySentinel | apps/api/src/modules/website/website.controller.ts:83-85 | `category_id = '-1'` removes the key; any other value or an absent key leaves the query unchanged; no other entry is added or removed |
| WebsiteController.DropCategorySentinelIdempotent | apps/api/src/modules/website/website.controller.ts:83-85 | dropping the sentinel twice equals dropping it once |
| WebsiteController.FindByQuery | apps/api/src/modules/website/website.controller.ts:82-86 | with `category_id = '-1'` the service runs on the query with that property deleted, otherwise on the query as it came; either way every other property reaches the service and, for an object with distinct keys, no `category_id = '-1'` clause is issued |
| WebsiteController.NoSentinelFilter | apps/api/src/modules/website/website.controller.ts:83-86 | no request makes the store filter on `category_id = '-1'` |
| JsValues.Get | apps/api/src/modules/website/website.controller.ts:83 | a property read yields `undefined` for an absent key and otherwise the value of a member with that key |
| JsValues.Remove | apps/api/src/modules/website/website.controller.ts:84 | `delete` keeps exactly the members with another key and changes nothing when the key is absent |
| JsValues.RemoveKeys | apps/api/src/modules/website/website.controller.ts:84 | after `delete` the key set is the old one minus the deleted key |
| JsValues.RemoveKeepsUniqueKeys | apps/api/src/modules/website/website.controller.ts:84 | deleting from an object with distinct keys leaves distinct keys |
| ExceptionFilter.Catch | apps/api/src/common/filters/http-exception.filter.ts:14-32 | `success` is false; the code is the HttpException status or 500; the message is the string body, the body's truthy `message`, `'An error occurred'`, or `'Internal server error'` for other errors; `error` is the truthy name or `'Error'` and is never falsy |
| ExceptionFilter.ServiceErrorsMasked | apps/api/src/common/filters/http-exception.filter.ts:14-22 | every `new Error(...)` thrown by a service becomes the same envelope: 500, `'Internal server error'`, `'Error'` |
| CategoryRoute.FindByQuery | apps/api/src/modules/category/category.service.ts:104-106 | the category query fails exactly when the store reports an error, and then the client sees the generic 500 envelope, not the store's message |

## Left out

- The bodies of `camelCase`, `snakeCase`, `formatTime` and `parseInt` are not modelled. They are parameters, so no camelCase/snakeCase round trip is claimed.
- Numbers are unbounded integers. Floating point and number-to-string formatting beyond integers are not modelled.
- JavaScript lists integer-like keys (`"0"`, `"1"`, …) ahead of other keys. This object key order is not modelled; members keep insertion order.
- Values other than plain JSON (class instances, `Date` objects) are not modelled. Keys inherited through the prototype, which `for…in` would visit, are not modelled either.
- On requests the source overwrites `page` and `limit` in the incoming object before converting it. The model is functional: it writes the parsed value into the result only.
- How Supabase evaluates a query, and what its `count` means, are not modelled. The store is a function from the recorded query to `{ data, error, count }`.
- `userService.findOne` is not part of this model: the caller's roles are a parameter, and a failing user lookup is not modelled.
- The create/update/remove/findOne/findAll methods of the category, website and tag services are not modelled. Neither is the whole tag service. They forward to the store and wrap its error message.
- CategoryService.FindByQuery: requires numeric `page` and `limit` with `limit >= 1` (`PagingQuery`). The source's NaN arithmetic on a missing or unparsable value is not modelled, and neither is its division by a zero `limit`.
- ExceptionFilter.Catch: the `timestamp` field reads the clock and is not modelled. A thrown `null` is not modelled either; the source would fail reading its `name`.
- Token verification (user.controller.ts), the client's Logto config and store, bootstrap, the rxjs pipeline and async sequencing are not modelled.
