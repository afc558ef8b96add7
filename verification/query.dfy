/** The Supabase query builder seen from the services: the chain of calls a
    service makes is recorded as a value, and the store's answer is a
    parameter. How the store evaluates the query is not modelled. */
module QueryBuilder {
  import opened Wrappers
  import opened JsValues

  /** One filter call: `.ilike(column, pattern)` or `.eq(column, value)`. */
  datatype Filter = Ilike(column: string, pattern: string) | Eq(column: string, value: Json)

  /** `.range(from, to)`: row indices `from` through `to`, both inclusive. */
  datatype RowRange = RowRange(from: int, to: int)

  /** `select(columns)` versus `select(columns, { count: 'exact' })`. */
  datatype CountMode = NoCount | ExactCount

  /** `from(table).select(columns, count)`, the filters in call order, then an
      optional `.range(...)` and an optional `.limit(n)`. */
  datatype Query = Query(
    table: string,
    columns: string,
    count: CountMode,
    filters: seq<Filter>,
    range: Option<RowRange>,
    limit: Option<nat>)

  /** The awaited `{ data, error, count }`; `error` is the error's message. */
  datatype Response = Response(data: seq<Json>, error: Option<string>, count: Option<nat>)

  /** `new Error(message)` thrown by a service. */
  datatype Thrown = Thrown(message: string)
}
