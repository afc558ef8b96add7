/** The category query route end to end: a store error becomes the generic
    500 envelope, so the store's own message is not exposed. */
module CategoryRoute {
  import opened Wrappers
  import opened JsValues
  import opened QueryBuilder
  import CategoryService
  import ExceptionFilter

  /** The response of the route: a page of categories, or the failure envelope. */
  datatype Outcome = Page(page: CategoryService.CategoryPage) | Failure(envelope: ExceptionFilter.Envelope)

  function FindByQuery(query: seq<Member>, roles: seq<string>, store: Query -> Response): (r: Outcome)
    requires CategoryService.PagingQuery(query)
    ensures store(CategoryService.CategoryQuery(query, roles)).error.Some? <==> r.Failure?
    ensures r.Failure? ==>
      r.envelope == ExceptionFilter.Envelope(500, false, Str("Internal server error"), Str("Error"))
  {
    match CategoryService.FindByQuery(query, roles, store)
    case Ok(page) => Page(page)
    case Err(thrown) => Failure(ExceptionFilter.Catch(ExceptionFilter.FromThrown(thrown)))
  }
}
