/** Status codes the route handlers answer with, and how they read request fields. */
module Http {
  import opened Wrappers

  const Ok: int := 200
  const Created: int := 201
  const Found: int := 302
  const BadRequest: int := 400
  const Unauthorized: int := 401
  const NotFound: int := 404
  const InternalError: int := 500

  /** A string field of a query or JSON body passes a `!field` test only when
      it is present and non-empty. */
  predicate Given(field: Option<string>) {
    field.Some? && field.value != ""
  }
}
