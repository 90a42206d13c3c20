// The route table entry shared by dispatch, the trivial index and include_router.
module Routes {
  import opened Wrappers

  // Python objects appear as opaque identities.
  type Handler = nat
  type Dependency = nat
  type ResponseClass = nat

  datatype Route = Route(
    verb: string,
    path: string,
    handler: Handler,
    statusCode: Option<int>,
    tags: seq<string>,
    dependencies: seq<Dependency>,
    hasParams: bool,         // the compiled parameter plan is not empty
    hasResponseModel: bool,
    responseClass: Option<ResponseClass>,
    includeInSchema: bool,
    isAsync: bool)

  // `status_code.unwrap_or(200) as u16`: the cast keeps the low sixteen bits.
  function StatusOf(r: Route): nat {
    (if r.statusCode.Some? then r.statusCode.value else 200) % 0x10000
  }
}
