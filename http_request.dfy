/**
 * `canSatisfy(request:)` (Mocktail+HttpRequest.swift): the same matcher as
 * `canSatisfyRequest`, written a second time against Swifter's request record. Its
 * private `partialPath` and `params` are the same as the other copy's and are shared.
 */
module MocktailHttpRequest {
  import opened Foundation
  import opened Swifter
  import opened SwiftMocktail
  import opened MocktailRequestFulfilment

  /**
   * `canSatisfy(request:)`: the method, then the whole path, then the query constraints.
   * It gives the same answer as `canSatisfyRequest` on the request's method, path and
   * parameters.
   */
  predicate CanSatisfy(p: Platform, stub: Mocktail, request: HttpRequest): (satisfied: bool)
    requires MayEvaluate(p, stub, request.httpMethod)
    ensures satisfied == CanSatisfyRequest(p, stub, request.httpMethod, request.path, request.params)
  {
    if !p.sameMethod(request.httpMethod, stub.httpMethod) then false
    else if !p.regexFinds(Anchored(PartialPath(p, stub.path).value), request.path) then false
    else forall name :: name in ParamsOf(p, stub.path) ==>
      name in request.params && request.params[name] == ParamsOf(p, stub.path)[name]
  }
}
