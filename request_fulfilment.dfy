/**
 * The matcher (Mocktail+RequestFulfilment.swift): whether one stub answers a request,
 * given as its method, path and query parameters. A stub's path pattern is a regular
 * expression body, optionally followed by the escaped question mark `\?` and literal
 * query constraints (`some/path\?key=value`).
 */
module MocktailRequestFulfilment {
  import opened Wrappers
  import opened Foundation
  import opened SwiftMocktail

  /** The two characters `\` and `?` that end the path part of a pattern. */
  const QueryDelimiter: string := "\\?"

  lemma QueryDelimiterIsBorderFree()
    ensures |QueryDelimiter| == 2 && BorderFree(QueryDelimiter)
  {
    assert QueryDelimiter[..1] != QueryDelimiter[1..] by {
      assert QueryDelimiter[0] == '\\' && QueryDelimiter[1] == '?';
    }
  }

  /** The pattern `^partialPath$`: a match must cover the whole request path. */
  function Anchored(partialPath: string): string
  {
    "^" + partialPath + "$"
  }

  /** No character of `s` is a line terminator. */
  predicate SingleLine(s: string)
  {
    forall i :: 0 <= i < |s| ==> !IsLineTerminator(s[i])
  }

  /**
   * `partialPath`. The fixed expression `(((?!\\\?).)+)\\\?.*`, matched at the start of the
   * pattern, captures the text before the first `\?` when that text is not empty and holds
   * no line terminator (`.` does not match one). Otherwise the path of the whole pattern
   * read as a URL is used; `None` stands for the `fatalError` when it cannot be read.
   */
  function PartialPath(p: Platform, path: string): (partialPath: Option<string>)
    ensures partialPath == p.urlPath(path) ||
      (partialPath.Some? && |partialPath.value| > 0 && SingleLine(partialPath.value) &&
       !Contains(partialPath.value, QueryDelimiter) &&
       |partialPath.value| + |QueryDelimiter| <= |path| &&
       path[..|partialPath.value| + |QueryDelimiter|] == partialPath.value + QueryDelimiter)
  {
    var parts := Components(path, QueryDelimiter);
    if |parts| >= 2 && |parts[0]| > 0 && SingleLine(parts[0]) then
      assert path == (parts[0] + QueryDelimiter) + Join(parts[1..], QueryDelimiter);
      Some(parts[0])
    else p.urlPath(path)
  }

  /** The text after the last `\?` (the whole pattern when there is none): a suffix of the pattern without `\?`. */
  function QueryString(path: string): (queryString: string)
    ensures !Contains(queryString, QueryDelimiter)
    ensures |queryString| <= |path| && path[|path| - |queryString|..] == queryString
  {
    var parts := Components(path, QueryDelimiter);
    JoinEndsWithLast(parts, QueryDelimiter);
    Last(parts)
  }

  /**
   * The loop of `params` as a function: the items in order, each item with a value setting
   * its name, each item without one removing its name (assigning `nil` to a dictionary
   * entry deletes it). Every stored entry comes from an item with that name and value.
   */
  function CollectQueryItems(items: seq<QueryItem>): (queryParams: map<string, string>)
    ensures forall name :: name in queryParams ==>
      exists i :: 0 <= i < |items| && items[i].name == name && items[i].value == Some(queryParams[name])
    decreases |items|
  {
    if items == [] then map[]
    else
      var prefix := items[..|items| - 1];
      var queryParams := CollectQueryItems(prefix);
      var item := items[|items| - 1];
      assert forall i :: 0 <= i < |prefix| ==> prefix[i] == items[i];
      match item.value
      case None => queryParams - {item.name}
      case Some(v) => queryParams[item.name := v]
  }

  /**
   * `params`: the literal query constraints of a path pattern, read from the query items
   * of `?` followed by its query string; none when that text cannot be read as a URL.
   */
  function ParamsOf(p: Platform, path: string): (constraints: map<string, string>)
    ensures p.queryItems("?" + QueryString(path)).None? ==> constraints == map[]
    ensures p.queryItems("?" + QueryString(path)).Some? ==>
      var items := p.queryItems("?" + QueryString(path)).value;
      forall name :: name in constraints ==>
        exists i :: 0 <= i < |items| && items[i].name == name && items[i].value == Some(constraints[name])
  {
    match p.queryItems("?" + QueryString(path))
    case None => map[]
    case Some(items) => CollectQueryItems(items)
  }

  /** The loop of `params`: each item with a value sets its name, each item without one removes it. */
  method FillQueryParams(items: seq<QueryItem>) returns (queryParams: map<string, string>)
    ensures queryParams == CollectQueryItems(items)
  {
    queryParams := map[];
    for i := 0 to |items|
      invariant queryParams == CollectQueryItems(items[..i])
    {
      var item := items[i];
      assert items[..i + 1][..i] == items[..i];
      match item.value {
        case Some(value) => queryParams := queryParams[item.name := value];
        case None => queryParams := queryParams - {item.name};
      }
    }
    assert items[..|items|] == items;
  }

  /** `params`, as the source computes it: a dictionary filled in place from the query items. */
  method Params(p: Platform, path: string) returns (queryParams: map<string, string>)
    ensures queryParams == ParamsOf(p, path)
  {
    var queryStringOnly := Last(Components(path, QueryDelimiter));
    assert queryStringOnly == QueryString(path);
    var queryItems := p.queryItems("?" + queryStringOnly);
    if queryItems.None? {
      return map[];
    }
    queryParams := FillQueryParams(queryItems.value);
  }

  /** The pattern yields a partial path, and `^partialPath$` compiles: no `fatalError`. */
  predicate PatternValid(p: Platform, path: string)
  {
    var partialPath := PartialPath(p, path);
    partialPath.Some? && p.regexCompiles(Anchored(partialPath.value))
  }

  /**
   * The matcher builds the path expression only once the method agrees, so only then must
   * the pattern be valid.
   */
  predicate MayEvaluate(p: Platform, stub: Mocktail, requestMethod: string)
  {
    p.sameMethod(requestMethod, stub.httpMethod) ==> PatternValid(p, stub.path)
  }

  /** Every constrained parameter is present in the request with an equal value. */
  predicate SatisfiesConstraints(requestParams: map<string, string>, constraints: map<string, string>)
  {
    forall name :: name in constraints ==> name in requestParams && requestParams[name] == constraints[name]
  }

  /**
   * `canSatisfyRequest(forMethod:path:withParams:)`: the method, then the whole path
   * against the anchored partial path, then the query constraints.
   */
  predicate CanSatisfyRequest(p: Platform, stub: Mocktail, requestMethod: string,
                              requestPath: string, requestParams: map<string, string>): (satisfied: bool)
    requires MayEvaluate(p, stub, requestMethod)
    ensures satisfied ==> p.sameMethod(requestMethod, stub.httpMethod)
    ensures satisfied ==> p.regexFinds(Anchored(PartialPath(p, stub.path).value), requestPath)
    ensures satisfied ==> ParamsOf(p, stub.path).Keys <= requestParams.Keys
  {
    if !p.sameMethod(requestMethod, stub.httpMethod) then false
    else if !p.regexFinds(Anchored(PartialPath(p, stub.path).value), requestPath) then false
    else SatisfiesConstraints(requestParams, ParamsOf(p, stub.path))
  }

  /** Each of the three checks can reject on its own; the request is accepted when all three pass. */
  lemma MatcherChecks(p: Platform, stub: Mocktail, requestMethod: string,
                      requestPath: string, requestParams: map<string, string>)
    requires MayEvaluate(p, stub, requestMethod)
    ensures !p.sameMethod(requestMethod, stub.httpMethod) ==>
      !CanSatisfyRequest(p, stub, requestMethod, requestPath, requestParams)
    ensures p.sameMethod(requestMethod, stub.httpMethod) &&
            !p.regexFinds(Anchored(PartialPath(p, stub.path).value), requestPath) ==>
      !CanSatisfyRequest(p, stub, requestMethod, requestPath, requestParams)
    ensures forall name ::
      (name in ParamsOf(p, stub.path) &&
       (name !in requestParams || requestParams[name] != ParamsOf(p, stub.path)[name])) ==>
      !CanSatisfyRequest(p, stub, requestMethod, requestPath, requestParams)
    ensures p.sameMethod(requestMethod, stub.httpMethod) &&
            p.regexFinds(Anchored(PartialPath(p, stub.path).value), requestPath) &&
            SatisfiesConstraints(requestParams, ParamsOf(p, stub.path)) ==>
      CanSatisfyRequest(p, stub, requestMethod, requestPath, requestParams)
  {
  }

  /** Request parameters that the stub does not constrain never change the answer. */
  lemma ExtraParamsIgnored(p: Platform, stub: Mocktail, requestMethod: string, requestPath: string,
                           params1: map<string, string>, params2: map<string, string>)
    requires MayEvaluate(p, stub, requestMethod)
    requires forall name :: name in ParamsOf(p, stub.path) ==>
      (name in params1 <==> name in params2) && (name in params1 ==> params1[name] == params2[name])
    ensures CanSatisfyRequest(p, stub, requestMethod, requestPath, params1) ==
            CanSatisfyRequest(p, stub, requestMethod, requestPath, params2)
  {
  }

  /** Adding parameters to a request that a stub accepts keeps it accepted. */
  lemma MoreParamsStillMatch(p: Platform, stub: Mocktail, requestMethod: string, requestPath: string,
                             params1: map<string, string>, params2: map<string, string>)
    requires MayEvaluate(p, stub, requestMethod)
    requires params1.Keys <= params2.Keys
    requires forall name :: name in params1 ==> params2[name] == params1[name]
    requires CanSatisfyRequest(p, stub, requestMethod, requestPath, params1)
    ensures CanSatisfyRequest(p, stub, requestMethod, requestPath, params2)
  {
  }

  /** With a non-empty, single-line prefix before the first `\?`, the partial path is that prefix. */
  lemma PartialPathBeforeDelimiter(p: Platform, prefix: string, rest: string)
    requires |prefix| > 0 && SingleLine(prefix) && !Contains(prefix, QueryDelimiter)
    ensures PartialPath(p, prefix + QueryDelimiter + rest) == Some(prefix)
  {
    QueryDelimiterIsBorderFree();
    ComponentsOfPrefix(prefix, QueryDelimiter, rest);
  }

  /** A pattern without `\?` is read as a URL, and its path is the partial path. */
  lemma PartialPathWithoutDelimiter(p: Platform, path: string)
    requires !Contains(path, QueryDelimiter)
    ensures PartialPath(p, path) == p.urlPath(path)
  {
    ComponentsOfDelimitedFree(path, QueryDelimiter);
  }

  /** A pattern that starts with `\?` has an empty prefix, which the expression does not capture. */
  lemma PartialPathLeadingDelimiter(p: Platform, rest: string)
    ensures PartialPath(p, QueryDelimiter + rest) == p.urlPath(QueryDelimiter + rest)
  {
    QueryDelimiterIsBorderFree();
    ComponentsOfPrefix([], QueryDelimiter, rest);
    assert [] + QueryDelimiter + rest == QueryDelimiter + rest;
  }

  /** The query string is the text after the last `\?`, whatever comes before it. */
  lemma QueryStringAfterLastDelimiter(before: string, query: string)
    requires !Contains(query, QueryDelimiter)
    ensures QueryString(before + QueryDelimiter + query) == query
  {
    QueryDelimiterIsBorderFree();
    LastComponent(before, QueryDelimiter, query);
  }

  /** Without `\?` the whole pattern is the query string. */
  lemma QueryStringWithoutDelimiter(path: string)
    requires !Contains(path, QueryDelimiter)
    ensures QueryString(path) == path
  {
    ComponentsOfDelimitedFree(path, QueryDelimiter);
  }

  /**
   * Of the items named `items[i].name`, the last one decides: with a value it is stored,
   * without one the name is absent.
   */
  lemma {:induction false} CollectLastWins(items: seq<QueryItem>, i: nat)
    requires i < |items|
    requires forall j :: i < j < |items| ==> items[j].name != items[i].name
    ensures items[i].name in CollectQueryItems(items) <==> items[i].value.Some?
    ensures items[i].value.Some? ==> CollectQueryItems(items)[items[i].name] == items[i].value.value
    decreases |items|
  {
    if i < |items| - 1 {
      var prefix := items[..|items| - 1];
      assert prefix[i] == items[i];
      CollectLastWins(prefix, i);
    }
  }

  /** A name that no item carries is not a constraint. */
  lemma CollectUnnamed(items: seq<QueryItem>, name: string)
    requires forall i :: 0 <= i < |items| ==> items[i].name != name
    ensures name !in CollectQueryItems(items)
  {
  }
}
