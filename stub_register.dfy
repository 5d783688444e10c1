/**
 * The stub register (StubRegister.swift): an ordered list of stubs, appended to by
 * `register`, shortened by `remove`, and searched in order by `requestHandler`, which
 * answers with the first stub that accepts the request or with a fixed 501.
 *
 * The search is written once over any per-stub test `accepts`. The file's own revision
 * instantiates it with the matcher `canSatisfy(request:)`; the newer revision that its
 * tests exercise instantiates it with `RequestAuthority.allowRequest` and then writes the
 * winner's `stub-set` variables into the authority.
 */
module Register {
  import opened Wrappers
  import opened Foundation
  import opened Swifter
  import opened SwiftMocktail
  import opened MocktailStubHeaders
  import opened MocktailRequestFulfilment
  import opened MocktailHttpRequest
  import opened Authority

  /**
   * The headers that the register's `response()` drops. The file declares its own enum
   * with only `stub-only-if` and `stub-set`, so `stub-delay` is passed on to the client.
   */
  predicate IsFilteredHeader(header: string): (filtered: bool)
    ensures filtered ==> IsStubHeader(header)
    ensures header == Delay.Header() ==> !filtered
  {
    header in [OnlyIf.Header(), Set.Header()]
  }

  /**
   * `response()`: the stub's status code with the reason phrase "Stubbed response", its
   * declared headers without the two directives, and its body.
   */
  function StubResponse(stub: Mocktail): (response: HttpResponse)
    ensures response.statusCode == stub.responseStatusCode
    ensures response.body == Some(stub.responseBody)
    ensures OnlyIf.Header() !in response.headers && Set.Header() !in response.headers
    ensures forall header :: header in stub.responseHeaders && !IsFilteredHeader(header) ==>
      header in response.headers && response.headers[header] == stub.responseHeaders[header]
    ensures response.headers.Keys <= stub.responseHeaders.Keys
  {
    var headers := map header | header in stub.responseHeaders && !IsFilteredHeader(header) ::
      stub.responseHeaders[header];
    Raw(stub.responseStatusCode, "Stubbed response", headers, Some(stub.responseBody))
  }

  /** `.raw(501, "Not implemented", nil, nil)`: no headers and no body writer. */
  function NotImplemented(): (response: HttpResponse)
    ensures response.statusCode == 501 && response.headers == map[] && response.body.None?
  {
    Raw(501, "Not implemented", map[], None)
  }

  /**
   * `flatMap` with an optional result: the stubs that `accepts` keeps, in their order.
   * Every stub is tested, as `flatMap` is eager.
   */
  function Satisfying(stubs: seq<Mocktail>, accepts: Mocktail --> bool): (kept: seq<Mocktail>)
    requires forall s :: s in stubs ==> accepts.requires(s)
    ensures |kept| <= |stubs|
    ensures forall s :: s in kept <==> s in stubs && accepts(s)
    decreases |stubs|
  {
    if stubs == [] then []
    else
      var prefix := stubs[..|stubs| - 1];
      var last := stubs[|stubs| - 1];
      assert forall s :: s in stubs <==> s in prefix || s == last;
      Satisfying(prefix, accepts) + (if accepts(last) then [last] else [])
  }

  /** `stubs[k]` is accepted and no stub before it is. */
  predicate FirstAcceptedAt(stubs: seq<Mocktail>, accepts: Mocktail --> bool, k: int)
    requires forall s :: s in stubs ==> accepts.requires(s)
  {
    0 <= k < |stubs| && accepts(stubs[k]) && forall j :: 0 <= j < k ==> !accepts(stubs[j])
  }

  /** The head of the kept stubs is the first stub, in order, that `accepts` keeps. */
  lemma {:induction false} FirstOfSatisfying(stubs: seq<Mocktail>, accepts: Mocktail --> bool)
    requires forall s :: s in stubs ==> accepts.requires(s)
    requires Satisfying(stubs, accepts) != []
    ensures exists k :: FirstAcceptedAt(stubs, accepts, k) && stubs[k] == Satisfying(stubs, accepts)[0]
    decreases |stubs|
  {
    var prefix := stubs[..|stubs| - 1];
    assert forall j :: 0 <= j < |prefix| ==> prefix[j] == stubs[j];
    assert forall s :: s in prefix ==> s in stubs;
    if Satisfying(prefix, accepts) == [] {
      assert FirstAcceptedAt(stubs, accepts, |stubs| - 1);
    } else {
      FirstOfSatisfying(prefix, accepts);
      var k :| FirstAcceptedAt(prefix, accepts, k) && prefix[k] == Satisfying(prefix, accepts)[0];
      assert FirstAcceptedAt(stubs, accepts, k);
    }
  }

  /** `.first` of the kept stubs: the first stub that `accepts` keeps, if any. */
  function FirstAccepted(stubs: seq<Mocktail>, accepts: Mocktail --> bool): (first: Option<Mocktail>)
    requires forall s :: s in stubs ==> accepts.requires(s)
    ensures first.None? <==> forall s :: s in stubs ==> !accepts(s)
    ensures first.Some? ==> exists k :: FirstAcceptedAt(stubs, accepts, k) && stubs[k] == first.value
  {
    var kept := Satisfying(stubs, accepts);
    if kept == [] then None
    else
      FirstOfSatisfying(stubs, accepts);
      Some(kept[0])
  }

  /** The answer for a search result: the winner's response, or 501. */
  function Respond(winner: Option<Mocktail>): HttpResponse
  {
    match winner
    case None => NotImplemented()
    case Some(stub) => StubResponse(stub)
  }

  /** The shown revision's per-stub test: the matcher on the whole request. */
  function Matches(p: Platform, request: HttpRequest): Mocktail --> bool
  {
    (s: Mocktail) requires MayEvaluate(p, s, request.httpMethod) => CanSatisfy(p, s, request)
  }

  /** The newer revision's per-stub test: the authority's answer for the request under `store`. */
  function Admits(p: Platform, store: map<string, string>, request: HttpRequest): Mocktail --> bool
  {
    (s: Mocktail) requires MayAllow(p, store, s, request.httpMethod) =>
      Allows(p, store, s, request.httpMethod, request.path, request.params)
  }

  /** The store after the winner's `stub-set` variables are written one `update` at a time. */
  function StoreAfter(store: map<string, string>, winner: Option<Mocktail>): map<string, string>
  {
    match winner
    case None => store
    case Some(stub) => store + Variables(stub)
  }

  /** Same path, and methods equal by SwiftMocktail's `==`: the closure given to `index(where:)`. */
  predicate SameRoute(p: Platform, candidate: Mocktail, stub: Mocktail)
  {
    candidate.path == stub.path && p.methodsEqual(candidate.httpMethod, stub.httpMethod)
  }

  /** `stubs[k]` is the first entry of the stub's route. */
  predicate FirstRouteAt(p: Platform, stubs: seq<Mocktail>, stub: Mocktail, k: int)
  {
    0 <= k < |stubs| && SameRoute(p, stubs[k], stub) && forall j :: 0 <= j < k ==> !SameRoute(p, stubs[j], stub)
  }

  /** The list after `remove(stub:)`: without its first entry of the stub's route, if there is one. */
  function RemoveFirst(p: Platform, stubs: seq<Mocktail>, stub: Mocktail): (rest: seq<Mocktail>)
    ensures (forall s :: s in stubs ==> !SameRoute(p, s, stub)) ==> rest == stubs
    ensures (exists s :: s in stubs && SameRoute(p, s, stub)) ==> |rest| == |stubs| - 1
    decreases |stubs|
  {
    if stubs == [] then []
    else if SameRoute(p, stubs[0], stub) then stubs[1..]
    else
      assert forall s :: s in stubs[1..] ==> s in stubs;
      [stubs[0]] + RemoveFirst(p, stubs[1..], stub)
  }

  /** The first entry of the route is the one removed; the others keep their order. */
  lemma {:induction false} RemoveFirstAt(p: Platform, stubs: seq<Mocktail>, stub: Mocktail, k: int)
    requires FirstRouteAt(p, stubs, stub, k)
    ensures RemoveFirst(p, stubs, stub) == stubs[..k] + stubs[k + 1..]
    decreases |stubs|
  {
    if k > 0 {
      var tail := stubs[1..];
      assert FirstRouteAt(p, tail, stub, k - 1) by {
        assert forall j :: 0 <= j < |tail| ==> tail[j] == stubs[j + 1];
      }
      RemoveFirstAt(p, tail, stub, k - 1);
      assert stubs[..k] + stubs[k + 1..] == [stubs[0]] + (tail[..k - 1] + tail[k..]);
    }
  }

  class StubRegister {
    /** The registered stubs, in registration order. */
    var stubs: seq<Mocktail>

    constructor ()
      ensures stubs == []
    {
      stubs := [];
    }

    /** `register(stub:)`: appends the stub. */
    method Register(stub: Mocktail)
      modifies this
      ensures stubs == old(stubs) + [stub]
    {
      stubs := stubs + [stub];
    }

    /**
     * `remove(stub:)`: finds the first entry of the stub's route with `index(where:)` and
     * removes it in place; nothing happens when there is none.
     */
    method Remove(p: Platform, stub: Mocktail)
      modifies this
      ensures stubs == RemoveFirst(p, old(stubs), stub)
    {
      var index := 0;
      while index < |stubs| && !SameRoute(p, stubs[index], stub)
        invariant 0 <= index <= |stubs|
        invariant forall j :: 0 <= j < index ==> !SameRoute(p, stubs[j], stub)
      {
        index := index + 1;
      }
      if index < |stubs| {
        RemoveFirstAt(p, stubs, stub, index);
        stubs := stubs[..index] + stubs[index + 1..];
      } else {
        assert forall s :: s in stubs ==> !SameRoute(p, s, stub);
      }
    }

    /**
     * `requestHandler(request:)` of this revision: the response of the first stub, in
     * registration order, that the matcher accepts, and 501 when none does. Every stub is
     * tested, so none may hit the matcher's `fatalError`.
     */
    function RequestHandler(p: Platform, request: HttpRequest): (response: HttpResponse)
      reads this
      requires forall s :: s in stubs ==> MayEvaluate(p, s, request.httpMethod)
      ensures (forall s :: s in stubs ==> !CanSatisfy(p, s, request)) ==> response == NotImplemented()
      ensures (exists s :: s in stubs && CanSatisfy(p, s, request)) ==>
        exists k :: 0 <= k < |stubs| && CanSatisfy(p, stubs[k], request) &&
          (forall j :: 0 <= j < k ==> !CanSatisfy(p, stubs[j], request)) &&
          response == StubResponse(stubs[k])
    {
      Respond(FirstAccepted(stubs, Matches(p, request)))
    }

    /**
     * The `flatMap` of the revision that holds a `RequestAuthority`: every stub, in order,
     * is put to `allowRequest`, and the allowed ones are kept. It changes nothing.
     */
    method AllowedStubs(p: Platform, request: HttpRequest, authority: RequestAuthority)
      returns (allowed: seq<Mocktail>)
      requires forall s :: s in stubs ==> MayAllow(p, authority.variables, s, request.httpMethod)
      ensures allowed == Satisfying(stubs, Admits(p, authority.variables, request))
    {
      allowed := [];
      for i := 0 to |stubs|
        invariant allowed == Satisfying(stubs[..i], Admits(p, authority.variables, request))
      {
        var stub := stubs[i];
        var prefix := stubs[..i + 1];
        assert prefix[..i] == stubs[..i] && prefix[i] == stub;
        assert forall s :: s in prefix ==> s in stubs;
        var ok := authority.AllowRequest(p, request.httpMethod, request.path, request.params, stub);
        if ok {
          allowed := allowed + [stub];
        }
      }
      assert stubs[..|stubs|] == stubs;
    }

    /**
     * `requestHandler(request:)` of the revision that holds a `RequestAuthority`: the first
     * stub the authority allows answers, and each of its `stub-set` variables is written
     * with `update`. Nothing is written when no stub is allowed.
     */
    method RequestHandlerWithAuthority(p: Platform, request: HttpRequest, authority: RequestAuthority)
      returns (response: HttpResponse)
      modifies authority
      requires forall s :: s in stubs ==> MayAllow(p, authority.variables, s, request.httpMethod)
      ensures response == Respond(FirstAccepted(stubs, Admits(p, old(authority.variables), request)))
      ensures authority.variables ==
        StoreAfter(old(authority.variables), FirstAccepted(stubs, Admits(p, old(authority.variables), request)))
    {
      var allowed := AllowedStubs(p, request, authority);
      if allowed == [] {
        return NotImplemented();
      }
      var winner := allowed[0];
      WriteVariables(authority, Variables(winner));
      response := StubResponse(winner);
    }
  }

  /** The loop over the winner's variables: one `update` per entry, in any order. */
  method WriteVariables(authority: RequestAuthority, variables: map<string, string>)
    modifies authority
    ensures authority.variables == old(authority.variables) + variables
  {
    var pending := variables.Keys;
    while pending != {}
      invariant pending <= variables.Keys
      invariant authority.variables ==
        old(authority.variables) + (map key | key in variables && key !in pending :: variables[key])
      decreases pending
    {
      var key :| key in pending;
      authority.Update(key, variables[key]);
      pending := pending - {key};
    }
    assert (map key | key in variables && key !in pending :: variables[key]) == variables;
  }

  /**
   * Registering never takes a request away from an earlier stub: the search over the
   * extended list finds the same winner, and the new stub wins only when no earlier
   * stub is accepted.
   */
  lemma RegisteredLaterLosesTies(stubs: seq<Mocktail>, stub: Mocktail, accepts: Mocktail --> bool)
    requires forall s :: s in stubs + [stub] ==> accepts.requires(s)
    ensures forall s :: s in stubs ==> accepts.requires(s)
    ensures FirstAccepted(stubs, accepts).Some? ==>
      FirstAccepted(stubs + [stub], accepts) == FirstAccepted(stubs, accepts)
    ensures FirstAccepted(stubs, accepts).None? ==>
      FirstAccepted(stubs + [stub], accepts) == (if accepts(stub) then Some(stub) else None)
  {
    var all := stubs + [stub];
    assert forall s :: s in stubs ==> s in all;
    assert all[..|all| - 1] == stubs && all[|all| - 1] == stub;
    assert Satisfying(all, accepts) == Satisfying(stubs, accepts) + (if accepts(stub) then [stub] else []);
  }

  /** Removing a stub whose route nothing in the list has changes nothing. */
  lemma RemoveAbsentIsNoOp(p: Platform, stubs: seq<Mocktail>, stub: Mocktail)
    requires forall s :: s in stubs ==> !SameRoute(p, s, stub)
    ensures RemoveFirst(p, stubs, stub) == stubs
  {
  }

  /** Removal takes out exactly one entry, the first of the route, and the others keep their order. */
  lemma {:induction false} RemoveKeepsOthersInOrder(p: Platform, stubs: seq<Mocktail>, stub: Mocktail)
    requires exists s :: s in stubs && SameRoute(p, s, stub)
    ensures exists k ::
      FirstRouteAt(p, stubs, stub, k) && RemoveFirst(p, stubs, stub) == stubs[..k] + stubs[k + 1..]
  {
    var k := 0;
    while !SameRoute(p, stubs[k], stub)
      invariant 0 <= k < |stubs|
      invariant forall j :: 0 <= j < k ==> !SameRoute(p, stubs[j], stub)
      invariant exists i :: k <= i < |stubs| && SameRoute(p, stubs[i], stub)
      decreases |stubs| - k
    {
      k := k + 1;
    }
    RemoveFirstAt(p, stubs, stub, k);
  }

  /**
   * Registering a stub whose route is not yet registered and then removing it restores the
   * list (the removal finds the new entry because SwiftMocktail's `==` is reflexive).
   */
  lemma {:induction false} RegisterThenRemove(p: Platform, stubs: seq<Mocktail>, stub: Mocktail)
    requires p.methodsEqual(stub.httpMethod, stub.httpMethod)
    requires forall s :: s in stubs ==> !SameRoute(p, s, stub)
    ensures RemoveFirst(p, stubs + [stub], stub) == stubs
  {
    var all := stubs + [stub];
    assert all[|stubs|] == stub;
    forall j | 0 <= j < |stubs| ensures !SameRoute(p, all[j], stub) {
      assert all[j] == stubs[j] && stubs[j] in stubs;
    }
    RemoveFirstAt(p, all, stub, |stubs|);
    assert all[..|stubs|] + all[|stubs| + 1..] == stubs;
  }

  /** An empty register answers every request with 501. */
  lemma EmptyRegisterNotImplemented(p: Platform, request: HttpRequest)
    ensures FirstAccepted([], Matches(p, request)) == None
    ensures Respond(FirstAccepted([], Matches(p, request))) == NotImplemented()
  {
  }

  /** The directives that set and gate state never reach the client; every other header does. */
  lemma ResponseHeaders(stub: Mocktail, header: string)
    ensures header in StubResponse(stub).headers <==>
      header in stub.responseHeaders && header != "stub-only-if" && header != "stub-set"
  {
  }

  /** In this revision a `stub-delay` header is passed on with its value. */
  lemma DelayHeaderForwarded(stub: Mocktail)
    requires Delay.Header() in stub.responseHeaders
    ensures Delay.Header() in StubResponse(stub).headers
    ensures StubResponse(stub).headers[Delay.Header()] == stub.responseHeaders[Delay.Header()]
  {
  }

  /**
   * The store after a request: the winner's variables take their values, every other
   * variable keeps its value, and nothing changes when no stub is allowed.
   */
  lemma StoreAfterFrame(store: map<string, string>, winner: Option<Mocktail>, key: string)
    ensures winner.None? ==> StoreAfter(store, winner) == store
    ensures winner.Some? && key in Variables(winner.value) ==>
      key in StoreAfter(store, winner) && StoreAfter(store, winner)[key] == Variables(winner.value)[key]
    ensures (winner.None? || key !in Variables(winner.value)) ==>
      (key in StoreAfter(store, winner) <==> key in store) &&
      (key in store ==> StoreAfter(store, winner)[key] == store[key])
  {
  }

  /**
   * The order of dispatches matters: a stub gated on conditions that another stub's
   * `stub-set` provides is rejected by a fresh store, and once that stub has won a request
   * the gated stub gets the matcher's answer.
   */
  lemma SetThenGate(p: Platform, store: map<string, string>, setter: Mocktail, gated: Mocktail,
                    request: HttpRequest)
    requires forall k :: k in Conditions(gated) ==>
      k in Variables(setter) && Variables(setter)[k] == Conditions(gated)[k]
    requires MayEvaluate(p, gated, request.httpMethod)
    ensures Conditions(gated) != map[] ==>
      MayAllow(p, map[], gated, request.httpMethod) &&
      !Allows(p, map[], gated, request.httpMethod, request.path, request.params)
    ensures MayAllow(p, StoreAfter(store, Some(setter)), gated, request.httpMethod)
    ensures Allows(p, StoreAfter(store, Some(setter)), gated, request.httpMethod, request.path, request.params) ==
            CanSatisfyRequest(p, gated, request.httpMethod, request.path, request.params)
  {
    if Conditions(gated) != map[] {
      EmptyStoreRejectsConditions(p, gated, request.httpMethod, request.path, request.params);
    }
  }
}
