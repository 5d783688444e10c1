/**
 * The behaviours the repository's tests exercise, as client code over the model: each
 * method builds fresh objects, drives them as a test does and states the expected outcome
 * for every platform and every stub with the tests' shape.
 */
module Scenarios {
  import opened Wrappers
  import opened Foundation
  import opened Swifter
  import opened SwiftMocktail
  import opened StringProperties
  import opened MocktailStubHeaders
  import opened MocktailRequestFulfilment
  import opened Authority
  import opened Register

  /** A register with nothing in it answers 501 (the server creation test). */
  method EmptyRegisterAnswers501(p: Platform, request: HttpRequest) returns (response: HttpResponse)
    ensures response.statusCode == 501 && response.headers == map[] && response.body.None?
  {
    var register := new StubRegister();
    response := register.RequestHandler(p, request);
  }

  /** Registering a stub and removing it again leaves a register that answers 501. */
  method RegisterRemoveAnswers501(p: Platform, stub: Mocktail, request: HttpRequest)
    returns (response: HttpResponse)
    requires p.methodsEqual(stub.httpMethod, stub.httpMethod)
    ensures response == NotImplemented()
  {
    var register := new StubRegister();
    register.Register(stub);
    register.Remove(p, stub);
    RegisterThenRemove(p, [], stub);
    assert register.stubs == [];
    response := register.RequestHandler(p, request);
  }

  /** A registered stub that matches answers with its own response. */
  method RegisteredStubAnswers(p: Platform, stub: Mocktail, request: HttpRequest)
    returns (response: HttpResponse)
    requires MayEvaluate(p, stub, request.httpMethod)
    requires CanSatisfyRequest(p, stub, request.httpMethod, request.path, request.params)
    ensures response.statusCode == stub.responseStatusCode
    ensures response.body == Some(stub.responseBody)
    ensures OnlyIf.Header() !in response.headers && Set.Header() !in response.headers
  {
    var register := new StubRegister();
    register.Register(stub);
    assert register.stubs == [stub];
    response := register.RequestHandler(p, request);
  }

  /** A fresh authority rejects a stub with conditions. */
  method FreshAuthorityRejects(p: Platform, stub: Mocktail, requestMethod: string,
                               requestPath: string, requestParams: map<string, string>)
    returns (allowed: bool)
    requires Conditions(stub) != map[]
    ensures !allowed
  {
    var authority := new RequestAuthority();
    EmptyStoreRejectsConditions(p, stub, requestMethod, requestPath, requestParams);
    allowed := authority.AllowRequest(p, requestMethod, requestPath, requestParams, stub);
  }

  /**
   * With the stub's conditions `k1=v1,k2=v2`, setting only the first variable is not
   * enough; setting both hands the decision to the matcher.
   */
  method ConditionsSetOneByOne(p: Platform, stub: Mocktail, k1: string, v1: string, k2: string, v2: string,
                               requestMethod: string, requestPath: string, requestParams: map<string, string>)
    returns (partly: bool, fully: bool)
    requires k1 == "variable1" && v1 == "value1" && k2 == "variable3" && v2 == "value3"
    requires OnlyIf.Header() in stub.responseHeaders
    requires stub.responseHeaders[OnlyIf.Header()] == k1 + "=" + v1 + "," + k2 + "=" + v2
    requires MayEvaluate(p, stub, requestMethod)
    ensures !partly
    ensures fully == CanSatisfyRequest(p, stub, requestMethod, requestPath, requestParams)
  {
    ParsesTwoVariables(k1, v1, k2, v2);
    assert Conditions(stub) == map[k1 := v1, k2 := v2];
    assert k1 != k2 by { assert k1[8] != k2[8]; }
    var authority := new RequestAuthority();
    authority.Update(k1, v1);
    assert k2 in Conditions(stub) && k2 !in authority.variables;
    partly := authority.AllowRequest(p, requestMethod, requestPath, requestParams, stub);
    authority.Update(k2, v2);
    assert ConditionsHold(Conditions(stub), authority.variables);
    fully := authority.AllowRequest(p, requestMethod, requestPath, requestParams, stub);
  }

  /** A lone stub without conditions that the matcher accepts wins under an empty store. */
  lemma SoleUnconditionalStubWins(p: Platform, stub: Mocktail, request: HttpRequest)
    requires OnlyIf.Header() !in stub.responseHeaders
    requires MayEvaluate(p, stub, request.httpMethod)
    requires CanSatisfyRequest(p, stub, request.httpMethod, request.path, request.params)
    ensures MayAllow(p, map[], stub, request.httpMethod)
    ensures FirstAccepted([stub], Admits(p, map[], request)) == Some(stub)
    ensures Respond(FirstAccepted([stub], Admits(p, map[], request))) == StubResponse(stub)
    ensures StoreAfter(map[], FirstAccepted([stub], Admits(p, map[], request))) == Variables(stub)
  {
    var admits := Admits(p, map[], request);
    assert admits(stub);
    assert [stub][..0] == [];
    assert Satisfying([stub], admits) == [stub];
    assert map[] + Variables(stub) == Variables(stub);
  }

  /**
   * A register holding one stub without conditions that the matcher accepts answers with
   * that stub and leaves exactly the stub's `stub-set` variables in a fresh authority.
   */
  method AllowedStubWritesVariables(p: Platform, stub: Mocktail, request: HttpRequest)
    returns (response: HttpResponse, store: map<string, string>)
    requires OnlyIf.Header() !in stub.responseHeaders
    requires MayEvaluate(p, stub, request.httpMethod)
    requires CanSatisfyRequest(p, stub, request.httpMethod, request.path, request.params)
    ensures response == StubResponse(stub)
    ensures store == Variables(stub)
  {
    var authority := new RequestAuthority();
    var register := new StubRegister();
    register.Register(stub);
    assert register.stubs == [stub];
    SoleUnconditionalStubWins(p, stub, request);
    response := register.RequestHandlerWithAuthority(p, request, authority);
    store := authority.variables;
  }

  /** The stub of the register tests, with `stub-set: variable1=value1,variable3=value3`. */
  method SettingStubWritesVariables(p: Platform, stub: Mocktail, k1: string, v1: string, k2: string, v2: string,
                                    request: HttpRequest)
    returns (response: HttpResponse, store: map<string, string>)
    requires k1 == "variable1" && v1 == "value1" && k2 == "variable3" && v2 == "value3"
    requires Set.Header() in stub.responseHeaders
    requires stub.responseHeaders[Set.Header()] == k1 + "=" + v1 + "," + k2 + "=" + v2
    requires OnlyIf.Header() !in stub.responseHeaders
    requires MayEvaluate(p, stub, request.httpMethod)
    requires CanSatisfyRequest(p, stub, request.httpMethod, request.path, request.params)
    ensures response == StubResponse(stub)
    ensures store == map[k1 := v1, k2 := v2]
  {
    response, store := AllowedStubWritesVariables(p, stub, request);
    VariablesOfTestStub(stub, k1, v1, k2, v2);
  }

  /** A register whose only stub is not allowed answers 501 and writes nothing. */
  method RejectedStubWritesNothing(p: Platform, stub: Mocktail, request: HttpRequest)
    returns (response: HttpResponse, store: map<string, string>)
    requires Conditions(stub) != map[]
    ensures response == NotImplemented()
    ensures store == map[]
  {
    var authority := new RequestAuthority();
    var register := new StubRegister();
    register.Register(stub);
    assert register.stubs == [stub];
    EmptyStoreRejectsConditions(p, stub, request.httpMethod, request.path, request.params);
    response := register.RequestHandlerWithAuthority(p, request, authority);
    assert FirstAccepted([stub], Admits(p, map[], request)) == None;
    store := authority.variables;
  }
}
