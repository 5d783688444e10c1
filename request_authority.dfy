/**
 * The state store (RequestAuthority.swift): a mutable map from variable names to values.
 * A stub's `stub-only-if` conditions are checked against it before the matcher is asked;
 * only `update` writes it.
 */
module Authority {
  import opened Foundation
  import opened SwiftMocktail
  import opened MocktailStubHeaders
  import opened MocktailRequestFulfilment

  /** Every condition names a variable that the store holds with exactly the required value. */
  predicate ConditionsHold(conditions: map<string, string>, store: map<string, string>)
  {
    forall key :: key in conditions ==> key in store && store[key] == conditions[key]
  }

  /** The matcher is asked only once the conditions hold, so only then must it be able to run. */
  predicate MayAllow(p: Platform, store: map<string, string>, stub: Mocktail, requestMethod: string)
  {
    ConditionsHold(Conditions(stub), store) ==> MayEvaluate(p, stub, requestMethod)
  }

  /** The answer of `allowRequest` for a given store. */
  predicate Allows(p: Platform, store: map<string, string>, stub: Mocktail, requestMethod: string,
                   requestPath: string, requestParams: map<string, string>)
    requires MayAllow(p, store, stub, requestMethod)
  {
    ConditionsHold(Conditions(stub), store) &&
    CanSatisfyRequest(p, stub, requestMethod, requestPath, requestParams)
  }

  /**
   * The loop of `allowRequest` over the conditions: it stops at the first condition the
   * store does not hold with the required value.
   */
  method CheckConditions(conditions: map<string, string>, store: map<string, string>) returns (met: bool)
    ensures met == ConditionsHold(conditions, store)
  {
    var pending := conditions.Keys;
    while pending != {}
      invariant pending <= conditions.Keys
      invariant forall key :: key in conditions && key !in pending ==>
        key in store && store[key] == conditions[key]
      decreases pending
    {
      var key :| key in pending;
      if !(key in store && store[key] == conditions[key]) {
        return false;
      }
      pending := pending - {key};
    }
    return true;
  }

  class RequestAuthority {
    /** The store, empty when the authority is created. */
    var variables: map<string, string>

    constructor ()
      ensures variables == map[]
    {
      variables := map[];
    }

    /**
     * `allowRequest(forMethod:path:withParams:withStub:)`: false at the first condition the
     * store does not meet, otherwise the matcher's answer. It reads the store and changes
     * nothing.
     */
    method AllowRequest(p: Platform, requestMethod: string, requestPath: string,
                        requestParams: map<string, string>, stub: Mocktail) returns (allowed: bool)
      requires MayAllow(p, variables, stub, requestMethod)
      ensures allowed == Allows(p, variables, stub, requestMethod, requestPath, requestParams)
    {
      var met := CheckConditions(Conditions(stub), variables);
      if !met {
        return false;
      }
      allowed := CanSatisfyRequest(p, stub, requestMethod, requestPath, requestParams);
    }

    /** `update(variable:withValue:)`: sets one variable and leaves every other one as it was. */
    method Update(variable: string, value: string)
      modifies this
      ensures variables == old(variables)[variable := value]
      ensures forall key :: key != variable ==>
        (key in variables <==> key in old(variables)) &&
        (key in variables ==> variables[key] == old(variables)[key])
    {
      variables := variables[variable := value];
    }
  }

  /** An empty store rejects every stub that has a condition. */
  lemma EmptyStoreRejectsConditions(p: Platform, stub: Mocktail, requestMethod: string,
                                    requestPath: string, requestParams: map<string, string>)
    requires Conditions(stub) != map[]
    ensures MayAllow(p, map[], stub, requestMethod)
    ensures !Allows(p, map[], stub, requestMethod, requestPath, requestParams)
  {
    var key :| key in Conditions(stub);
  }

  /** One condition the store does not meet, by absence or by value, is enough to reject. */
  lemma UnmetConditionRejects(p: Platform, store: map<string, string>, stub: Mocktail, key: string,
                              requestMethod: string, requestPath: string, requestParams: map<string, string>)
    requires key in Conditions(stub)
    requires key !in store || store[key] != Conditions(stub)[key]
    ensures MayAllow(p, store, stub, requestMethod)
    ensures !Allows(p, store, stub, requestMethod, requestPath, requestParams)
  {
  }

  /** When every condition holds, the answer is the matcher's. */
  lemma MetConditionsDefer(p: Platform, store: map<string, string>, stub: Mocktail,
                           requestMethod: string, requestPath: string, requestParams: map<string, string>)
    requires ConditionsHold(Conditions(stub), store)
    requires MayEvaluate(p, stub, requestMethod)
    ensures Allows(p, store, stub, requestMethod, requestPath, requestParams) ==
            CanSatisfyRequest(p, stub, requestMethod, requestPath, requestParams)
  {
  }

  /** A stub without a `stub-only-if` header gets the matcher's answer, whatever the store holds. */
  lemma UnconditionalIgnoresStore(p: Platform, store: map<string, string>, stub: Mocktail,
                                  requestMethod: string, requestPath: string, requestParams: map<string, string>)
    requires OnlyIf.Header() !in stub.responseHeaders
    requires MayEvaluate(p, stub, requestMethod)
    ensures MayAllow(p, store, stub, requestMethod)
    ensures Allows(p, store, stub, requestMethod, requestPath, requestParams) ==
            CanSatisfyRequest(p, stub, requestMethod, requestPath, requestParams)
  {
  }
}
