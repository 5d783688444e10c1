/**
 * The directive headers of a stub (Mocktail+StubHeaders.swift): the reserved header
 * names, and the variables a stub sets, the conditions it requires and its delay, all
 * read from the stub's declared response headers.
 */
module MocktailStubHeaders {
  import opened Wrappers
  import opened SwiftMocktail
  import opened StringProperties

  /** The reserved directive headers. */
  datatype StubHeader = OnlyIf | Set | Delay {
    /** The header name, the enum's raw value. */
    function Header(): string
    {
      match this
      case OnlyIf => "stub-only-if"
      case Set => "stub-set"
      case Delay => "stub-delay"
    }
  }

  /**
   * `StubHeaders.isStubHeader(header:)`: membership in the list of the three raw values,
   * that is, the header is the raw value of one of the enum's cases.
   */
  predicate IsStubHeader(header: string): (isStub: bool)
    ensures isStub <==> exists h: StubHeader :: h.Header() == header
    ensures isStub <==> header == "stub-only-if" || header == "stub-set" || header == "stub-delay"
  {
    assert forall h: StubHeader :: h.Header() in [OnlyIf.Header(), Set.Header(), Delay.Header()] by {
      forall h: StubHeader ensures h.Header() in [OnlyIf.Header(), Set.Header(), Delay.Header()] {
        assert h.OnlyIf? || h.Set? || h.Delay?;
      }
    }
    header in [OnlyIf.Header(), Set.Header(), Delay.Header()]
  }

  /** `variables`: what the stub's `stub-set` header assigns; nothing when the header is absent. */
  function Variables(stub: Mocktail): (vars: map<string, string>)
    ensures Set.Header() !in stub.responseHeaders ==> vars == map[]
    ensures Set.Header() in stub.responseHeaders ==>
      vars == AsPropertyDictionary(stub.responseHeaders[Set.Header()])
  {
    if Set.Header() in stub.responseHeaders then
      AsPropertyDictionary(stub.responseHeaders[Set.Header()])
    else
      map[]
  }

  /** `conditions`: what the stub's `stub-only-if` header requires; nothing when the header is absent. */
  function Conditions(stub: Mocktail): (conds: map<string, string>)
    ensures OnlyIf.Header() !in stub.responseHeaders ==> conds == map[]
    ensures OnlyIf.Header() in stub.responseHeaders ==>
      conds == AsPropertyDictionary(stub.responseHeaders[OnlyIf.Header()])
  {
    if OnlyIf.Header() in stub.responseHeaders then
      AsPropertyDictionary(stub.responseHeaders[OnlyIf.Header()])
    else
      map[]
  }

  /**
   * `delay`, reduced to the text of the `stub-delay` header that `Double(_:)` would parse;
   * there is no delay when the header is absent.
   */
  function DelayText(stub: Mocktail): (d: Option<string>)
    ensures d.None? <==> Delay.Header() !in stub.responseHeaders
    ensures d.Some? ==> d.value == stub.responseHeaders[Delay.Header()]
  {
    if Delay.Header() in stub.responseHeaders then Some(stub.responseHeaders[Delay.Header()]) else None
  }

  /** A stub whose `stub-set` header is the tests' list sets exactly those two variables. */
  lemma VariablesOfTestStub(stub: Mocktail, k1: string, v1: string, k2: string, v2: string)
    requires k1 == "variable1" && v1 == "value1" && k2 == "variable3" && v2 == "value3"
    requires Set.Header() in stub.responseHeaders
    requires stub.responseHeaders[Set.Header()] == k1 + "=" + v1 + "," + k2 + "=" + v2
    ensures Variables(stub) == map[k1 := v1, k2 := v2]
  {
    ParsesTwoVariables(k1, v1, k2, v2);
  }
}
