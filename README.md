# swifter-stubs: request matching and stateful routing, in Dafny

This project models the engine of swifter-stubs, a library that answers HTTP requests from
declarative stubs (SwiftMocktail `.tail` records) on top of the Swifter server. It covers five
pieces:

- the directive mini-language `key=value,key=value` of the `stub-set` and `stub-only-if`
  headers (`String.asPropertyDictionary`, module `StringProperties`);
- the directive headers of a stub: the reserved names, its variables, its conditions and
  whether it has a delay (`MocktailStubHeaders`);
- the matcher `canSatisfyRequest` and its copy `canSatisfy(request:)`. Each checks the method,
  then the whole path against the pattern text before the escaped `\?`, then the literal query
  constraints after it (`MocktailRequestFulfilment`, `MocktailHttpRequest`);
- the state store `RequestAuthority`. It gates a stub on its conditions before the matcher is
  asked, and only `update` writes it (`Authority`);
- the stub register `StubRegister`: `register` appends, `remove` deletes the first stub of a
  route, and `requestHandler` answers with the first stub that accepts the request or with a
  fixed 501 (`Register`).

The foreign calls are fields of a `Platform` value (`Foundation.Platform`). These are regular
expression compilation and search, URL path and query-item parsing, and SwiftMocktail's method
equality. Every property holds for every such platform. A `fatalError` of the source (a pattern
that does not compile or cannot be read as a URL) becomes a precondition. It is required only
where the source would reach the failing call: `MayEvaluate` asks for a valid pattern only
when the method check passes. Foundation's `NSString.components(separatedBy:)` and Swifter's `split` are
defined in the model rather than left to the platform (`Foundation.Components`,
`Foundation.Split`), over strings taken as sequences of characters (see "Left out" for what that
does not capture). The partial path is defined the same way: the text before the first `\?` when
it is non-empty and holds no line terminator, otherwise the URL path of the whole pattern.

`StubRegister.swift` has no `RequestAuthority`, but its tests build `StubRegister(requestAuthority:)`
and check the writes the register makes to the authority. The search is therefore written once,
over any per-stub test (`Register.FirstAccepted`). It is instantiated twice. `RequestHandler` uses
the file's matcher. `RequestHandlerWithAuthority` puts each stub to `allowRequest` and then
writes the winner's `stub-set` variables with `update`. That second revision's code is not part
of this model; its behaviour comes from the tests.

Where the design documentation and the code disagree, the model follows the code:

- on duplicate keys in a directive, the design says the last occurrence wins. The merge closure
  `{ key, value in return key }` returns the existing value, so the FIRST occurrence wins
  (`StringProperties.PropertyDictionaryFirstWins`);
- the design says no directive header reaches a client. `StubRegister.swift` declares its own
  two-case enum, so `stub-delay` is forwarded (`Register.DelayHeaderForwarded`).

In the query constraints of a pattern, a query item without a value (`?key`) stores `nil`, which
deletes any earlier entry of that name (`MocktailRequestFulfilment.CollectLastWins`).

## Model

| member | source | states |
|---|---|---|
| Foundation.Components | swifter-stubs/Mocktail+RequestFulfilment.swift:31 | `components(separatedBy:)` gives at least one piece; gluing the pieces back with the delimiter gives the input, and no piece contains the delimiter |
| Foundation.ComponentsOfPrefix | swifter-stubs/Mocktail+RequestFulfilment.swift:31 | for a delimiter that does not overlap itself, a delimiter-free prefix before the first delimiter is the first piece and the rest is split on its own |
| Foundation.LastComponent | swifter-stubs/Mocktail+RequestFulfilment.swift:31 | the last piece is the text after the last delimiter |
| Foundation.ComponentsOfDelimitedFree | swifter-stubs/Mocktail+RequestFulfilment.swift:31 | a string without the delimiter is a single piece |
| Foundation.Split | swifter-stubs/String+Properties.swift:7-10 | Swifter's `split` gives only non-empty pieces, none containing the separator, and run together they are the input with every separator deleted |
| Foundation.LeadingSeparator | swifter-stubs/String+Properties.swift:7-8 | a separator at the start of the input adds no piece |
| Foundation.DoubledSeparator | swifter-stubs/String+Properties.swift:7-8 | two separators in a row after a piece split like one: no empty piece is produced |
| Foundation.SplitEmpty | swifter-stubs/String+Properties.swift:7-8 | splitting the empty string gives no pieces |
| Foundation.SplitOfPrefix | swifter-stubs/String+Properties.swift:7-10 | a non-empty separator-free run followed by the separator is the first piece, and the rest splits on its own |
| Foundation.SplitOfRun | swifter-stubs/String+Properties.swift:7-10 | a non-empty separator-free run is the only piece |
| StringProperties.PieceProperty | swifter-stubs/String+Properties.swift:7-17 | an empty piece gives nothing; otherwise the key is non-empty; a piece giving an empty value is its own key; a piece giving a non-empty value has no `=` in key or value |
| StringProperties.CompactProperties | swifter-stubs/String+Properties.swift:7-17 | `flatMap` keeps at most one pair per piece, and exactly the pieces' pairs in order when no piece is empty |
| StringProperties.KeepExisting | swifter-stubs/String+Properties.swift:19-21 | the merge closure returns the value already stored (no contract of its own; its effect is `KeepExistingKeepsFirst`) |
| StringProperties.UniquingKeys | swifter-stubs/String+Properties.swift:19-21 | the dictionary's keys are exactly the keys of the pairs |
| StringProperties.AsPropertyDictionary | swifter-stubs/String+Properties.swift:6-22 | no parsed key is empty |
| StringProperties.KeepExistingKeepsFirst | swifter-stubs/String+Properties.swift:19-21 | with the merge closure of the source, a key keeps the value of its first occurrence |
| StringProperties.PropertyDictionaryKeys | swifter-stubs/String+Properties.swift:7-21 | a key is in the dictionary exactly when some comma-separated piece gives it; nothing else is added |
| StringProperties.PropertyDictionaryFirstWins | swifter-stubs/String+Properties.swift:19-21 | on duplicate keys the first occurrence's value is kept |
| StringProperties.EmptyStringParsesEmpty | swifter-stubs/String+Properties.swift:7-8 | the empty string parses to the empty dictionary |
| StringProperties.PieceOfPair | swifter-stubs/String+Properties.swift:10-16 | `k=v` with `=`-free non-empty parts gives the pair `(k, v)` |
| StringProperties.PieceOfBareKey | swifter-stubs/String+Properties.swift:12-14 | a bare key gives the key with the empty value |
| StringProperties.PieceOfChainedPairs | swifter-stubs/String+Properties.swift:12-14 | `a=b=c` gives the whole piece as key with the empty value |
| StringProperties.TwoPairs | swifter-stubs/String+Properties.swift:6-22 | two well-formed pairs with different keys parse to a dictionary holding exactly those two entries |
| StringProperties.LeadingCommaIgnored | swifter-stubs/String+Properties.swift:7-8 | a directive list starting with a comma parses like the list without it |
| StringProperties.DoubledCommaIgnored | swifter-stubs/String+Properties.swift:7-8 | `a=1,,b=2` parses like `a=1,b=2`: a doubled comma after a piece is one separator |
| StringProperties.ParsesTwoVariables | swifter-stubsTests/StubRegisterTests.swift:61 | `variable1=value1,variable3=value3` parses to `{variable1: value1, variable3: value3}` |
| MocktailStubHeaders.IsStubHeader | swifter-stubs/Mocktail+StubHeaders.swift:15-17 | a header is a stub header exactly when it is the raw value of one of the enum's cases, that is `stub-only-if`, `stub-set` or `stub-delay` |
| MocktailStubHeaders.Variables | swifter-stubs/Mocktail+StubHeaders.swift:21-27 | empty without a `stub-set` header, otherwise the parse of its value |
| MocktailStubHeaders.Conditions | swifter-stubs/Mocktail+StubHeaders.swift:29-35 | empty without a `stub-only-if` header, otherwise the parse of its value |
| MocktailStubHeaders.DelayText | swifter-stubs/Mocktail+StubHeaders.swift:37-43 | there is no delay text exactly when the `stub-delay` header is absent; otherwise the delay text is that header's value (its parse as a number is not modelled) |
| MocktailStubHeaders.VariablesOfTestStub | swifter-stubsTests/StubRegisterTests.swift:49-62 | a stub whose `stub-set` is the tests' list sets exactly `variable1` and `variable3` |
| MocktailRequestFulfilment.QueryDelimiterIsBorderFree | swifter-stubs/Mocktail+RequestFulfilment.swift:31 | the delimiter `\?` does not overlap itself |
| MocktailRequestFulfilment.PartialPath | swifter-stubs/Mocktail+RequestFulfilment.swift:48-65 | the partial path is either the URL path of the whole pattern or a non-empty, single-line, `\?`-free prefix of the pattern that is followed by `\?` |
| MocktailRequestFulfilment.QueryString | swifter-stubs/Mocktail+RequestFulfilment.swift:31 | the query text is a suffix of the pattern that contains no `\?` |
| MocktailRequestFulfilment.ParamsOf | swifter-stubs/Mocktail+RequestFulfilment.swift:30-46 | no constraints when `?` plus the query text cannot be read; otherwise every constraint comes from a query item with that name and value |
| MocktailRequestFulfilment.CollectQueryItems | swifter-stubs/Mocktail+RequestFulfilment.swift:39-45 | every stored constraint comes from a query item with that name and value |
| MocktailRequestFulfilment.Params | swifter-stubs/Mocktail+RequestFulfilment.swift:30-46 | the loop over the query items of the text after the last `\?` computes the constraints; none when the items cannot be read |
| MocktailRequestFulfilment.CollectLastWins | swifter-stubs/Mocktail+RequestFulfilment.swift:41-43 | of several items with one name the last decides: its value is stored, or the name is absent when it has none |
| MocktailRequestFulfilment.CollectUnnamed | swifter-stubs/Mocktail+RequestFulfilment.swift:41-43 | a name no item carries is not a constraint |
| MocktailRequestFulfilment.MatcherChecks | swifter-stubs/Mocktail+RequestFulfilment.swift:8-26 | a different method, a path the anchored pattern does not match, or a missing or different constrained parameter each give false; the request is accepted when all three checks pass |
| MocktailRequestFulfilment.CanSatisfyRequest | swifter-stubs/Mocktail+RequestFulfilment.swift:8-26 | an accepted request has the stub's method, a path the anchored partial path matches, and every constrained parameter present |
| MocktailRequestFulfilment.ExtraParamsIgnored | swifter-stubs/Mocktail+RequestFulfilment.swift:21-23 | request parameters the stub does not constrain never change the answer |
| MocktailRequestFulfilment.MoreParamsStillMatch | swifter-stubs/Mocktail+RequestFulfilment.swift:21-25 | adding parameters to an accepted request keeps it accepted |
| MocktailRequestFulfilment.PartialPathBeforeDelimiter | swifter-stubs/Mocktail+RequestFulfilment.swift:48-58 | with a non-empty single-line prefix before the first `\?`, the partial path is that prefix |
| MocktailRequestFulfilment.PartialPathWithoutDelimiter | swifter-stubs/Mocktail+RequestFulfilment.swift:55-64 | a pattern without `\?` is read as a URL and its path is the partial path |
| MocktailRequestFulfilment.PartialPathLeadingDelimiter | swifter-stubs/Mocktail+RequestFulfilment.swift:55-64 | a pattern starting with `\?` has no captured prefix and falls back to the URL path |
| MocktailRequestFulfilment.QueryStringAfterLastDelimiter | swifter-stubs/Mocktail+RequestFulfilment.swift:31 | the query text is what follows the last `\?` |
| MocktailRequestFulfilment.QueryStringWithoutDelimiter | swifter-stubs/Mocktail+RequestFulfilment.swift:31 | without `\?` the whole pattern is the query text |
| MocktailHttpRequest.CanSatisfy | swifter-stubs/Mocktail+HttpRequest.swift:9-27 | `canSatisfy(request:)` answers as `canSatisfyRequest` on the request's method, path and parameters |
| Authority.CheckConditions | swifter-stubs/RequestAuthority.swift:11-15 | the early-return loop over the conditions succeeds exactly when the store holds every condition with its value |
| Authority.Allows | swifter-stubs/RequestAuthority.swift:10-18 | the answer of `allowRequest` for a store: every condition held with its value, then the matcher (no contract of its own; its properties are the four lemmas below) |
| Authority.RequestAuthority.constructor | swifter-stubs/RequestAuthority.swift:8 | a new authority has an empty store |
| Authority.RequestAuthority.AllowRequest | swifter-stubs/RequestAuthority.swift:10-18 | false when a condition is absent from the store or holds another value, otherwise the matcher's answer; the store is not written |
| Authority.RequestAuthority.Update | swifter-stubs/RequestAuthority.swift:20-22 | the variable takes the value and every other variable is unchanged |
| Authority.EmptyStoreRejectsConditions | swifter-stubs/RequestAuthority.swift:8-15 | a fresh store rejects every stub with a condition |
| Authority.UnmetConditionRejects | swifter-stubs/RequestAuthority.swift:11-15 | one condition missing from the store or with another value rejects |
| Authority.MetConditionsDefer | swifter-stubs/RequestAuthority.swift:17 | when every condition holds the answer is the matcher's |
| Authority.UnconditionalIgnoresStore | swifter-stubs/RequestAuthority.swift:11-17 | a stub without `stub-only-if` gets the matcher's answer whatever the store holds |
| Register.IsFilteredHeader | swifter-stubs/StubRegister.swift:9-19 | only stub headers are filtered, and `stub-delay` is not one of them |
| Register.StubResponse | swifter-stubs/StubRegister.swift:55-64 | the response has the stub's status and body; `stub-only-if` and `stub-set` are dropped, every other declared header is kept with its value, and nothing is added |
| Register.NotImplemented | swifter-stubs/StubRegister.swift:128 | the fallback answer has status 501, no headers and no body |
| Register.Satisfying | swifter-stubs/StubRegister.swift:125-127 | `flatMap` keeps exactly the stubs the test accepts |
| Register.FirstOfSatisfying | swifter-stubs/StubRegister.swift:125-127 | the first kept stub is the earliest stub the test accepts |
| Register.FirstAccepted | swifter-stubs/StubRegister.swift:125-129 | no result exactly when no stub is accepted; otherwise the earliest accepted stub |
| Register.SameRoute | swifter-stubs/StubRegister.swift:119 | the closure of `index(where:)`: same path and methods equal by SwiftMocktail's `==` (no contract of its own; used by `RemoveFirst` and its lemmas) |
| Register.RemoveFirst | swifter-stubs/StubRegister.swift:118-122 | no change when no stub has the route; otherwise one stub fewer |
| Register.RemoveFirstAt | swifter-stubs/StubRegister.swift:118-122 | the first stub of the route is the one removed, and the others keep their order |
| Register.StubRegister.constructor | swifter-stubs/StubRegister.swift:112 | a new register is empty |
| Register.StubRegister.Register | swifter-stubs/StubRegister.swift:114-116 | the stub is appended after the existing ones |
| Register.StubRegister.Remove | swifter-stubs/StubRegister.swift:118-122 | the search with `index(where:)` and the removal in place give the list without the first stub of the route |
| Register.StubRegister.RequestHandler | swifter-stubs/StubRegister.swift:124-132 | 501 when no stub matches; otherwise the response of the earliest matching stub; the list is only read |
| Register.StubRegister.AllowedStubs | swifter-stubsTests/StubRegisterTests.swift:21-47 | every stub is put to `allowRequest` in order and the allowed ones are kept, with no write |
| Register.StubRegister.RequestHandlerWithAuthority | swifter-stubsTests/StubRegisterTests.swift:21-62 | the earliest allowed stub answers and its variables are written; with no allowed stub the answer is 501 and nothing is written |
| Register.WriteVariables | swifter-stubsTests/StubRegisterTests.swift:49-62 | one `update` per variable leaves the store overridden by exactly those variables |
| Register.RegisteredLaterLosesTies | swifter-stubs/StubRegister.swift:114-129 | registering a stub never changes the answer of a request an earlier stub already takes; the new stub answers only when no earlier stub is accepted |
| Register.RemoveAbsentIsNoOp | swifter-stubs/StubRegister.swift:119 | removing a route nothing has is a no-op |
| Register.RemoveKeepsOthersInOrder | swifter-stubs/StubRegister.swift:118-122 | when some stub has the route, exactly the first such stub is removed and the others keep their order |
| Register.RegisterThenRemove | swifter-stubs/StubRegister.swift:114-122 | registering a new route and removing it restores the list |
| Register.EmptyRegisterNotImplemented | swifter-stubs/StubRegister.swift:127-128 | an empty register answers 501 with no headers and no body |
| Register.ResponseHeaders | swifter-stubs/StubRegister.swift:9-19 | a header reaches the client exactly when it was declared and is neither `stub-only-if` nor `stub-set` |
| Register.DelayHeaderForwarded | swifter-stubs/StubRegister.swift:9-19 | in this revision a `stub-delay` header is forwarded with its value |
| Register.StoreAfterFrame | swifter-stubsTests/StubRegisterTests.swift:21-34 | after a request only the winner's variables change, to their declared values; nothing changes without a winner |
| Register.SetThenGate | swifter-stubs/RequestAuthority.swift:10-22 | the order of dispatches decides a gated stub: a fresh store rejects a stub with conditions, and after a stub whose `stub-set` provides those conditions has won, the gated stub gets the matcher's answer, whatever the store held before |
| Scenarios.EmptyRegisterAnswers501 | swifter-stubsTests/SwifterStubServerTests.swift:21-30 | a fresh register answers 501 with no headers and no body |
| Scenarios.RegisterRemoveAnswers501 | swifter-stubsTests/StubRegisterTests.swift:64-73 | register then remove leaves a register that answers 501 |
| Scenarios.RegisteredStubAnswers | swifter-stubsTests/SwifterStubServerTests.swift:32-48 | a registered matching stub answers with its status and body, without directive headers |
| Scenarios.FreshAuthorityRejects | swifter-stubsTests/RequestAuthorityTests.swift:19-22 | a fresh authority rejects a stub with conditions |
| Scenarios.ConditionsSetOneByOne | swifter-stubsTests/RequestAuthorityTests.swift:24-39 | with conditions `variable1=value1,variable3=value3`, setting one variable rejects; setting both gives the matcher's answer |
| Scenarios.SoleUnconditionalStubWins | swifter-stubsTests/StubRegisterTests.swift:36-47 | a lone unconditioned stub that matches wins under an empty store |
| Scenarios.AllowedStubWritesVariables | swifter-stubsTests/StubRegisterTests.swift:36-62 | the allowed stub answers and the fresh store ends with exactly its variables |
| Scenarios.SettingStubWritesVariables | swifter-stubsTests/StubRegisterTests.swift:49-62 | the tests' setting stub leaves `{variable1: value1, variable3: value3}` in the store |
| Scenarios.RejectedStubWritesNothing | swifter-stubsTests/StubRegisterTests.swift:21-34 | a register whose only stub is rejected answers 501 and writes nothing |

## Left out

- `SwifterStubServer.swift` (server start and stop, route registration, and the older
  dictionary-based register that always answers 501) is not part of this model.
- The delayed body write of `Mocktail+HttpResponse.swift` (a `DispatchQueue` timer and a
  `Double` delay) is concurrency and floating point. The response body is the text the writer
  would write.
- Foundation.Split, Foundation.Components, MocktailRequestFulfilment.PartialPath,
  MocktailRequestFulfilment.CanSatisfyRequest, MocktailStubHeaders.Variables,
  MocktailStubHeaders.Conditions, Authority.ConditionsHold and Register.SameRoute: strings are
  sequences of characters compared one by one, and so are the keys of every dictionary lookup
  (header names, variables, conditions, query names) and the path comparison of `remove`. Swift's `Character` is a grapheme cluster and its `==` is canonical equivalence, so
  `"a,\u{301}b".split(",")` is one piece in Swift but two here. `path.count` counts
  characters while `NSMakeRange` counts UTF-16 units, so a pattern such as `"😀\\?"` makes the
  capture fail in the source but gives the partial path `"😀"` here. The model takes every such
  range to cover the whole text. Likewise two canonically equivalent but differently encoded
  header names, variable names or paths are one key or one route in Swift and two here.
- MocktailStubHeaders.DelayText: keeps only whether a `stub-delay` header is present and its
  text; `Double(_:)` parsing is not modelled.
- The UTF-8 encoding of the response body is not modelled: `String.data(using: .utf8)` never
  fails, so the body is the stub's text.
- Regular expression semantics, URL path and query-item parsing (including percent decoding),
  and SwiftMocktail's method equality are platform functions with no assumed behaviour, except
  that `RegisterThenRemove` and `RegisterRemoveAnswers501` require the method equality to be
  reflexive on the stub's method.
- Loading stubs from `.tail` files (`Mocktail(path:)`) is an external parser with file I/O.
- The `sharedRegister` singleton, thread safety and concurrent dispatch are not modelled; the
  model is sequential.
- The fileprivate matcher copy in `StubRegister.swift` (lines 34-53, 70-105) repeats
  `Mocktail+HttpRequest.swift`. It is modelled once, as `MocktailHttpRequest.CanSatisfy`.
- Register.StubRegister.RequestHandlerWithAuthority: the authority is a parameter rather than a
  constructor argument. The revision that holds it is not part of this model, so the model
  assumes it tests every stub in order as `flatMap` does, and requires every stub's check to be
  free of `fatalError`. Its answer is the shown revision's `response()` (`StubResponse`: reason
  "Stubbed response", only `stub-only-if` and `stub-set` dropped, so `stub-delay` is forwarded).
  The revision that holds an authority answers with `response(withDefaultDelay:)` of
  `Mocktail+HttpResponse.swift` instead, whose reason is "Stubbed" and whose header filter
  `shouldIgnore(header:)` is not part of this model. The headers and reason phrase stated by
  this member's contract are therefore those of the shown revision, and that revision may send
  others; only the winner, its status, its body and the variables written carry over.
- Register.StubRegister.RequestHandler: requires every registered stub to be free of the
  matcher's `fatalError`, because `flatMap` tests every stub, not only those before the winner.
