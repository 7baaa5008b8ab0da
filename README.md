# ExpectNotDoNotDeliverBefore — a verified model

NServiceBus.Testing lets a test run a message handler against a recording
context and then check expectations against the operations the handler
performed. This project models one of those expectations,
`ExpectNotDoNotDeliverBefore<TMessage>`. It is the negative deferral check
behind `ExpectNotDefer<TMessage>((m, date) => …)`.

Once the handler has run, `Validate` does three things:

1. It takes the context's sent messages of type `TMessage` (`Containing<TMessage>()`).
2. It keeps the ones whose send options carry a delivery date.
3. It fails with an expectation error naming `TMessage` if the user's check holds for any remaining (message, delivery date) pair.

If no check is supplied, the constructor uses a check that always holds.

Modules:

- `SentMessages` (`sent_messages.dfy`): the sent-message record. It has a declared message type, the message, and send options reduced to the optional delivery date. A type is identified by its namespace-qualified name; its short name is what a failure reports. The module also holds the LINQ steps the expectation uses: `Where`, `Any` and `Containing<T>`, plus lemmas about filtering (concatenation, insertion of a rejected element, counts, permutations).
- `ExpectDoNotDeliverBefore` (`expect_do_not_deliver_before.dfy`): the expectation, its constructor, `Validate`, and the properties proved about it.
- `ExpectDeferScenarios` (`expect_defer_scenarios.dfy`): the suite's `ExpectNotDefer` scenarios as concrete lemmas. They use the record lists that `EmptyHandler` and `DeferringDateTimeHandler` leave behind.

`Validate` has a reference definition: a record is `Forbidden` when it has the expected type, carries a delivery date, and the check accepts it. `Validate` fails exactly when some sent record is forbidden. All the other properties follow from that: order does not matter, records of other types and records without a date are ignored, and so on.

`Validate` is a function of the recorded list. So validating twice against the same list gives the same outcome by construction, and the context is never changed.

## Model

| member | source | states |
|---|---|---|
| `SentMessages.Where` | src/NServiceBus.Testing/ExpectedInvocations/ExpectDoNotDeliverBefore.cs:17 | the result keeps exactly the elements of the input that satisfy the predicate, and is no longer than the input |
| `SentMessages.Any` | src/NServiceBus.Testing/ExpectedInvocations/ExpectDoNotDeliverBefore.cs:20 | true exactly when some element satisfies the predicate; the predicate only has to be defined on the list's elements |
| `SentMessages.Containing` | src/NServiceBus.Testing/ExpectedInvocations/ExpectDoNotDeliverBefore.cs:16 | keeps exactly the records whose declared message type is the given one |
| `ExpectDoNotDeliverBefore.NewExpectNotDoNotDeliverBefore` | src/NServiceBus.Testing/ExpectedInvocations/ExpectDoNotDeliverBefore.cs:8-11 | the expectation targets the given type, uses the supplied check when there is one, and otherwise a check that accepts every message and every date |
| `ExpectDoNotDeliverBefore.Deferred` | src/NServiceBus.Testing/ExpectedInvocations/ExpectDoNotDeliverBefore.cs:15-18 | the list built before checking holds exactly the sent records of the expected type that carry a delivery date |
| `ExpectDoNotDeliverBefore.Validate` | src/NServiceBus.Testing/ExpectedInvocations/ExpectDoNotDeliverBefore.cs:13-24 | fails iff some sent record has the expected type and a delivery date `d` with `check(message, d)`; otherwise passes; a failure names the expected type |
| `ExpectDoNotDeliverBefore.DefaultCheckFailsIffDeferred` | src/NServiceBus.Testing/ExpectedInvocations/ExpectDoNotDeliverBefore.cs:10-22 | with no check, fails iff some record of the expected type was sent with a delivery date, that is, iff the filtered list is non-empty |
| `ExpectDoNotDeliverBefore.EmptyPasses` | src/NServiceBus.Testing/ExpectedInvocations/ExpectDoNotDeliverBefore.cs:15-20 | an empty sent list passes for every check |
| `ExpectDoNotDeliverBefore.OtherTypeIgnored` | src/NServiceBus.Testing/ExpectedInvocations/ExpectDoNotDeliverBefore.cs:16 | inserting a record of another type anywhere leaves the `Containing` list, and so the outcome, unchanged |
| `ExpectDoNotDeliverBefore.UndatedIgnored` | src/NServiceBus.Testing/ExpectedInvocations/ExpectDoNotDeliverBefore.cs:17-20 | inserting a record without a delivery date anywhere leaves the checked list, and so the outcome, unchanged |
| `ExpectDoNotDeliverBefore.CheckOnlyOnDeferred` | src/NServiceBus.Testing/ExpectedInvocations/ExpectDoNotDeliverBefore.cs:17-20 | two checks that agree on the deferred records of the expected type give the same outcome, so the check's value anywhere else never matters |
| `ExpectDoNotDeliverBefore.PermutationInvariant` | src/NServiceBus.Testing/ExpectedInvocations/ExpectDoNotDeliverBefore.cs:15-20 | a permutation of the sent list permutes the checked list and gives the same outcome |
| `ExpectDoNotDeliverBefore.ConcatFails` | src/NServiceBus.Testing/ExpectedInvocations/ExpectDoNotDeliverBefore.cs:20-22 | a concatenation fails iff one of its parts fails, and its outcome does not depend on the order of the parts |
| `ExpectDoNotDeliverBefore.SubListMonotone` | src/NServiceBus.Testing/ExpectedInvocations/ExpectDoNotDeliverBefore.cs:20-22 | a sub-multiset of a passing list passes, and a failing sub-multiset makes the whole list fail with the same error |
| `ExpectDeferScenarios.EmptyHandlerPassesExpectNotDefer` | src/NServiceBus.Testing.Tests/Handler/ExpectDeferTests.cs:57-64 | a handler that sends nothing passes `ExpectNotDefer<TestMessage>((m, t) => t == datetime)` |
| `ExpectDeferScenarios.DeferringHandlerFailsExpectNotDefer` | src/NServiceBus.Testing.Tests/Handler/ExpectDeferTests.cs:76-97 | a handler that sends the message with `DoNotDeliverBefore(datetime)` fails that expectation, with an error naming `TestMessage` |
| `ExpectDeferScenarios.DeferringHandlerOtherDatePasses` | src/NServiceBus.Testing/ExpectedInvocations/ExpectDoNotDeliverBefore.cs:20 | deferring to a date the check rejects passes |
| `ExpectDeferScenarios.SameNameOtherTypePasses` | src/NServiceBus.Testing/ExpectedInvocations/ExpectDoNotDeliverBefore.cs:16 | a dated send of `NServiceBus.Testing.Tests.TestMessage` passes the default-check expectation for `NServiceBus.Testing.Tests.Handler.TestMessage`, although both types have the short name `TestMessage` |
| `ExpectDeferScenarios.DeferringHandlerFailsDefaultCheck` | src/NServiceBus.Testing/ExpectedInvocations/ExpectDoNotDeliverBefore.cs:10-22 | with no check, any deferred `TestMessage` fails |

## Left out

- `Containing<T>()` is modelled as equality of the declared message type. A type is identified by its namespace-qualified name; the short name is kept separately, only for the failure. The real runtime type test, and any matching of subtypes or interfaces it may do, are not part of this model.
- `GetDeliveryDate()` is modelled as an optional field of the send options. Which send-option calls set it is not shown and not modelled.
- Dates are abstract integers. The conversion from `DateTimeOffset` to `DateTime` (`.Value.DateTime`) is taken as the identity, so any offset handling is not captured.
- The failure text is reduced to the type name it carries (`typeof(TMessage).Name`). The rest of the wording is not modelled. `Fail` throwing an `ExpectationException` is modelled as the `Fail` outcome.
- The user's check is a total, pure function. A check that throws, or one with side effects, is not modelled.
- Evaluation order and short-circuiting of `Any` are not observable for a pure check, so the model does not state them.
- The recording context, the runner (`Test.Handler`, `OnMessage`, `WithExternalDependencies`), the other expectations, async completion and concurrent sends in handlers are not part of this model. The deferral tests appear only as concrete record lists.
- The `TimeSpan` variants of the deferral tests (`ExpectDeferTests.cs:48-55`, `66-74`) use a delay-based expectation that is not part of this model.
