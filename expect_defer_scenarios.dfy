/**
 The end-to-end deferral scenarios of the test suite, as concrete instances:
 the records each sample handler leaves in the context and the outcome of
 `ExpectNotDefer<TestMessage>` with a date check against them.
 */
module ExpectDeferScenarios {
  import opened SentMessages
  import opened ExpectDoNotDeliverBefore

  /** The `TestMessage` interface the deferral tests use. */
  const TestMessage := MessageType("NServiceBus.Testing.Tests.Handler.TestMessage", "TestMessage")

  /** A different interface of the suite that has the same short name. */
  const OuterTestMessage := MessageType("NServiceBus.Testing.Tests.TestMessage", "TestMessage")

  /** The records `EmptyHandler` leaves: it sends nothing. */
  function EmptyHandlerSent<M>(): seq<SentRecord<M>>
  {
    []
  }

  /** The records `DeferringDateTimeHandler` leaves: the incoming message,
      sent once with `DoNotDeliverBefore(defer)`. */
  function DeferringDateTimeHandlerSent<M>(message: M, defer: int): seq<SentRecord<M>>
  {
    [SentRecord(TestMessage, message, SendOptions(Some(defer)))]
  }

  /** `ExpectNotDefer<TestMessage>((m, t) => t == datetime)`. */
  function ExpectNotDeferAt<M(!new)>(datetime: int): ExpectNotDoNotDeliverBefore<M>
  {
    NewExpectNotDoNotDeliverBefore(TestMessage, Some((m: M, t: int) => t == datetime))
  }

  /** A handler that defers nothing passes the negative expectation. */
  lemma EmptyHandlerPassesExpectNotDefer<M(!new)>(datetime: int)
    ensures Validate(ExpectNotDeferAt<M>(datetime), EmptyHandlerSent()) == Pass
  {
  }

  /** Deferring the message to exactly the forbidden date fails, and the
      failure names `TestMessage`. */
  lemma DeferringHandlerFailsExpectNotDefer<M(!new)>(message: M, datetime: int)
    ensures Validate(ExpectNotDeferAt<M>(datetime), DeferringDateTimeHandlerSent(message, datetime)) == Fail("TestMessage")
  {
    var x := DeferringDateTimeHandlerSent(message, datetime)[0];
    assert Forbidden(ExpectNotDeferAt<M>(datetime), x);
  }

  /** Deferring the message to any other date passes. */
  lemma DeferringHandlerOtherDatePasses<M(!new)>(message: M, datetime: int, defer: int)
    requires defer != datetime
    ensures Validate(ExpectNotDeferAt<M>(datetime), DeferringDateTimeHandlerSent(message, defer)) == Pass
  {
  }

  /** Without a check, any deferral of `TestMessage` fails. */
  lemma DeferringHandlerFailsDefaultCheck<M(!new)>(message: M, defer: int)
    ensures Validate(NewExpectNotDoNotDeliverBefore<M>(TestMessage, None), DeferringDateTimeHandlerSent(message, defer)).Fail?
  {
    DefaultCheckFailsIffDeferred(TestMessage, DeferringDateTimeHandlerSent(message, defer));
    assert DeferringDateTimeHandlerSent(message, defer)[0] in DeferringDateTimeHandlerSent(message, defer);
  }

  /** A dated send of the other `TestMessage` interface is not a send of
      the expected one, although both have the same short name: even with
      no check, the expectation passes. */
  lemma SameNameOtherTypePasses<M(!new)>(message: M, defer: int)
    ensures Validate(NewExpectNotDoNotDeliverBefore<M>(TestMessage, None),
                     [SentRecord(OuterTestMessage, message, SendOptions(Some(defer)))]) == Pass
  {
    var sent := [SentRecord(OuterTestMessage, message, SendOptions(Some(defer)))];
    EmptyPasses(NewExpectNotDoNotDeliverBefore<M>(TestMessage, None));
    OtherTypeIgnored(NewExpectNotDoNotDeliverBefore<M>(TestMessage, None), [], 0, sent[0]);
    assert [][..0] + [sent[0]] + [][0..] == sent;
  }
}
