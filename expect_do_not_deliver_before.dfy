/**
 The negative deferral expectation `ExpectNotDoNotDeliverBefore<TMessage>`:
 after the handler ran, the test fails if the handler sent a message of type
 `TMessage` with a delivery date for which the user's check holds.
 */
module ExpectDoNotDeliverBefore {
  import opened SentMessages

  /** The outcome of validating one expectation: it passes silently, or it
      fails with an expectation error naming the message type. */
  datatype Outcome = Pass | Fail(typeName: string)

  /** An `ExpectNotDoNotDeliverBefore<TMessage>`: the type `TMessage` and the
      check over (message, delivery date) it forbids. */
  datatype ExpectNotDoNotDeliverBefore<!M> = ExpectNotDoNotDeliverBefore(messageType: MessageType, check: (M, int) -> bool)

  /** The constructor: a missing check (`null`) becomes the check that
      holds of every message and date. */
  function NewExpectNotDoNotDeliverBefore<M(!new)>(t: MessageType, check: Option<(M, int) -> bool>): (e: ExpectNotDoNotDeliverBefore<M>)
    ensures e.messageType == t
    ensures check.Some? ==> e.check == check.value
    ensures check.None? ==> forall m, d :: e.check(m, d)
  {
    match check
    case Some(c) => ExpectNotDoNotDeliverBefore(t, c)
    case None => ExpectNotDoNotDeliverBefore(t, (m: M, d: int) => true)
  }

  /** The list `Validate` builds before checking: the sent records of type
      `t` whose options carry a delivery date. */
  function Deferred<M>(sent: seq<SentRecord<M>>, t: MessageType): (r: seq<SentRecord<M>>)
    ensures forall x :: x in r ==> x in sent && x.messageType == t && x.options.deliveryDate.Some?
    ensures forall x :: x in sent && x.messageType == t && x.options.deliveryDate.Some? ==> x in r
  {
    Where(Containing(sent, t), HasDeliveryDate)
  }

  /** A sent record the expectation forbids: of the expected type, deferred
      to a date, and accepted by the check. */
  predicate Forbidden<M>(e: ExpectNotDoNotDeliverBefore<M>, x: SentRecord<M>)
  {
    && x.messageType == e.messageType
    && x.options.deliveryDate.Some?
    && e.check(x.message, x.options.deliveryDate.value)
  }

  /** `Validate`: fails exactly when some sent record is forbidden, and the
      failure names the expected message type. */
  function Validate<M>(e: ExpectNotDoNotDeliverBefore<M>, sent: seq<SentRecord<M>>): (r: Outcome)
    ensures r.Fail? <==> exists x :: x in sent && Forbidden(e, x)
    ensures r.Fail? ==> r.typeName == e.messageType.name
  {
    var sentMessages := Deferred(sent, e.messageType);
    if Any(sentMessages, (x: SentRecord<M>) requires x.options.deliveryDate.Some? =>
             e.check(x.message, x.options.deliveryDate.value))
    then Fail(e.messageType.name)
    else Pass
  }

  /** With no check supplied, `Validate` fails exactly when some record of
      the expected type was sent with a delivery date. */
  lemma DefaultCheckFailsIffDeferred<M(!new)>(t: MessageType, sent: seq<SentRecord<M>>)
    ensures Validate(NewExpectNotDoNotDeliverBefore(t, None), sent).Fail?
        <==> exists x :: x in sent && x.messageType == t && x.options.deliveryDate.Some?
    ensures Validate(NewExpectNotDoNotDeliverBefore(t, None), sent).Fail?
        <==> Deferred(sent, t) != []
  {
    var e := NewExpectNotDoNotDeliverBefore(t, None);
    if Deferred(sent, t) != [] {
      assert Deferred(sent, t)[0] in Deferred(sent, t);
      assert Forbidden(e, Deferred(sent, t)[0]);
    }
  }

  /** An empty sent list passes, whatever the check. */
  lemma EmptyPasses<M>(e: ExpectNotDoNotDeliverBefore<M>)
    ensures Validate(e, []) == Pass
  {
  }

  /** A record of another message type, inserted anywhere, does not even
      reach the list the check is applied to, so the outcome is unchanged. */
  lemma {:induction false} OtherTypeIgnored<M>(e: ExpectNotDoNotDeliverBefore<M>, sent: seq<SentRecord<M>>, i: nat, x: SentRecord<M>)
    requires i <= |sent|
    requires x.messageType != e.messageType
    ensures Containing(sent[..i] + [x] + sent[i..], e.messageType) == Containing(sent, e.messageType)
    ensures Validate(e, sent[..i] + [x] + sent[i..]) == Validate(e, sent)
  {
    WhereInsertRejected(sent, i, x, OfType(e.messageType));
  }

  /** A record of the expected type without a delivery date, inserted
      anywhere, is dropped before the check runs, so the check is never
      applied to it and the outcome is unchanged. */
  lemma {:induction false} UndatedIgnored<M>(e: ExpectNotDoNotDeliverBefore<M>, sent: seq<SentRecord<M>>, i: nat, x: SentRecord<M>)
    requires i <= |sent|
    requires x.options.deliveryDate.None?
    ensures Deferred(sent[..i] + [x] + sent[i..], e.messageType) == Deferred(sent, e.messageType)
    ensures Validate(e, sent[..i] + [x] + sent[i..]) == Validate(e, sent)
  {
    var t := e.messageType;
    var with := sent[..i] + [x] + sent[i..];
    if x.messageType == t {
      WhereInsertAccepted(sent, i, x, OfType(t));
      var c1, c2 := Containing(sent[..i], t), Containing(sent[i..], t);
      var c := c1 + c2;
      assert c == Containing(sent, t);
      assert Containing(with, t) == c[..|c1|] + [x] + c[|c1|..] by {
        assert c[..|c1|] == c1 && c[|c1|..] == c2;
      }
      WhereInsertRejected(c, |c1|, x, HasDeliveryDate);
      assert Deferred(with, t) == Deferred(sent, t);
    } else {
      WhereInsertRejected(sent, i, x, OfType(t));
    }
  }

  /** The outcome depends on the check only through its values at the
      deferred records of the expected type. */
  lemma CheckOnlyOnDeferred<M>(e: ExpectNotDoNotDeliverBefore<M>, e': ExpectNotDoNotDeliverBefore<M>, sent: seq<SentRecord<M>>)
    requires e.messageType == e'.messageType
    requires forall x :: x in Deferred(sent, e.messageType) ==>
               e.check(x.message, x.options.deliveryDate.value) == e'.check(x.message, x.options.deliveryDate.value)
    ensures Validate(e, sent) == Validate(e', sent)
  {
    forall x | x in sent
      ensures Forbidden(e, x) <==> Forbidden(e', x)
    {
      if x.messageType == e.messageType && x.options.deliveryDate.Some? {
        assert x in Deferred(sent, e.messageType);
      }
    }
  }

  /** Reordering the sent records permutes the checked list and leaves the
      outcome unchanged. */
  lemma PermutationInvariant<M(!new)>(e: ExpectNotDoNotDeliverBefore<M>, sent: seq<SentRecord<M>>, sent': seq<SentRecord<M>>)
    requires multiset(sent) == multiset(sent')
    ensures multiset(Deferred(sent, e.messageType)) == multiset(Deferred(sent', e.messageType))
    ensures Validate(e, sent) == Validate(e, sent')
  {
    var t := e.messageType;
    WherePermutation(sent, sent', OfType(t));
    WherePermutation(Containing(sent, t), Containing(sent', t), HasDeliveryDate);
    forall x
      ensures x in sent <==> x in sent'
    {
      assert x in sent <==> x in multiset(sent);
      assert x in sent' <==> x in multiset(sent');
    }
  }

  /** Appending records to either end of the list fails exactly when one
      of the two parts fails: a failing list keeps failing when it grows. */
  lemma ConcatFails<M>(e: ExpectNotDoNotDeliverBefore<M>, sent: seq<SentRecord<M>>, more: seq<SentRecord<M>>)
    ensures Validate(e, sent + more).Fail? <==> Validate(e, sent).Fail? || Validate(e, more).Fail?
    ensures Validate(e, sent + more) == Validate(e, more + sent)
  {
  }

  /** Keeping only some of the records (as a sub-multiset) of a passing
      list passes too; a failing sub-list makes the whole list fail. */
  lemma SubListMonotone<M(!new)>(e: ExpectNotDoNotDeliverBefore<M>, sub: seq<SentRecord<M>>, sent: seq<SentRecord<M>>)
    requires multiset(sub) <= multiset(sent)
    ensures Validate(e, sent) == Pass ==> Validate(e, sub) == Pass
    ensures Validate(e, sub).Fail? ==> Validate(e, sent) == Validate(e, sub)
  {
    forall x | x in sub
      ensures x in sent
    {
      assert x in multiset(sub);
    }
  }
}
