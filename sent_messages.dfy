/**
 The records a recording handler context keeps of the messages a handler sent,
 and the sequence operations (`Where`, `Any`, `Containing<T>`) that an
 expectation runs over them.
 */
module SentMessages {

  datatype Option<+T> = None | Some(value: T)

  /** The declared type of a message. A type is identified by its
      namespace-qualified `fullName`; `name` is the short name that
      `typeof(T).Name` yields, which two distinct types may share. */
  datatype MessageType = MessageType(fullName: string, name: string)

  /** Send options, reduced to what `GetDeliveryDate()` returns: an optional
      absolute delivery date, as an abstract integer timestamp. */
  datatype SendOptions = SendOptions(deliveryDate: Option<int>)

  /** One sent message as recorded by the context: its declared type, the
      message itself and the options it was sent with. */
  datatype SentRecord<M> = SentRecord(messageType: MessageType, message: M, options: SendOptions)

  /** LINQ `Where`: the elements of `s` that satisfy `p`, in their order. */
  function Where<T>(s: seq<T>, p: T -> bool): (r: seq<T>)
    ensures |r| <= |s|
    ensures forall x :: x in r ==> x in s && p(x)
    ensures forall x :: x in s && p(x) ==> x in r
  {
    if s == [] then []
    else if p(s[0]) then [s[0]] + Where(s[1..], p)
    else Where(s[1..], p)
  }

  /** LINQ `Any`: some element of `s` satisfies `p`. The predicate only has to
      be defined on the elements of `s`, as `.Value` on a filtered list is. */
  function Any<T>(s: seq<T>, p: T --> bool): (b: bool)
    requires forall x :: x in s ==> p.requires(x)
    ensures b <==> exists x :: x in s && p(x)
  {
    if s == [] then false
    else p(s[0]) || Any(s[1..], p)
  }

  /** The record is of declared message type `t`. */
  function OfType<M>(t: MessageType): SentRecord<M> -> bool
  {
    (x: SentRecord<M>) => x.messageType == t
  }

  /** `Containing<T>()`: the records whose declared message type is `t`. */
  function Containing<M>(s: seq<SentRecord<M>>, t: MessageType): (r: seq<SentRecord<M>>)
    ensures forall x :: x in r ==> x in s && x.messageType == t
    ensures forall x :: x in s && x.messageType == t ==> x in r
  {
    Where(s, OfType(t))
  }

  /** `Options.GetDeliveryDate().HasValue`. */
  predicate HasDeliveryDate<M>(x: SentRecord<M>)
  {
    x.options.deliveryDate.Some?
  }

  /** Filtering distributes over concatenation. */
  lemma {:induction false} WhereConcat<T>(s: seq<T>, t: seq<T>, p: T -> bool)
    ensures Where(s + t, p) == Where(s, p) + Where(t, p)
  {
    if s == [] {
      assert s + t == t;
    } else {
      assert (s + t)[0] == s[0];
      assert (s + t)[1..] == s[1..] + t;
      WhereConcat(s[1..], t, p);
    }
  }

  /** An element the filter rejects, inserted anywhere, leaves the filtered
      list as it was. */
  lemma {:induction false} WhereInsertRejected<T>(s: seq<T>, i: nat, x: T, p: T -> bool)
    requires i <= |s|
    requires !p(x)
    ensures Where(s[..i] + [x] + s[i..], p) == Where(s, p)
  {
    var a, b := s[..i], s[i..];
    assert Where([x], p) == [] by {
      assert [x][1..] == [];
    }
    WhereConcat(a + [x], b, p);
    WhereConcat(a, [x], p);
    assert Where(a + [x], p) == Where(a, p);
    WhereConcat(a, b, p);
    assert a + b == s;
  }

  /** An element the filter keeps, inserted anywhere, shows up in the
      filtered list between the filtered parts before and after it. */
  lemma {:induction false} WhereInsertAccepted<T>(s: seq<T>, i: nat, x: T, p: T -> bool)
    requires i <= |s|
    requires p(x)
    ensures Where(s[..i] + [x] + s[i..], p) == Where(s[..i], p) + [x] + Where(s[i..], p)
    ensures Where(s, p) == Where(s[..i], p) + Where(s[i..], p)
  {
    var a, b := s[..i], s[i..];
    assert Where([x], p) == [x] by {
      assert [x][1..] == [];
    }
    WhereConcat(a + [x], b, p);
    WhereConcat(a, [x], p);
    WhereConcat(a, b, p);
    assert a + b == s;
  }

  /** Filtering keeps every occurrence of a kept element and drops every
      occurrence of the others. */
  lemma {:induction false} WhereCount<T>(s: seq<T>, p: T -> bool, x: T)
    ensures multiset(Where(s, p))[x] == if p(x) then multiset(s)[x] else 0
  {
    if s != [] {
      assert s == [s[0]] + s[1..];
      assert multiset(s) == multiset([s[0]]) + multiset(s[1..]);
      WhereCount(s[1..], p, x);
    }
  }

  /** Filtering a permutation gives a permutation of the filtered list. */
  lemma WherePermutation<T(!new)>(s: seq<T>, s': seq<T>, p: T -> bool)
    requires multiset(s) == multiset(s')
    ensures multiset(Where(s, p)) == multiset(Where(s', p))
  {
    var a, b := multiset(Where(s, p)), multiset(Where(s', p));
    forall x
      ensures a[x] == b[x]
    {
      WhereCount(s, p, x);
      WhereCount(s', p, x);
      assert multiset(s)[x] == multiset(s')[x];
    }
    assert a == b;
  }
}
