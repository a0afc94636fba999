/** What one bucket's `call(e)` does, as a trace of consumer invocations.

    A consumer is opaque; whether it throws is an arbitrary predicate
    `throws` of the owner and the consumer. Java's `HashMap` gives no owner
    order, so a dispatch is described relative to an enumeration `order` of
    the owners: each owner's consumers run as one contiguous block, in
    registration order. */
module Dispatch {
  import opened Events

  /** One `m.accept(ev)`: who owned the consumer, which consumer, and whether
      it threw (the throw is caught and reported; the loop goes on). */
  datatype Invocation = Invocation(owner: Owner, consumer: Consumer, threw: bool)

  /** The invocations of one owner's list, in list order. */
  function Block(o: Owner, cs: seq<Consumer>, throws: (Owner, Consumer) -> bool): seq<Invocation>
  {
    if cs == [] then []
    else Block(o, cs[..|cs| - 1], throws) + [Invocation(o, cs[|cs| - 1], throws(o, cs[|cs| - 1]))]
  }

  /** The invocations of the owners in `order`, each owner's block in turn. */
  function Flatten(m: Registrations, order: seq<Owner>, throws: (Owner, Consumer) -> bool): seq<Invocation>
  {
    if order == [] then []
    else
      var o := order[|order| - 1];
      Flatten(m, order[..|order| - 1], throws) + Block(o, Consumers(m, o), throws)
  }

  lemma BlockSnoc(o: Owner, cs: seq<Consumer>, j: nat, throws: (Owner, Consumer) -> bool)
    requires j < |cs|
    ensures Block(o, cs[..j + 1], throws) == Block(o, cs[..j], throws) + [Invocation(o, cs[j], throws(o, cs[j]))]
  {
    assert cs[..j + 1][..j] == cs[..j];
  }

  lemma FlattenSnoc(m: Registrations, order: seq<Owner>, o: Owner, throws: (Owner, Consumer) -> bool)
    ensures Flatten(m, order + [o], throws) == Flatten(m, order, throws) + Block(o, Consumers(m, o), throws)
  {
    assert (order + [o])[..|order|] == order;
  }

  /** Every invocation of a block records whether that very consumer threw. */
  lemma {:induction false} BlockReportsThrows(o: Owner, cs: seq<Consumer>, throws: (Owner, Consumer) -> bool)
    ensures forall k :: 0 <= k < |Block(o, cs, throws)| ==>
      Block(o, cs, throws)[k] == Invocation(o, Block(o, cs, throws)[k].consumer, throws(o, Block(o, cs, throws)[k].consumer))
    decreases |cs|
  {
    if cs != [] {
      BlockReportsThrows(o, cs[..|cs| - 1], throws);
    }
  }

  /** Every invocation of a dispatch records whether that very consumer
      threw: a throw is reported against the consumer that raised it. */
  lemma {:induction false} FlattenReportsThrows(m: Registrations, order: seq<Owner>, throws: (Owner, Consumer) -> bool)
    ensures forall k :: 0 <= k < |Flatten(m, order, throws)| ==>
      Flatten(m, order, throws)[k].threw == throws(Flatten(m, order, throws)[k].owner, Flatten(m, order, throws)[k].consumer)
    decreases |order|
  {
    if order != [] {
      var o := order[|order| - 1];
      FlattenReportsThrows(m, order[..|order| - 1], throws);
      BlockReportsThrows(o, Consumers(m, o), throws);
    }
  }

  /** The consumers of owner `o` that a trace invoked, in trace order. */
  function Project(trace: seq<Invocation>, o: Owner): seq<Consumer>
  {
    if trace == [] then []
    else
      var last := trace[|trace| - 1];
      Project(trace[..|trace| - 1], o) + (if last.owner == o then [last.consumer] else [])
  }

  /** The (owner, consumer) pairs of a trace, forgetting whether they threw. */
  function Calls(trace: seq<Invocation>): seq<(Owner, Consumer)>
  {
    if trace == [] then []
    else Calls(trace[..|trace| - 1]) + [(trace[|trace| - 1].owner, trace[|trace| - 1].consumer)]
  }

  /** `order` lists every key of `m` exactly once: one iteration order of a
      map's entry set. */
  ghost predicate IsEnumeration(order: seq<Owner>, m: Registrations)
  {
    Distinct(order) && forall o :: o in order <==> o in m
  }

  /** The dispatch contract: every owner's consumers were invoked exactly once
      each, in registration order, and nobody else was invoked. */
  ghost predicate IsFanOut(m: Registrations, trace: seq<Invocation>)
  {
    forall o :: Project(trace, o) == Consumers(m, o)
  }

  lemma {:induction false} ProjectConcat(a: seq<Invocation>, b: seq<Invocation>, o: Owner)
    ensures Project(a + b, o) == Project(a, o) + Project(b, o)
    decreases |b|
  {
    if b == [] {
      assert a + b == a;
    } else {
      var b' := b[..|b| - 1];
      assert (a + b)[..|a + b| - 1] == a + b';
      ProjectConcat(a, b', o);
    }
  }

  lemma {:induction false} ProjectBlock(o': Owner, cs: seq<Consumer>, throws: (Owner, Consumer) -> bool, o: Owner)
    ensures Project(Block(o', cs, throws), o) == if o == o' then cs else []
    decreases |cs|
  {
    if cs != [] {
      var cs' := cs[..|cs| - 1];
      var b := Block(o', cs, throws);
      ProjectBlock(o', cs', throws, o);
      assert b[..|b| - 1] == Block(o', cs', throws);
      if o == o' {
        assert cs == cs' + [cs[|cs| - 1]];
      }
    }
  }

  /** Flattening distinct owners projects, for each owner, to exactly its
      own list (or nothing if it was not enumerated). */
  lemma {:induction false} FlattenProject(m: Registrations, order: seq<Owner>, throws: (Owner, Consumer) -> bool, o: Owner)
    requires Distinct(order)
    ensures Project(Flatten(m, order, throws), o) == if o in order then Consumers(m, o) else []
    decreases |order|
  {
    if order != [] {
      var order' := order[..|order| - 1];
      var last := order[|order| - 1];
      FlattenProject(m, order', throws, o);
      ProjectConcat(Flatten(m, order', throws), Block(last, Consumers(m, last), throws), o);
      ProjectBlock(last, Consumers(m, last), throws, o);
      assert o in order <==> o in order' || o == last;
      if o == last {
        assert o !in order' by {
          forall i | 0 <= i < |order'| ensures order'[i] != o {
            assert order[i] != order[|order| - 1];
          }
        }
      }
    }
  }

  /** A nested loop over an enumeration of the owners is a fan-out. */
  lemma FlattenIsFanOut(m: Registrations, order: seq<Owner>, throws: (Owner, Consumer) -> bool)
    requires IsEnumeration(order, m)
    ensures IsFanOut(m, Flatten(m, order, throws))
  {
    forall o ensures Project(Flatten(m, order, throws), o) == Consumers(m, o) {
      FlattenProject(m, order, throws, o);
    }
  }

  lemma {:induction false} EmptyProjectionHasNoInvocation(trace: seq<Invocation>, o: Owner)
    requires Project(trace, o) == []
    ensures forall k :: 0 <= k < |trace| ==> trace[k].owner != o
    decreases |trace|
  {
    if trace != [] {
      var t' := trace[..|trace| - 1];
      assert |Project(t', o)| <= |Project(trace, o)|;
      EmptyProjectionHasNoInvocation(t', o);
    }
  }

  /** An owner that has no key in the bucket (for instance one just
      unregistered) is never invoked. */
  lemma AbsentOwnerIsNotInvoked(m: Registrations, trace: seq<Invocation>, o: Owner)
    requires IsFanOut(m, trace)
    requires o !in m
    ensures forall k :: 0 <= k < |trace| ==> trace[k].owner != o
  {
    assert Project(trace, o) == Consumers(m, o) == [];
    EmptyProjectionHasNoInvocation(trace, o);
  }

  lemma {:induction false} BlockCalls(o: Owner, cs: seq<Consumer>, throws1: (Owner, Consumer) -> bool, throws2: (Owner, Consumer) -> bool)
    ensures Calls(Block(o, cs, throws1)) == Calls(Block(o, cs, throws2))
    decreases |cs|
  {
    if cs != [] {
      var cs' := cs[..|cs| - 1];
      var b1, b2 := Block(o, cs, throws1), Block(o, cs, throws2);
      BlockCalls(o, cs', throws1, throws2);
      assert b1[..|b1| - 1] == Block(o, cs', throws1);
      assert b2[..|b2| - 1] == Block(o, cs', throws2);
    }
  }

  lemma {:induction false} CallsConcat(a: seq<Invocation>, b: seq<Invocation>)
    ensures Calls(a + b) == Calls(a) + Calls(b)
    decreases |b|
  {
    if b == [] {
      assert a + b == a;
    } else {
      var b' := b[..|b| - 1];
      assert (a + b)[..|a + b| - 1] == a + b';
      CallsConcat(a, b');
    }
  }

  /** Fault isolation: which consumers throw has no influence on which
      consumers are invoked, or in what order. */
  lemma {:induction false} ThrowsDoNotChangeCalls(m: Registrations, order: seq<Owner>,
                                                  throws1: (Owner, Consumer) -> bool, throws2: (Owner, Consumer) -> bool)
    ensures Calls(Flatten(m, order, throws1)) == Calls(Flatten(m, order, throws2))
    decreases |order|
  {
    if order != [] {
      var order' := order[..|order| - 1];
      var o := order[|order| - 1];
      ThrowsDoNotChangeCalls(m, order', throws1, throws2);
      BlockCalls(o, Consumers(m, o), throws1, throws2);
      CallsConcat(Flatten(m, order', throws1), Block(o, Consumers(m, o), throws1));
      CallsConcat(Flatten(m, order', throws2), Block(o, Consumers(m, o), throws2));
    }
  }
}
