/**
 * What the parser asks of its collaborators while it handles one piece of
 * a template: the view helper resolver, the parsing state's node stack and
 * the parser configuration's interceptors. A handler returns the calls it
 * made, in order, next to its result, so that "asked once", "never fetched"
 * and "never popped" are statements about that list.
 */
module Calls {

  /** Where in the parse an interceptor is consulted. */
  datatype InterceptionPoint =
    | OpeningViewHelperPoint
    | ClosingViewHelperPoint
    | TextPoint
    | ObjectAccessorPoint

  /** A registered interceptor; what it does is the configuration's `process`. */
  datatype Interceptor = Interceptor(id: nat)

  datatype Call =
    | IsNamespaceIgnored(namespace: string)
    | IsNamespaceValid(namespace: string)
    | ResolveViewHelperClassName(namespace: string, name: string)
    | PushNode
    | PopNode
    | PeekNode
    | GetInterceptors(point: InterceptionPoint)
    | GetEscapingInterceptors(point: InterceptionPoint)
    | Process(interceptor: Interceptor, point: InterceptionPoint)

  /** How often `c` was made. */
  function Count(calls: seq<Call>, c: Call): nat {
    multiset(calls)[c]
  }

  /** Counts add up over concatenation. */
  lemma CountConcat(a: seq<Call>, b: seq<Call>, c: Call)
    ensures Count(a + b, c) == Count(a, c) + Count(b, c)
  {
    assert multiset(a + b) == multiset(a) + multiset(b);
  }

  predicate IsStackCall(c: Call) {
    c.PushNode? || c.PopNode? || c.PeekNode?
  }

  /** The calls on the node stack, in the order they were made. */
  function StackCalls(calls: seq<Call>): seq<Call>
    decreases |calls|
  {
    if calls == [] then []
    else
      var last := calls[|calls| - 1];
      StackCalls(calls[..|calls| - 1]) + (if IsStackCall(last) then [last] else [])
  }

  lemma {:induction false} StackCallsConcat(a: seq<Call>, b: seq<Call>)
    ensures StackCalls(a + b) == StackCalls(a) + StackCalls(b)
    decreases |b|
  {
    if b == [] {
      assert a + b == a;
    } else {
      var n := |b| - 1;
      assert (a + b)[..|a + b| - 1] == a + b[..n];
      StackCallsConcat(a, b[..n]);
    }
  }

  /** Calls that are not about the stack leave no trace on it. */
  lemma {:induction false} NoStackCalls(calls: seq<Call>)
    requires forall i :: 0 <= i < |calls| ==> !IsStackCall(calls[i])
    ensures StackCalls(calls) == []
    decreases |calls|
  {
    if calls != [] {
      NoStackCalls(calls[..|calls| - 1]);
    }
  }

  /** A stack call on its own. */
  lemma OneStackCall(c: Call)
    requires IsStackCall(c)
    ensures StackCalls([c]) == [c]
  {
    assert [c][..0] == [];
  }

  /** Calls that touch no stack, one push, then a pop and a peek: the stack sees those three in order. */
  lemma PushThenPopAndPeek(asked: seq<Call>, pushing: seq<Call>, closing: seq<Call>)
    requires StackCalls(asked) == [] && StackCalls(pushing) == [PushNode] && StackCalls(closing) == [PopNode, PeekNode]
    ensures StackCalls(asked + pushing + closing) == [PushNode, PopNode, PeekNode]
  {
    StackCallsConcat(asked, pushing);
    StackCallsConcat(asked + pushing, closing);
  }
}
