/**
 * The interceptor pipeline. The parser configuration registers, per
 * interception point, general interceptors and escaping interceptors; a
 * freshly built node is passed through the general ones and, when escaping
 * is enabled, then through the escaping ones. Each interceptor may return a
 * different node, which replaces the one it was given. Without a
 * configuration nothing is consulted.
 */
module Interceptors {
  import opened Wrappers
  import opened Nodes
  import opened Calls

  datatype Configuration = Configuration(
    interceptors: InterceptionPoint -> seq<Interceptor>,
    escapingInterceptors: InterceptionPoint -> seq<Interceptor>,
    process: (Interceptor, Node, InterceptionPoint) -> Node)

  /** The node after each of `xs`, in order, has processed it. */
  function Pipe(node: Node, point: InterceptionPoint, xs: seq<Interceptor>,
                process: (Interceptor, Node, InterceptionPoint) -> Node): Node
    decreases |xs|
  {
    if xs == [] then node else Pipe(process(xs[0], node, point), point, xs[1..], process)
  }

  /** Running two lists one after the other is running their concatenation. */
  lemma {:induction false} PipeConcat(node: Node, point: InterceptionPoint, xs: seq<Interceptor>, ys: seq<Interceptor>,
                                      process: (Interceptor, Node, InterceptionPoint) -> Node)
    ensures Pipe(Pipe(node, point, xs, process), point, ys, process) == Pipe(node, point, xs + ys, process)
    decreases |xs|
  {
    if xs != [] {
      var next := process(xs[0], node, point);
      assert (xs + ys)[0] == xs[0] && (xs + ys)[1..] == xs[1..] + ys;
      assert Pipe(node, point, xs, process) == Pipe(next, point, xs[1..], process);
      assert Pipe(node, point, xs + ys, process) == Pipe(next, point, xs[1..] + ys, process);
      PipeConcat(next, point, xs[1..], ys, process);
    } else {
      assert xs + ys == ys;
    }
  }

  /** Interceptors that hand back the node they were given leave it as it is. */
  lemma {:induction false} PipeIdentity(node: Node, point: InterceptionPoint, xs: seq<Interceptor>,
                                        process: (Interceptor, Node, InterceptionPoint) -> Node)
    requires forall i :: 0 <= i < |xs| ==> process(xs[i], node, point) == node
    ensures Pipe(node, point, xs, process) == node
    decreases |xs|
  {
    if xs != [] {
      assert forall i :: 0 <= i < |xs[1..]| ==> xs[1..][i] == xs[i + 1];
      PipeIdentity(node, point, xs[1..], process);
    }
  }

  /** One `process` call per interceptor, in order. */
  function ProcessCalls(point: InterceptionPoint, xs: seq<Interceptor>): (r: seq<Call>)
    ensures |r| == |xs|
    ensures forall i :: 0 <= i < |xs| ==> r[i] == Process(xs[i], point)
  {
    seq(|xs|, i requires 0 <= i < |xs| => Process(xs[i], point))
  }

  /** Each interceptor is asked to process as often as it is registered. */
  lemma {:induction false} ProcessCallsCount(point: InterceptionPoint, xs: seq<Interceptor>, x: Interceptor)
    ensures Count(ProcessCalls(point, xs), Process(x, point)) == multiset(xs)[x]
    ensures forall c :: c in ProcessCalls(point, xs) ==> c.Process? && c.point == point
    decreases |xs|
  {
    if xs != [] {
      var n := |xs| - 1;
      ProcessCallsCount(point, xs[..n], x);
      assert ProcessCalls(point, xs) == ProcessCalls(point, xs[..n]) + [Process(xs[n], point)];
      assert xs == xs[..n] + [xs[n]];
    }
  }

  datatype Intercepted = Intercepted(node: Node, calls: seq<Call>)

  /** Calls about the interceptors of `point` only. */
  predicate InterceptorCalls(calls: seq<Call>, point: InterceptionPoint) {
    forall c :: c in calls ==> (c.GetInterceptors? || c.GetEscapingInterceptors? || c.Process?) && c.point == point
  }

  /** Interceptor calls leave no trace on the node stack. */
  lemma InterceptorCallsSkipStack(calls: seq<Call>, point: InterceptionPoint)
    requires InterceptorCalls(calls, point)
    ensures StackCalls(calls) == []
  {
    assert forall i :: 0 <= i < |calls| ==> calls[i] in calls;
    NoStackCalls(calls);
  }

  /** A stack call, interceptor calls, another stack call: the stack sees the two. */
  lemma StackAround(before: Call, calls: seq<Call>, point: InterceptionPoint, after: Call)
    requires IsStackCall(before) && InterceptorCalls(calls, point) && IsStackCall(after)
    ensures StackCalls([before] + (calls + [after])) == [before, after]
  {
    InterceptorCallsSkipStack(calls, point);
    StackCallsConcat(calls, [after]);
    OneStackCall(after);
    OneStackCall(before);
    StackCallsConcat([before], calls + [after]);
  }

  /**
   * `callInterceptor`: fetches the point's general interceptors and runs
   * them, then, only when escaping is enabled, fetches the point's escaping
   * interceptors and runs them on the result.
   */
  function CallInterceptor(configuration: Option<Configuration>, escapingEnabled: bool, node: Node,
                           point: InterceptionPoint): (r: Intercepted)
    ensures configuration.None? ==> r == Intercepted(node, [])
    ensures InterceptorCalls(r.calls, point)
  {
    match configuration
    case None => Intercepted(node, [])
    case Some(c) =>
      var general := c.interceptors(point);
      var escaping := c.escapingInterceptors(point);
      ProcessCallsCount(point, general, Interceptor(0));
      ProcessCallsCount(point, escaping, Interceptor(0));
      var fetched := [GetInterceptors(point)] + ProcessCalls(point, general);
      var first := Pipe(node, point, general, c.process);
      if escapingEnabled then
        Intercepted(Pipe(first, point, escaping, c.process),
                    fetched + [GetEscapingInterceptors(point)] + ProcessCalls(point, escaping))
      else
        Intercepted(first, fetched)
  }

  /** The escaping interceptors are fetched exactly when there is a configuration and escaping is enabled. */
  lemma CallInterceptorFetchesEscaping(configuration: Option<Configuration>, escapingEnabled: bool, node: Node,
                                       point: InterceptionPoint)
    ensures GetEscapingInterceptors(point) in CallInterceptor(configuration, escapingEnabled, node, point).calls
            <==> configuration.Some? && escapingEnabled
  {
    if configuration.Some? {
      var c := configuration.value;
      ProcessCallsCount(point, c.interceptors(point), Interceptor(0));
      ProcessCallsCount(point, c.escapingInterceptors(point), Interceptor(0));
      assert GetEscapingInterceptors(point) !in ProcessCalls(point, c.interceptors(point));
    }
  }

  /** The general interceptors are fetched once whenever there is a configuration. */
  lemma CallInterceptorFetchesGeneral(configuration: Option<Configuration>, escapingEnabled: bool, node: Node,
                                      point: InterceptionPoint)
    ensures Count(CallInterceptor(configuration, escapingEnabled, node, point).calls, GetInterceptors(point))
            == (if configuration.Some? then 1 else 0)
  {
    if configuration.Some? {
      var c := configuration.value;
      var general := ProcessCalls(point, c.interceptors(point));
      var escaping := ProcessCalls(point, c.escapingInterceptors(point));
      ProcessCallsCount(point, c.interceptors(point), Interceptor(0));
      ProcessCallsCount(point, c.escapingInterceptors(point), Interceptor(0));
      assert GetInterceptors(point) !in general && GetInterceptors(point) !in escaping;
      var fetched := [GetInterceptors(point)] + general;
      CountConcat([GetInterceptors(point)], general, GetInterceptors(point));
      if escapingEnabled {
        CountConcat(fetched, [GetEscapingInterceptors(point)], GetInterceptors(point));
        CountConcat(fetched + [GetEscapingInterceptors(point)], escaping, GetInterceptors(point));
      }
    }
  }

  /** The node comes out of the general interceptors and then, if escaping is enabled, the escaping ones, in registration order. */
  lemma CallInterceptorNode(configuration: Configuration, escapingEnabled: bool, node: Node, point: InterceptionPoint)
    ensures CallInterceptor(Some(configuration), escapingEnabled, node, point).node
            == Pipe(node, point, configuration.interceptors(point)
                                 + (if escapingEnabled then configuration.escapingInterceptors(point) else []),
                    configuration.process)
  {
    var general := configuration.interceptors(point);
    assert general + [] == general;
    PipeConcat(node, point, general, configuration.escapingInterceptors(point), configuration.process);
  }

  /** Every registered interceptor of the tiers that run processes the node once per registration, and no other does. */
  lemma CallInterceptorProcesses(configuration: Configuration, escapingEnabled: bool, node: Node, point: InterceptionPoint,
                                 x: Interceptor)
    ensures Count(CallInterceptor(Some(configuration), escapingEnabled, node, point).calls, Process(x, point))
            == multiset(configuration.interceptors(point))[x]
               + (if escapingEnabled then multiset(configuration.escapingInterceptors(point))[x] else 0)
  {
    var general := configuration.interceptors(point);
    var escaping := configuration.escapingInterceptors(point);
    ProcessCallsCount(point, general, x);
    ProcessCallsCount(point, escaping, x);
    var calls := CallInterceptor(Some(configuration), escapingEnabled, node, point).calls;
    var fetched := [GetInterceptors(point)] + ProcessCalls(point, general);
    if escapingEnabled {
      assert calls == fetched + [GetEscapingInterceptors(point)] + ProcessCalls(point, escaping);
    } else {
      assert calls == fetched;
    }
  }

  /** Escaping, when enabled, acts on what the general interceptors produced. */
  lemma EscapingAfterGeneral(configuration: Configuration, node: Node, point: InterceptionPoint)
    ensures CallInterceptor(Some(configuration), true, node, point).node
            == Pipe(CallInterceptor(Some(configuration), false, node, point).node, point,
                    configuration.escapingInterceptors(point), configuration.process)
  {
    var general := configuration.interceptors(point);
    assert general + [] == general;
    PipeConcat(node, point, general, configuration.escapingInterceptors(point), configuration.process);
  }
}
