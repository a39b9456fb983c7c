/**
 * The template parser's handlers: opening and closing view helper tags,
 * text and object accessors, and `buildObjectTree`, which feeds a template
 * already split into segments through them. Namespaces, class names and
 * argument definitions come from the view helper resolver, whose answers
 * are functions here; every handler reports the calls it made.
 */
module TemplateParsers {
  import opened Wrappers
  import opened Nodes
  import opened ParsingStates
  import opened ParseErrors
  import opened Arguments
  import opened Calls
  import opened Interceptors

  /** The view helper resolver's answers. */
  datatype Resolver = Resolver(
    isNamespaceIgnored: string -> bool,
    isNamespaceValid: string -> bool,
    resolveViewHelperClassName: (string, string) -> string,
      /** The argument definitions of a view helper class. */
    argumentDefinitions: string -> seq<ArgumentDefinition>,
      /** Whether a view helper class accepts arguments it does not declare. */
    acceptsAdditionalArguments: string -> bool)

  datatype TemplateParser = TemplateParser(
    escapingEnabled: bool,
    configuration: Option<Configuration>,
    resolver: Resolver,
      /** Parses an argument value that holds template syntax. */
    parseTemplate: string -> Node)

  /** A new parser escapes by default and has no configuration yet. */
  function NewTemplateParser(resolver: Resolver, parseTemplate: string -> Node): (p: TemplateParser)
    ensures IsEscapingEnabled(p)
    ensures p.configuration.None? && p.resolver == resolver && p.parseTemplate == parseTemplate
  {
    TemplateParser(true, None, resolver, parseTemplate)
  }

  predicate IsEscapingEnabled(p: TemplateParser) {
    p.escapingEnabled
  }

  /** Sets the escaping flag; nothing else about the parser changes. */
  function SetEscapingEnabled(p: TemplateParser, enabled: bool): (r: TemplateParser)
    ensures IsEscapingEnabled(r) == enabled
    ensures r.configuration == p.configuration && r.resolver == p.resolver && r.parseTemplate == p.parseTemplate
  {
    p.(escapingEnabled := enabled)
  }

  /** The result of one handler and the calls it made. */
  datatype Step<T> = Step(result: Result<(ParsingState, T), ParseError>, calls: seq<Call>)

  // ---------------------------------------------------------------------------
  // Attaching to the open node

  /**
   * `getNodeFromStack()->addChildNode(child)`: the open node gains `child`
   * as its last child. With nothing open there is nothing to attach to.
   */
  function AttachToTop(state: ParsingState, child: Node): (r: Option<ParsingState>)
    ensures r.None? <==> state.nodeStack == []
    ensures r.Some? ==> Attached(state, r.value, child)
  {
    match GetNodeFromStack(state)
    case None => None
    case Some(top) => Some(PushNodeToStack(PopNodeFromStack(state).0, AddChild(top, child)))
  }

  /** `after` is `before` with `child` appended to the children of the open node. */
  predicate Attached(before: ParsingState, after: ParsingState, child: Node) {
    var n := |before.nodeStack|;
    n > 0 && |after.nodeStack| == n
    && after.nodeStack[..n - 1] == before.nodeStack[..n - 1]
    && after.nodeStack[n - 1] == AddChild(before.nodeStack[n - 1], child)
    && after.identifier == before.identifier && after.rootNode == before.rootNode
    && after.variableContainer == before.variableContainer && after.compiled == before.compiled
  }

  /**
   * Passes a fresh node through the interceptors of `point` and attaches
   * what comes back to the open node.
   */
  function AttachIntercepted(parser: TemplateParser, state: ParsingState, node: Node, point: InterceptionPoint): (r: Step<Node>)
    ensures var i := CallInterceptor(parser.configuration, parser.escapingEnabled, node, point);
            r.calls == i.calls + [PeekNode] && StackCalls(r.calls) == [PeekNode]
            && (r.result.Success? <==> state.nodeStack != [])
            && (r.result.Success? ==> r.result.value.1 == i.node && Attached(state, r.result.value.0, i.node))
            && (r.result.Failure? ==> r.result.error == NoOpenNode)
  {
    var intercepted := CallInterceptor(parser.configuration, parser.escapingEnabled, node, point);
    var calls := intercepted.calls + [PeekNode];
    AfterInterceptors(intercepted.calls, point, PeekNode);
    match AttachToTop(state, intercepted.node)
    case None => Step(Failure(NoOpenNode), calls)
    case Some(attached) => Step(Success((attached, intercepted.node)), calls)
  }

  /** Each interceptor of the tiers that run processes the node once per registration. */
  lemma InterceptedProcesses(parser: TemplateParser, state: ParsingState, node: Node, point: InterceptionPoint, x: Interceptor)
    requires parser.configuration.Some?
    ensures var c := parser.configuration.value;
            Count(AttachIntercepted(parser, state, node, point).calls, Process(x, point))
            == multiset(c.interceptors(point))[x] + (if parser.escapingEnabled then multiset(c.escapingInterceptors(point))[x] else 0)
  {
    var i := CallInterceptor(parser.configuration, parser.escapingEnabled, node, point);
    CallInterceptorProcesses(parser.configuration.value, parser.escapingEnabled, node, point, x);
    CountConcat(i.calls, [PeekNode], Process(x, point));
  }

  /** Interceptor calls followed by one stack call leave just that call on the stack. */
  lemma AfterInterceptors(calls: seq<Call>, point: InterceptionPoint, c: Call)
    requires InterceptorCalls(calls, point) && IsStackCall(c)
    ensures StackCalls(calls + [c]) == [c]
  {
    InterceptorCallsSkipStack(calls, point);
    StackCallsConcat(calls, [c]);
    OneStackCall(c);
  }

  // ---------------------------------------------------------------------------
  // Text and object accessors

  /** `textHandler`: the text becomes a text node, intercepted at the text point and attached to the open node. */
  function TextHandler(parser: TemplateParser, state: ParsingState, text: string): (r: Step<Node>)
    ensures StackCalls(r.calls) == [PeekNode]
    ensures Count(r.calls, GetInterceptors(TextPoint)) == (if parser.configuration.Some? then 1 else 0)
    ensures GetEscapingInterceptors(TextPoint) in r.calls <==> parser.configuration.Some? && IsEscapingEnabled(parser)
    ensures r.result.Success? <==> state.nodeStack != []
    ensures r.result.Success? ==> Attached(state, r.result.value.0, r.result.value.1)
    ensures r.result.Success? && parser.configuration.None? ==> r.result.value.1 == TextNode(text)
  {
    CallInterceptorFetchesEscaping(parser.configuration, parser.escapingEnabled, TextNode(text), TextPoint);
    CallInterceptorFetchesGeneral(parser.configuration, parser.escapingEnabled, TextNode(text), TextPoint);
    FetchesBeforePeek(CallInterceptor(parser.configuration, parser.escapingEnabled, TextNode(text), TextPoint).calls, TextPoint);
    AttachIntercepted(parser, state, TextNode(text), TextPoint)
  }

  /**
   * `objectAccessorHandler` for a plain accessor: a non-empty path becomes
   * an object accessor node, intercepted at the object accessor point and
   * attached to the open node; an empty one adds nothing.
   */
  function ObjectAccessorHandler(parser: TemplateParser, state: ParsingState, path: string): (r: Step<Option<Node>>)
    ensures path == [] ==> r == Step(Success((state, None)), [])
    ensures path != [] ==> StackCalls(r.calls) == [PeekNode]
    ensures path != [] ==> Count(r.calls, GetInterceptors(ObjectAccessorPoint)) == (if parser.configuration.Some? then 1 else 0)
    ensures GetEscapingInterceptors(ObjectAccessorPoint) in r.calls
            <==> path != [] && parser.configuration.Some? && IsEscapingEnabled(parser)
    ensures path != [] ==> (r.result.Success? <==> state.nodeStack != [])
    ensures path != [] && r.result.Success? ==>
              r.result.value.1.Some? && Attached(state, r.result.value.0, r.result.value.1.value)
    ensures path != [] && r.result.Success? && parser.configuration.None? ==> r.result.value.1 == Some(ObjectAccessorNode(path))
  {
    if path == [] then Step(Success((state, None)), [])
    else
      var a := AttachIntercepted(parser, state, ObjectAccessorNode(path), ObjectAccessorPoint);
      CallInterceptorFetchesEscaping(parser.configuration, parser.escapingEnabled, ObjectAccessorNode(path), ObjectAccessorPoint);
      CallInterceptorFetchesGeneral(parser.configuration, parser.escapingEnabled, ObjectAccessorNode(path), ObjectAccessorPoint);
      FetchesBeforePeek(CallInterceptor(parser.configuration, parser.escapingEnabled, ObjectAccessorNode(path), ObjectAccessorPoint).calls,
                        ObjectAccessorPoint);
      match a.result
      case Failure(e) => Step(Failure(e), a.calls)
      case Success((attached, node)) => Step(Success((attached, Some(node))), a.calls)
  }

  /** A peek after the interceptor calls adds no fetch. */
  lemma FetchesBeforePeek(calls: seq<Call>, point: InterceptionPoint)
    ensures Count(calls + [PeekNode], GetInterceptors(point)) == Count(calls, GetInterceptors(point))
    ensures GetEscapingInterceptors(point) in calls + [PeekNode] <==> GetEscapingInterceptors(point) in calls
  {
    CountConcat(calls, [PeekNode], GetInterceptors(point));
  }

  // ---------------------------------------------------------------------------
  // View helper tags

  /** The parsed arguments as the map a view helper node holds: PHP array writes, so a later duplicate wins. */
  function ArgumentMap(arguments: seq<Argument<Node>>): map<string, Node>
    decreases |arguments|
  {
    if arguments == [] then map[] else map[arguments[0].name := arguments[0].value] + ArgumentMap(arguments[1..])
  }

  /** The map holds exactly the given names, each with the value given last. */
  lemma {:induction false} ArgumentMapHoldsLast(arguments: seq<Argument<Node>>, name: string)
    ensures name in ArgumentMap(arguments) <==> HasArgument(arguments, name)
    ensures name in ArgumentMap(arguments) ==> LastValue(arguments, name) == Some(ArgumentMap(arguments)[name])
    decreases |arguments|
  {
    if arguments != [] {
      var rest := arguments[1..];
      ArgumentMapHoldsLast(rest, name);
      if HasArgument(rest, name) {
        var i :| 0 <= i < |rest| && rest[i].name == name;
        assert arguments[i + 1] == rest[i];
      }
      if HasArgument(arguments, name) && arguments[0].name != name {
        var i :| 0 <= i < |arguments| && arguments[i].name == name;
        assert rest[i - 1] == arguments[i];
      }
    }
  }

  /** `validateAdditionalArguments`: undeclared arguments are rejected unless the class accepts any. */
  function AcceptsFor(resolver: Resolver, className: string): seq<string> -> bool {
    names => names == [] || resolver.acceptsAdditionalArguments(className)
  }

  /** The resolver questions about a tag: is the namespace ignored, is it valid, which class is it. */
  function Resolution(namespace: string, name: string): seq<Call> {
    [IsNamespaceIgnored(namespace), IsNamespaceValid(namespace), ResolveViewHelperClassName(namespace, name)]
  }

  lemma ResolutionSkipsStack(namespace: string, name: string)
    ensures StackCalls(Resolution(namespace, name)) == []
  {
    NoStackCalls(Resolution(namespace, name));
  }

  /** The view helper node a valid tag opens, as the opening interceptors leave it. */
  function OpenedNode(parser: TemplateParser, namespace: string, name: string, arguments: map<string, Node>): Node {
    var className := parser.resolver.resolveViewHelperClassName(namespace, name);
    CallInterceptor(parser.configuration, parser.escapingEnabled, ViewHelperNode(namespace, name, className, arguments),
                    OpeningViewHelperPoint).node
  }

  /**
   * `initializeViewHelperAndAddItToStack`: an ignored namespace gives no node
   * (null); an invalid one fails; otherwise the view helper node of the
   * resolved class, after the opening interceptors, is pushed and returned.
   */
  function InitializeViewHelperAndAddItToStack(parser: TemplateParser, state: ParsingState, namespace: string, name: string,
                                               arguments: map<string, Node>): (r: Step<Option<Node>>)
    ensures parser.resolver.isNamespaceIgnored(namespace) ==>
              r == Step(Success((state, None)), [IsNamespaceIgnored(namespace)])
    ensures !parser.resolver.isNamespaceIgnored(namespace) && !parser.resolver.isNamespaceValid(namespace) ==>
              r == Step(Failure(UnknownNamespace(namespace)), [IsNamespaceIgnored(namespace), IsNamespaceValid(namespace)])
    ensures !parser.resolver.isNamespaceIgnored(namespace) && parser.resolver.isNamespaceValid(namespace) ==>
              var node := OpenedNode(parser, namespace, name, arguments);
              r.result == Success((PushNodeToStack(state, node), Some(node))) && StackCalls(r.calls) == [PushNode]
  {
    var resolver := parser.resolver;
    if resolver.isNamespaceIgnored(namespace) then Step(Success((state, None)), [IsNamespaceIgnored(namespace)])
    else if !resolver.isNamespaceValid(namespace) then
      Step(Failure(UnknownNamespace(namespace)), [IsNamespaceIgnored(namespace), IsNamespaceValid(namespace)])
    else
      var className := resolver.resolveViewHelperClassName(namespace, name);
      var started := CallInterceptor(parser.configuration, parser.escapingEnabled,
                                     ViewHelperNode(namespace, name, className, arguments), OpeningViewHelperPoint);
      ResolutionSkipsStack(namespace, name);
      AfterInterceptors(started.calls, OpeningViewHelperPoint, PushNode);
      StackCallsConcat(Resolution(namespace, name), started.calls + [PushNode]);
      assert Resolution(namespace, name) + started.calls + [PushNode] == Resolution(namespace, name) + (started.calls + [PushNode]);
      Step(Success((PushNodeToStack(state, started.node), Some(started.node))), Resolution(namespace, name) + started.calls + [PushNode])
  }

  /**
   * The end of a self-closing tag: the node just pushed is popped again,
   * intercepted at the closing point and attached to the node below it.
   */
  function CloseSelf(parser: TemplateParser, pushed: ParsingState, node: Node): (r: Step<Option<Node>>)
    ensures var closed := CallInterceptor(parser.configuration, parser.escapingEnabled, node, ClosingViewHelperPoint).node;
            (r.result.Success? <==> |pushed.nodeStack| >= 2)
            && (r.result.Success? ==>
                  r.result.value.1 == Some(closed) && Attached(PopNodeFromStack(pushed).0, r.result.value.0, closed))
            && (r.result.Failure? ==> r.result.error == NoOpenNode)
  {
    var closed := CallInterceptor(parser.configuration, parser.escapingEnabled, node, ClosingViewHelperPoint);
    var calls := [PopNode] + (closed.calls + [PeekNode]);
    match AttachToTop(PopNodeFromStack(pushed).0, closed.node)
    case None => Step(Failure(NoOpenNode), calls)
    case Some(attached) => Step(Success((attached, Some(closed.node))), calls)
  }

  /** Closing a self-closing tag pops the stack, then reads it. */
  lemma CloseSelfCalls(parser: TemplateParser, pushed: ParsingState, node: Node)
    ensures StackCalls(CloseSelf(parser, pushed, node).calls) == [PopNode, PeekNode]
  {
    var closed := CallInterceptor(parser.configuration, parser.escapingEnabled, node, ClosingViewHelperPoint);
    assert CloseSelf(parser, pushed, node).calls == [PopNode] + (closed.calls + [PeekNode]);
    StackAround(PopNode, closed.calls, ClosingViewHelperPoint, PeekNode);
  }

  /**
   * `openingViewHelperTagHandler`: checks the namespace, resolves the class,
   * parses the argument text against the class's definitions and hands the
   * arguments to `initializeViewHelperAndAddItToStack`. A self-closing tag is
   * then closed at once.
   */
  function OpeningViewHelperTagHandler(parser: TemplateParser, state: ParsingState, namespace: string, name: string,
                                       argumentText: string, selfClosing: bool): (r: Step<Option<Node>>)
    ensures parser.resolver.isNamespaceIgnored(namespace) ==>
              r == Step(Success((state, None)), [IsNamespaceIgnored(namespace)])
    ensures !parser.resolver.isNamespaceIgnored(namespace) && !parser.resolver.isNamespaceValid(namespace) ==>
              r == Step(Failure(UnknownNamespace(namespace)), [IsNamespaceIgnored(namespace), IsNamespaceValid(namespace)])
  {
    var resolver := parser.resolver;
    if resolver.isNamespaceIgnored(namespace) then Step(Success((state, None)), [IsNamespaceIgnored(namespace)])
    else if !resolver.isNamespaceValid(namespace) then
      Step(Failure(UnknownNamespace(namespace)), [IsNamespaceIgnored(namespace), IsNamespaceValid(namespace)])
    else
      var asked := Resolution(namespace, name);
      match TagArguments(parser, namespace, name, argumentText)
      case Failure(e) => Step(Failure(e), asked)
      case Success(arguments) =>
        var init := InitializeViewHelperAndAddItToStack(parser, state, namespace, name, ArgumentMap(arguments));
        var calls := asked + init.calls;
        match init.result
        case Failure(e) => Step(Failure(e), calls)
        case Success((pushed, None)) => Step(Success((pushed, None)), calls)
        case Success((pushed, Some(node))) =>
          if !selfClosing then Step(Success((pushed, Some(node))), calls)
          else
            var c := CloseSelf(parser, pushed, node);
            Step(c.result, calls + c.calls)
  }

  /** The arguments of a tag, parsed against the definitions of the class it resolves to. */
  function TagArguments(parser: TemplateParser, namespace: string, name: string, argumentText: string): Result<seq<Argument<Node>>, ParseError> {
    var className := parser.resolver.resolveViewHelperClassName(namespace, name);
    ParseArguments(argumentText, parser.resolver.argumentDefinitions(className), parser.parseTemplate,
                   AcceptsFor(parser.resolver, className))
  }

  /**
   * `closingViewHelperTagHandler`: an ignored namespace is no tag (false);
   * an invalid one fails before anything is popped. Otherwise the open node
   * is popped; it must be a view helper node of the class the closing tag
   * resolves to. It is intercepted at the closing point and attached to the
   * node below it.
   */
  function ClosingViewHelperTagHandler(parser: TemplateParser, state: ParsingState, namespace: string, name: string): (r: Step<bool>)
    ensures parser.resolver.isNamespaceIgnored(namespace) ==>
              r == Step(Success((state, false)), [IsNamespaceIgnored(namespace)])
    ensures !parser.resolver.isNamespaceIgnored(namespace) && !parser.resolver.isNamespaceValid(namespace) ==>
              r == Step(Failure(UnknownNamespace(namespace)), [IsNamespaceIgnored(namespace), IsNamespaceValid(namespace)])
    ensures !parser.resolver.isNamespaceIgnored(namespace) && parser.resolver.isNamespaceValid(namespace)
            && state.nodeStack != [] && IsViewHelper(state.nodeStack[|state.nodeStack| - 1])
            && state.nodeStack[|state.nodeStack| - 1].kind.className == parser.resolver.resolveViewHelperClassName(namespace, name)
            ==>
              var closed := CallInterceptor(parser.configuration, parser.escapingEnabled, state.nodeStack[|state.nodeStack| - 1],
                                            ClosingViewHelperPoint).node;
              (r.result.Success? <==> |state.nodeStack| >= 2)
              && (r.result.Success? ==> r.result.value.1 && Attached(PopNodeFromStack(state).0, r.result.value.0, closed))
              && (r.result.Failure? ==> r.result.error == NoOpenNode)
    ensures !parser.resolver.isNamespaceIgnored(namespace) && parser.resolver.isNamespaceValid(namespace) ==>
              var top := GetNodeFromStack(state);
              (r.result == Failure(ClosingTagNeverOpened) <==> top.None? || !IsViewHelper(top.value))
    ensures !parser.resolver.isNamespaceIgnored(namespace) && parser.resolver.isNamespaceValid(namespace) ==>
              var top := GetNodeFromStack(state);
              var actual := parser.resolver.resolveViewHelperClassName(namespace, name);
              (r.result.Failure? && r.result.error.WrongTagNesting? <==>
                 top.Some? && IsViewHelper(top.value) && top.value.kind.className != actual)
              && (r.result.Failure? && r.result.error.WrongTagNesting? ==>
                    r.result.error == WrongTagNesting(top.value.kind.className, actual))
  {
    var resolver := parser.resolver;
    if resolver.isNamespaceIgnored(namespace) then Step(Success((state, false)), [IsNamespaceIgnored(namespace)])
    else if !resolver.isNamespaceValid(namespace) then
      Step(Failure(UnknownNamespace(namespace)), [IsNamespaceIgnored(namespace), IsNamespaceValid(namespace)])
    else
      var (popped, last) := PopNodeFromStack(state);
      var asked := [IsNamespaceIgnored(namespace), IsNamespaceValid(namespace), PopNode];
      if last.None? || !IsViewHelper(last.value) then Step(Failure(ClosingTagNeverOpened), asked)
      else
        var actual := resolver.resolveViewHelperClassName(namespace, name);
        var expected := last.value.kind.className;
        var asked' := asked + [ResolveViewHelperClassName(namespace, name)];
        if actual != expected then Step(Failure(WrongTagNesting(expected, actual)), asked')
        else
          var closed := CallInterceptor(parser.configuration, parser.escapingEnabled, last.value, ClosingViewHelperPoint);
          var calls := asked' + closed.calls + [PeekNode];
          match AttachToTop(popped, closed.node)
          case None => Step(Failure(NoOpenNode), calls)
          case Some(attached) => Step(Success((attached, true)), calls)
  }

  // ---------------------------------------------------------------------------
  // What the tag handlers promise

  /** An argument error stops the tag before anything is pushed. */
  lemma OpeningArgumentError(parser: TemplateParser, state: ParsingState, namespace: string, name: string,
                             argumentText: string, selfClosing: bool)
    requires !parser.resolver.isNamespaceIgnored(namespace) && parser.resolver.isNamespaceValid(namespace)
    requires TagArguments(parser, namespace, name, argumentText).Failure?
    ensures var r := OpeningViewHelperTagHandler(parser, state, namespace, name, argumentText, selfClosing);
            r.result == Failure(TagArguments(parser, namespace, name, argumentText).error) && StackCalls(r.calls) == []
  {
    ResolutionSkipsStack(namespace, name);
  }

  /**
   * A tag that is not self-closing stays open: the view helper node with
   * the parsed arguments is pushed and the stack is never popped.
   */
  lemma OpeningKeepsTagOpen(parser: TemplateParser, state: ParsingState, namespace: string, name: string, argumentText: string)
    requires !parser.resolver.isNamespaceIgnored(namespace) && parser.resolver.isNamespaceValid(namespace)
    requires TagArguments(parser, namespace, name, argumentText).Success?
    ensures var r := OpeningViewHelperTagHandler(parser, state, namespace, name, argumentText, false);
            var node := OpenedNode(parser, namespace, name, ArgumentMap(TagArguments(parser, namespace, name, argumentText).value));
            r.result == Success((PushNodeToStack(state, node), Some(node))) && StackCalls(r.calls) == [PushNode]
  {
    var init := InitializeViewHelperAndAddItToStack(parser, state, namespace, name,
                                                    ArgumentMap(TagArguments(parser, namespace, name, argumentText).value));
    ResolutionSkipsStack(namespace, name);
    StackCallsConcat(Resolution(namespace, name), init.calls);
  }

  /**
   * A self-closing tag's view helper node, intercepted at the closing
   * point, becomes the last child of the node that was open before; the
   * stack keeps its depth.
   */
  lemma OpeningSelfClosing(parser: TemplateParser, state: ParsingState, namespace: string, name: string, argumentText: string)
    requires !parser.resolver.isNamespaceIgnored(namespace) && parser.resolver.isNamespaceValid(namespace)
    requires TagArguments(parser, namespace, name, argumentText).Success?
    ensures var r := OpeningViewHelperTagHandler(parser, state, namespace, name, argumentText, true);
            var node := OpenedNode(parser, namespace, name, ArgumentMap(TagArguments(parser, namespace, name, argumentText).value));
            var closed := CallInterceptor(parser.configuration, parser.escapingEnabled, node, ClosingViewHelperPoint).node;
            (r.result.Success? <==> state.nodeStack != [])
            && (r.result.Success? ==> r.result.value.1 == Some(closed) && Attached(state, r.result.value.0, closed))
            && (r.result.Failure? ==> r.result.error == NoOpenNode)
  {
    var node := OpenedNode(parser, namespace, name, ArgumentMap(TagArguments(parser, namespace, name, argumentText).value));
    var c := CloseSelf(parser, PushNodeToStack(state, node), node);
    var r := OpeningViewHelperTagHandler(parser, state, namespace, name, argumentText, true);
    assert r.result == c.result;
    PushThenPop(state, node);
  }

  /** A self-closing tag pushes, pops and reads the stack once each, in that order. */
  lemma OpeningSelfClosingCalls(parser: TemplateParser, state: ParsingState, namespace: string, name: string, argumentText: string)
    requires !parser.resolver.isNamespaceIgnored(namespace) && parser.resolver.isNamespaceValid(namespace)
    requires TagArguments(parser, namespace, name, argumentText).Success?
    ensures StackCalls(OpeningViewHelperTagHandler(parser, state, namespace, name, argumentText, true).calls)
            == [PushNode, PopNode, PeekNode]
  {
    var node := OpenedNode(parser, namespace, name, ArgumentMap(TagArguments(parser, namespace, name, argumentText).value));
    var init := InitializeViewHelperAndAddItToStack(parser, state, namespace, name,
                                                    ArgumentMap(TagArguments(parser, namespace, name, argumentText).value));
    var c := CloseSelf(parser, PushNodeToStack(state, node), node);
    CloseSelfCalls(parser, PushNodeToStack(state, node), node);
    ResolutionSkipsStack(namespace, name);
    PushThenPopAndPeek(Resolution(namespace, name), init.calls, c.calls);
    assert OpeningViewHelperTagHandler(parser, state, namespace, name, argumentText, true).calls
           == Resolution(namespace, name) + init.calls + c.calls;
  }

  /** A closing tag with a valid namespace pops exactly once, whatever it finds. */
  lemma ClosingPopsOnce(parser: TemplateParser, state: ParsingState, namespace: string, name: string)
    requires !parser.resolver.isNamespaceIgnored(namespace) && parser.resolver.isNamespaceValid(namespace)
    ensures Count(ClosingViewHelperTagHandler(parser, state, namespace, name).calls, PopNode) == 1
  {
    var asked := [IsNamespaceIgnored(namespace), IsNamespaceValid(namespace), PopNode];
    assert Count(asked, PopNode) == 1;
    var top := GetNodeFromStack(state);
    if top.Some? && IsViewHelper(top.value) {
      var asked' := asked + [ResolveViewHelperClassName(namespace, name)];
      CountConcat(asked, [ResolveViewHelperClassName(namespace, name)], PopNode);
      if top.value.kind.className == parser.resolver.resolveViewHelperClassName(namespace, name) {
        var closed := CallInterceptor(parser.configuration, parser.escapingEnabled, top.value, ClosingViewHelperPoint);
        InterceptorCallsSkipStack(closed.calls, ClosingViewHelperPoint);
        assert PopNode !in closed.calls;
        CountConcat(asked', closed.calls, PopNode);
        CountConcat(asked' + closed.calls, [PeekNode], PopNode);
        assert ClosingViewHelperTagHandler(parser, state, namespace, name).calls == asked' + closed.calls + [PeekNode];
      }
    }
  }

  /**
   * Opening a tag and closing it again is the same as writing it
   * self-closing, as long as the opened node is a view helper of the class
   * the tag resolves to (the opening interceptors may replace it).
   */
  lemma OpenThenClose(parser: TemplateParser, state: ParsingState, namespace: string, name: string, argumentText: string)
    requires !parser.resolver.isNamespaceIgnored(namespace) && parser.resolver.isNamespaceValid(namespace)
    requires TagArguments(parser, namespace, name, argumentText).Success?
    requires var node := OpenedNode(parser, namespace, name, ArgumentMap(TagArguments(parser, namespace, name, argumentText).value));
             IsViewHelper(node) && node.kind.className == parser.resolver.resolveViewHelperClassName(namespace, name)
    ensures var open := OpeningViewHelperTagHandler(parser, state, namespace, name, argumentText, false);
            var selfClosed := OpeningViewHelperTagHandler(parser, state, namespace, name, argumentText, true);
            open.result.Success?
            && (selfClosed.result.Success? <==> ClosingViewHelperTagHandler(parser, open.result.value.0, namespace, name).result.Success?)
            && (selfClosed.result.Success? ==>
                  ClosingViewHelperTagHandler(parser, open.result.value.0, namespace, name).result.value.0
                  == selfClosed.result.value.0)
  {
    var node := OpenedNode(parser, namespace, name, ArgumentMap(TagArguments(parser, namespace, name, argumentText).value));
    OpeningKeepsTagOpen(parser, state, namespace, name, argumentText);
    OpeningSelfClosing(parser, state, namespace, name, argumentText);
    var pushed := PushNodeToStack(state, node);
    PushThenPop(state, node);
    var closed := CallInterceptor(parser.configuration, parser.escapingEnabled, node, ClosingViewHelperPoint).node;
    var c := ClosingViewHelperTagHandler(parser, pushed, namespace, name);
    var sc := OpeningViewHelperTagHandler(parser, state, namespace, name, argumentText, true);
    if sc.result.Success? {
      AttachedUnique(state, c.result.value.0, sc.result.value.0, closed);
    }
  }

  /** Attaching the same child to the same state gives one result. */
  lemma AttachedUnique(before: ParsingState, a: ParsingState, b: ParsingState, child: Node)
    requires Attached(before, a, child) && Attached(before, b, child)
    ensures a == b
  {
    var n := |before.nodeStack|;
    assert a.nodeStack == a.nodeStack[..n - 1] + [a.nodeStack[n - 1]];
    assert b.nodeStack == b.nodeStack[..n - 1] + [b.nodeStack[n - 1]];
  }
}
