/**
 * The interceptor tiers at work on text and object accessors: one
 * interceptor that hands back the node it is given, registered either as a
 * general or as an escaping interceptor for the point in question.
 */
module InterceptorExamples {
  import opened Wrappers
  import opened Nodes
  import opened ParsingStates
  import opened Calls
  import opened Interceptors
  import opened TemplateParsers

  /** `x` registered at `point` and nowhere else. */
  function Only(point: InterceptionPoint, x: Interceptor): InterceptionPoint -> seq<Interceptor> {
    p => if p == point then [x] else []
  }

  function NoInterceptors(): InterceptionPoint -> seq<Interceptor> {
    p => []
  }

  /** An interceptor that returns its argument. */
  function Unchanged(): (Interceptor, Node, InterceptionPoint) -> Node {
    (x, n, p) => n
  }

  /** A new parser with its escaping flag set and interceptors that leave nodes unchanged. */
  function Configured(resolver: Resolver, parseTemplate: string -> Node, escapingEnabled: bool,
                      general: InterceptionPoint -> seq<Interceptor>,
                      escaping: InterceptionPoint -> seq<Interceptor>): TemplateParser {
    SetEscapingEnabled(NewTemplateParser(resolver, parseTemplate), escapingEnabled)
      .(configuration := Some(Configuration(general, escaping, Unchanged())))
  }

  /** A node passed through interceptors that return their argument is attached as it was built. */
  lemma UnchangedNode(parser: TemplateParser, state: ParsingState, node: Node, point: InterceptionPoint)
    requires parser.configuration.Some? && parser.configuration.value.process == Unchanged()
    requires state.nodeStack != []
    ensures var r := AttachIntercepted(parser, state, node, point);
            r.result.Success? && r.result.value.1 == node && Attached(state, r.result.value.0, node)
  {
    var c := parser.configuration.value;
    CallInterceptorNode(c, parser.escapingEnabled, node, point);
    var xs := c.interceptors(point) + (if parser.escapingEnabled then c.escapingInterceptors(point) else []);
    PipeIdentity(node, point, xs, c.process);
  }

  /**
   * An escaping interceptor for text runs once by default and is not even
   * fetched when escaping is disabled; the general interceptors are
   * fetched either way, and the text node reaches the open node unchanged.
   */
  lemma TextEscapingExample(resolver: Resolver, parseTemplate: string -> Node, state: ParsingState, text: string,
                            x: Interceptor, escapingEnabled: bool)
    requires state.nodeStack != []
    ensures var parser := Configured(resolver, parseTemplate, escapingEnabled, NoInterceptors(), Only(TextPoint, x));
            var r := TextHandler(parser, state, text);
            r.result.Success? && r.result.value.1 == TextNode(text) && Attached(state, r.result.value.0, TextNode(text))
            && Count(r.calls, Process(x, TextPoint)) == (if escapingEnabled then 1 else 0)
            && (GetEscapingInterceptors(TextPoint) in r.calls <==> escapingEnabled)
            && Count(r.calls, GetInterceptors(TextPoint)) == 1
  {
    var parser := Configured(resolver, parseTemplate, escapingEnabled, NoInterceptors(), Only(TextPoint, x));
    UnchangedNode(parser, state, TextNode(text), TextPoint);
    InterceptedProcesses(parser, state, TextNode(text), TextPoint, x);
  }

  /** A general interceptor for text runs once even with escaping disabled. */
  lemma TextGeneralExample(resolver: Resolver, parseTemplate: string -> Node, state: ParsingState, text: string,
                           x: Interceptor)
    requires state.nodeStack != []
    ensures var parser := Configured(resolver, parseTemplate, false, Only(TextPoint, x), NoInterceptors());
            var r := TextHandler(parser, state, text);
            r.result.Success? && r.result.value.1 == TextNode(text)
            && Count(r.calls, Process(x, TextPoint)) == 1
            && GetEscapingInterceptors(TextPoint) !in r.calls
  {
    var parser := Configured(resolver, parseTemplate, false, Only(TextPoint, x), NoInterceptors());
    UnchangedNode(parser, state, TextNode(text), TextPoint);
    InterceptedProcesses(parser, state, TextNode(text), TextPoint, x);
  }

  /** The same tiers for an object accessor. */
  lemma AccessorEscapingExample(resolver: Resolver, parseTemplate: string -> Node, state: ParsingState, path: string,
                                x: Interceptor, escapingEnabled: bool)
    requires state.nodeStack != [] && path != []
    ensures var parser := Configured(resolver, parseTemplate, escapingEnabled, NoInterceptors(), Only(ObjectAccessorPoint, x));
            var r := ObjectAccessorHandler(parser, state, path);
            r.result.Success? && r.result.value.1 == Some(ObjectAccessorNode(path))
            && Attached(state, r.result.value.0, ObjectAccessorNode(path))
            && Count(r.calls, Process(x, ObjectAccessorPoint)) == (if escapingEnabled then 1 else 0)
            && (GetEscapingInterceptors(ObjectAccessorPoint) in r.calls <==> escapingEnabled)
            && Count(r.calls, GetInterceptors(ObjectAccessorPoint)) == 1
  {
    var parser := Configured(resolver, parseTemplate, escapingEnabled, NoInterceptors(), Only(ObjectAccessorPoint, x));
    UnchangedNode(parser, state, ObjectAccessorNode(path), ObjectAccessorPoint);
    InterceptedProcesses(parser, state, ObjectAccessorNode(path), ObjectAccessorPoint, x);
  }

  /** A general interceptor for an object accessor runs once even with escaping disabled. */
  lemma AccessorGeneralExample(resolver: Resolver, parseTemplate: string -> Node, state: ParsingState, path: string,
                               x: Interceptor)
    requires state.nodeStack != [] && path != []
    ensures var parser := Configured(resolver, parseTemplate, false, Only(ObjectAccessorPoint, x), NoInterceptors());
            var r := ObjectAccessorHandler(parser, state, path);
            r.result.Success? && r.result.value.1 == Some(ObjectAccessorNode(path))
            && Count(r.calls, Process(x, ObjectAccessorPoint)) == 1
            && GetEscapingInterceptors(ObjectAccessorPoint) !in r.calls
  {
    var parser := Configured(resolver, parseTemplate, false, Only(ObjectAccessorPoint, x), NoInterceptors());
    UnchangedNode(parser, state, ObjectAccessorNode(path), ObjectAccessorPoint);
    InterceptedProcesses(parser, state, ObjectAccessorNode(path), ObjectAccessorPoint, x);
  }
}
