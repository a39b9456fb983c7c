/**
 * `buildObjectTree`: a template already split into segments is fed through
 * the tag and text handlers, starting from a fresh state whose only open
 * node is the root. Every tag must be closed again by the end.
 */
module TreeBuilding {
  import opened Wrappers
  import opened Nodes
  import opened ParsingStates
  import opened ParseErrors
  import opened Calls
  import opened Interceptors
  import opened Arguments
  import opened TemplateParsers

  /** One piece of a split template: an opening tag, a closing tag, or plain text. */
  datatype Segment =
    | OpeningTag(namespace: string, name: string, argumentText: string, selfClosing: bool, source: string)
    | ClosingTag(namespace: string, name: string, source: string)
    | TextSegment(text: string)

  /** The text handler's outcome without the node it attached. */
  function HandleText(parser: TemplateParser, state: ParsingState, text: string): (r: Result<ParsingState, ParseError>)
    ensures r.Success? <==> state.nodeStack != []
    ensures r.Failure? ==> r.error == NoOpenNode
    ensures r.Success? && parser.configuration.None? ==> Attached(state, r.value, TextNode(text))
  {
    match TextHandler(parser, state, text).result
    case Failure(e) => Failure(e)
    case Success((attached, _)) => Success(attached)
  }

  /**
   * One segment: a tag whose namespace is ignored is handed on to the text
   * handler as it was written; any other tag goes to its tag handler.
   */
  function HandleSegment(parser: TemplateParser, state: ParsingState, segment: Segment): (r: Result<ParsingState, ParseError>)
    ensures segment.OpeningTag? && parser.resolver.isNamespaceIgnored(segment.namespace) ==>
              r == HandleText(parser, state, segment.source)
    ensures segment.ClosingTag? && parser.resolver.isNamespaceIgnored(segment.namespace) ==>
              r == HandleText(parser, state, segment.source)
    ensures (segment.OpeningTag? && !parser.resolver.isNamespaceIgnored(segment.namespace)
             && !parser.resolver.isNamespaceValid(segment.namespace)) ==> r == Failure(UnknownNamespace(segment.namespace))
    ensures (segment.ClosingTag? && !parser.resolver.isNamespaceIgnored(segment.namespace)
             && !parser.resolver.isNamespaceValid(segment.namespace)) ==> r == Failure(UnknownNamespace(segment.namespace))
  {
    match segment
    case OpeningTag(namespace, name, argumentText, selfClosing, source) =>
      (match OpeningViewHelperTagHandler(parser, state, namespace, name, argumentText, selfClosing).result
       case Failure(e) => Failure(e)
       case Success((opened', None)) => HandleText(parser, opened', source)
       case Success((opened', Some(_))) => Success(opened'))
    case ClosingTag(namespace, name, source) =>
      (match ClosingViewHelperTagHandler(parser, state, namespace, name).result
       case Failure(e) => Failure(e)
       case Success((closed, false)) => HandleText(parser, closed, source)
       case Success((closed, true)) => Success(closed))
    case TextSegment(text) => HandleText(parser, state, text)
  }

  /** The segments in order; the first failure ends the pass. */
  function BuildFrom(parser: TemplateParser, state: ParsingState, segments: seq<Segment>): (r: Result<ParsingState, ParseError>)
    ensures RootAtBottom(state) && r.Success? ==> RootAtBottom(r.value)
    decreases |segments|
  {
    if segments == [] then Success(state)
    else
      match HandleSegment(parser, state, segments[0])
      case Failure(e) => Failure(e)
      case Success(next) =>
        HandleSegmentKeepsRoot(parser, state, segments[0]);
        BuildFrom(parser, next, segments[1..])
  }

  /**
   * `buildObjectTree`: the segments are built from a fresh state; unless
   * exactly the root is open at the end, not all tags were closed. The
   * root then holds everything attached to it.
   */
  function BuildObjectTree(parser: TemplateParser, segments: seq<Segment>): (r: Result<ParsingState, ParseError>)
    ensures r.Success? ==> CountNodeStack(r.value) == 1 && r.value.nodeStack[0] == GetRootNode(r.value)
                           && GetRootNode(r.value).kind.Root?
  {
    match BuildFrom(parser, NewParsingState(), segments)
    case Failure(e) => Failure(e)
    case Success(built) =>
      if CountNodeStack(built) != 1 then Failure(NotAllTagsClosed)
      else Success(SetRootNode(built, built.nodeStack[0]))
  }

  // ---------------------------------------------------------------------------
  // The root stays at the bottom of the stack

  /** The root is open at the bottom of the stack. */
  predicate RootAtBottom(state: ParsingState) {
    |state.nodeStack| >= 1 && state.nodeStack[0].kind.Root?
  }

  /** Attaching a child keeps the bottom node's kind. */
  lemma AttachedKeepsRoot(before: ParsingState, after: ParsingState, child: Node)
    requires RootAtBottom(before) && Attached(before, after, child)
    ensures RootAtBottom(after)
  {
    var n := |before.nodeStack|;
    if n > 1 {
      assert after.nodeStack[0] == after.nodeStack[..n - 1][0];
    }
  }

  /** Text keeps the root at the bottom. */
  lemma HandleTextKeepsRoot(parser: TemplateParser, state: ParsingState, text: string)
    requires RootAtBottom(state)
    ensures var r := HandleText(parser, state, text); r.Success? ==> RootAtBottom(r.value)
  {
    var t := TextHandler(parser, state, text);
    if t.result.Success? {
      AttachedKeepsRoot(state, t.result.value.0, t.result.value.1);
    }
  }

  /**
   * No segment takes the root off the stack: a closing tag only pops a view
   * helper, and a self-closing tag only pops what it pushed.
   */
  lemma HandleSegmentKeepsRoot(parser: TemplateParser, state: ParsingState, segment: Segment)
    ensures var r := HandleSegment(parser, state, segment); RootAtBottom(state) && r.Success? ==> RootAtBottom(r.value)
  {
    if RootAtBottom(state) {
      KeepsRoot(parser, state, segment);
    }
  }

  lemma KeepsRoot(parser: TemplateParser, state: ParsingState, segment: Segment)
    requires RootAtBottom(state)
    ensures var r := HandleSegment(parser, state, segment); r.Success? ==> RootAtBottom(r.value)
  {
    match segment
    case TextSegment(text) => HandleTextKeepsRoot(parser, state, text);
    case OpeningTag(namespace, name, argumentText, selfClosing, source) =>
      OpeningKeepsRoot(parser, state, namespace, name, argumentText, selfClosing, source);
    case ClosingTag(namespace, name, source) =>
      ClosingKeepsRoot(parser, state, namespace, name, source);
  }

  lemma OpeningKeepsRoot(parser: TemplateParser, state: ParsingState, namespace: string, name: string, argumentText: string,
                         selfClosing: bool, source: string)
    requires RootAtBottom(state)
    ensures var r := HandleSegment(parser, state, OpeningTag(namespace, name, argumentText, selfClosing, source));
            r.Success? ==> RootAtBottom(r.value)
  {
    var resolver := parser.resolver;
    if resolver.isNamespaceIgnored(namespace) {
      HandleTextKeepsRoot(parser, state, source);
    } else if resolver.isNamespaceValid(namespace) && TagArguments(parser, namespace, name, argumentText).Success? {
      var node := OpenedNode(parser, namespace, name, ArgumentMap(TagArguments(parser, namespace, name, argumentText).value));
      if selfClosing {
        OpeningSelfClosing(parser, state, namespace, name, argumentText);
        var r := OpeningViewHelperTagHandler(parser, state, namespace, name, argumentText, true);
        if r.result.Success? {
          AttachedKeepsRoot(state, r.result.value.0,
                            CallInterceptor(parser.configuration, parser.escapingEnabled, node, ClosingViewHelperPoint).node);
        }
      } else {
        OpeningKeepsTagOpen(parser, state, namespace, name, argumentText);
        assert PushNodeToStack(state, node).nodeStack[0] == PushNodeToStack(state, node).nodeStack[..|state.nodeStack|][0];
      }
    } else if resolver.isNamespaceValid(namespace) {
      OpeningArgumentError(parser, state, namespace, name, argumentText, selfClosing);
    }
  }

  lemma ClosingKeepsRoot(parser: TemplateParser, state: ParsingState, namespace: string, name: string, source: string)
    requires RootAtBottom(state)
    ensures var r := HandleSegment(parser, state, ClosingTag(namespace, name, source)); r.Success? ==> RootAtBottom(r.value)
  {
    var resolver := parser.resolver;
    if resolver.isNamespaceIgnored(namespace) {
      HandleTextKeepsRoot(parser, state, source);
    } else if resolver.isNamespaceValid(namespace) {
      var top := state.nodeStack[|state.nodeStack| - 1];
      if IsViewHelper(top) && top.kind.className == resolver.resolveViewHelperClassName(namespace, name) {
        var r := ClosingViewHelperTagHandler(parser, state, namespace, name);
        if r.result.Success? {
          var popped := PopNodeFromStack(state).0;
          assert popped.nodeStack[0] == state.nodeStack[0];
          AttachedKeepsRoot(popped, r.result.value.0,
                            CallInterceptor(parser.configuration, parser.escapingEnabled, top, ClosingViewHelperPoint).node);
        }
      }
    }
  }

  // ---------------------------------------------------------------------------
  // What a pass builds

  /** Attaching to a stack that holds one node gives that node one more child. */
  lemma AttachedToSingle(before: ParsingState, after: ParsingState, child: Node)
    requires |before.nodeStack| == 1 && Attached(before, after, child)
    ensures after == before.(nodeStack := [AddChild(before.nodeStack[0], child)])
  {
    assert after.nodeStack == [after.nodeStack[0]];
  }

  /** Each text as a text segment. */
  function TextSegments(texts: seq<string>): (r: seq<Segment>)
    ensures |r| == |texts|
    decreases |texts|
  {
    if texts == [] then [] else [TextSegment(texts[0])] + TextSegments(texts[1..])
  }

  /** Each text as a text node. */
  function TextNodes(texts: seq<string>): (r: seq<Node>)
    ensures |r| == |texts|
    decreases |texts|
  {
    if texts == [] then [] else [TextNode(texts[0])] + TextNodes(texts[1..])
  }

  /** Without interceptors, a text segment adds its text node to the single open node. */
  lemma TextStep(parser: TemplateParser, state: ParsingState, text: string)
    requires parser.configuration.None? && |state.nodeStack| == 1
    ensures HandleSegment(parser, state, TextSegment(text))
            == Success(state.(nodeStack := [AddChild(state.nodeStack[0], TextNode(text))]))
  {
    var t := TextHandler(parser, state, text);
    AttachedToSingle(state, t.result.value.0, TextNode(text));
  }

  /**
   * Without interceptors, plain text segments become text nodes appended,
   * in order, to the single open node.
   */
  lemma {:induction false} TextsAttach(parser: TemplateParser, state: ParsingState, texts: seq<string>)
    requires parser.configuration.None? && |state.nodeStack| == 1
    ensures BuildFrom(parser, state, TextSegments(texts))
            == Success(state.(nodeStack := [state.nodeStack[0].(children := state.nodeStack[0].children + TextNodes(texts))]))
    decreases |texts|
  {
    var open := state.nodeStack[0];
    var segments := TextSegments(texts);
    if texts == [] {
      assert open.children + TextNodes(texts) == open.children;
      assert [open] == state.nodeStack;
    } else {
      var next := state.(nodeStack := [AddChild(open, TextNode(texts[0]))]);
      TextStep(parser, state, texts[0]);
      assert segments[1..] == TextSegments(texts[1..]);
      assert BuildFrom(parser, state, segments) == BuildFrom(parser, next, segments[1..]);
      TextsAttach(parser, next, texts[1..]);
      var added := AddChild(open, TextNode(texts[0]));
      AppendOne(open.children, TextNode(texts[0]), TextNodes(texts[1..]));
      assert added.children + TextNodes(texts[1..]) == open.children + TextNodes(texts);
      assert added.(children := added.children + TextNodes(texts[1..])) == open.(children := open.children + TextNodes(texts));
    }
  }

  lemma AppendOne<T>(a: seq<T>, x: T, b: seq<T>)
    ensures (a + [x]) + b == a + ([x] + b)
  {
  }

  /** A template of plain text only: the root holds one text node per segment. */
  lemma TextOnlyTree(parser: TemplateParser, texts: seq<string>)
    requires parser.configuration.None?
    ensures var root := Node(Root(map[]), TextNodes(texts));
            BuildObjectTree(parser, TextSegments(texts)) == Success(ParsingState("", root, [root], None, false))
  {
    var start := NewParsingState();
    TextsAttach(parser, start, texts);
    assert [] + TextNodes(texts) == TextNodes(texts);
  }

  /** A tag that opens and is never closed leaves two nodes open, so the pass fails. */
  lemma UnclosedTag(parser: TemplateParser, namespace: string, name: string, argumentText: string, source: string)
    requires !parser.resolver.isNamespaceIgnored(namespace) && parser.resolver.isNamespaceValid(namespace)
    requires TagArguments(parser, namespace, name, argumentText).Success?
    ensures BuildObjectTree(parser, [OpeningTag(namespace, name, argumentText, false, source)]) == Failure(NotAllTagsClosed)
  {
    OpeningKeepsTagOpen(parser, NewParsingState(), namespace, name, argumentText);
    var r := OpeningViewHelperTagHandler(parser, NewParsingState(), namespace, name, argumentText, false);
    var segments := [OpeningTag(namespace, name, argumentText, false, source)];
    assert BuildFrom(parser, NewParsingState(), segments) == BuildFrom(parser, r.result.value.0, segments[1..]);
  }

  /** A tag written without arguments has none, as long as none is required. */
  lemma NoArgumentText(parser: TemplateParser, namespace: string, name: string)
    requires var className := parser.resolver.resolveViewHelperClassName(namespace, name);
             forall d :: d in parser.resolver.argumentDefinitions(className) ==> !d.required
    ensures TagArguments(parser, namespace, name, "") == Success([])
  {
    var className := parser.resolver.resolveViewHelperClassName(namespace, name);
    var definitions := parser.resolver.argumentDefinitions(className);
    assert SplitArguments("", 0) == [];
    assert CoerceAll([], definitions, ToBooleanNode) == [];
  }

  /** `<f:render>` on its own is never closed. */
  lemma UnclosedRenderExample(parser: TemplateParser)
    requires !parser.resolver.isNamespaceIgnored("f") && parser.resolver.isNamespaceValid("f")
    requires var className := parser.resolver.resolveViewHelperClassName("f", "render");
             forall d :: d in parser.resolver.argumentDefinitions(className) ==> !d.required
    ensures BuildObjectTree(parser, [OpeningTag("f", "render", "", false, "<f:render>")]) == Failure(NotAllTagsClosed)
  {
    NoArgumentText(parser, "f", "render");
    UnclosedTag(parser, "f", "render", "", "<f:render>");
  }

  /**
   * Opening a tag and closing it in the next segment builds the same state
   * as the tag written self-closing, failures included, as long as the node
   * the tag opened is a view helper of the class the closing tag resolves to.
   */
  lemma OpenThenCloseSegments(parser: TemplateParser, state: ParsingState, namespace: string, name: string, argumentText: string,
                              openSource: string, closeSource: string)
    requires !parser.resolver.isNamespaceIgnored(namespace) && parser.resolver.isNamespaceValid(namespace)
    requires TagArguments(parser, namespace, name, argumentText).Success?
    requires var node := OpenedNode(parser, namespace, name, ArgumentMap(TagArguments(parser, namespace, name, argumentText).value));
             IsViewHelper(node) && node.kind.className == parser.resolver.resolveViewHelperClassName(namespace, name)
    ensures BuildFrom(parser, state, [OpeningTag(namespace, name, argumentText, false, openSource),
                                      ClosingTag(namespace, name, closeSource)])
            == BuildFrom(parser, state, [OpeningTag(namespace, name, argumentText, true, openSource)])
  {
    var node := OpenedNode(parser, namespace, name, ArgumentMap(TagArguments(parser, namespace, name, argumentText).value));
    var pushed := PushNodeToStack(state, node);
    var opening := [OpeningTag(namespace, name, argumentText, false, openSource), ClosingTag(namespace, name, closeSource)];
    var selfClosing := [OpeningTag(namespace, name, argumentText, true, openSource)];
    OpeningKeepsTagOpen(parser, state, namespace, name, argumentText);
    assert HandleSegment(parser, state, opening[0]) == Success(pushed);
    ClosingSegmentClosesSelf(parser, state, namespace, name, argumentText, openSource, closeSource);
    assert BuildFrom(parser, state, opening) == BuildFrom(parser, pushed, opening[1..]);
    assert opening[1..][1..] == [] && selfClosing[1..] == [];
  }

  /** The closing segment after the opened tag does what the self-closing segment does. */
  lemma ClosingSegmentClosesSelf(parser: TemplateParser, state: ParsingState, namespace: string, name: string,
                                 argumentText: string, openSource: string, closeSource: string)
    requires !parser.resolver.isNamespaceIgnored(namespace) && parser.resolver.isNamespaceValid(namespace)
    requires TagArguments(parser, namespace, name, argumentText).Success?
    requires var node := OpenedNode(parser, namespace, name, ArgumentMap(TagArguments(parser, namespace, name, argumentText).value));
             IsViewHelper(node) && node.kind.className == parser.resolver.resolveViewHelperClassName(namespace, name)
    ensures var node := OpenedNode(parser, namespace, name, ArgumentMap(TagArguments(parser, namespace, name, argumentText).value));
            HandleSegment(parser, PushNodeToStack(state, node), ClosingTag(namespace, name, closeSource))
            == HandleSegment(parser, state, OpeningTag(namespace, name, argumentText, true, openSource))
  {
    var node := OpenedNode(parser, namespace, name, ArgumentMap(TagArguments(parser, namespace, name, argumentText).value));
    var pushed := PushNodeToStack(state, node);
    OpeningSelfClosing(parser, state, namespace, name, argumentText);
    OpenThenClose(parser, state, namespace, name, argumentText);
    OpeningKeepsTagOpen(parser, state, namespace, name, argumentText);
    var c := ClosingViewHelperTagHandler(parser, pushed, namespace, name);
    var sc := OpeningViewHelperTagHandler(parser, state, namespace, name, argumentText, true);
    assert c.result.Success? <==> sc.result.Success?;
  }
}
