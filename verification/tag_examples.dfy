/**
 * Closing tags that do not fit the open node, as the handler sees them
 * for the tag `f:render`.
 */
module TagExamples {
  import opened Wrappers
  import opened Nodes
  import opened ParsingStates
  import opened ParseErrors
  import opened Calls
  import opened TemplateParsers

  /** Closing `f:render` with only the root open: the root is popped once and the tag was never opened. */
  lemma ClosingNeverOpenedExample(parser: TemplateParser)
    requires !parser.resolver.isNamespaceIgnored("f") && parser.resolver.isNamespaceValid("f")
    ensures var r := ClosingViewHelperTagHandler(parser, NewParsingState(), "f", "render");
            r.result == Failure(ClosingTagNeverOpened) && Count(r.calls, PopNode) == 1
  {
    ClosingPopsOnce(parser, NewParsingState(), "f", "render");
  }

  /**
   * Closing `f:render` while a view helper of another class is open: popped
   * once, and the error names both classes.
   */
  lemma WrongTagNestingExample(parser: TemplateParser, open: Node)
    requires !parser.resolver.isNamespaceIgnored("f") && parser.resolver.isNamespaceValid("f")
    requires IsViewHelper(open) && open.kind.className != parser.resolver.resolveViewHelperClassName("f", "render")
    ensures var state := PushNodeToStack(NewParsingState(), open);
            var r := ClosingViewHelperTagHandler(parser, state, "f", "render");
            r.result == Failure(WrongTagNesting(open.kind.className, parser.resolver.resolveViewHelperClassName("f", "render")))
            && Count(r.calls, PopNode) == 1
  {
    ClosingPopsOnce(parser, PushNodeToStack(NewParsingState(), open), "f", "render");
  }
}
