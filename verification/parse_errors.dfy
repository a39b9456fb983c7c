/**
 * The fatal conditions of one parse pass. Each stands for an exception the
 * parser throws; the pass stops at the first one.
 */
module ParseErrors {

  datatype ParseError =
      /** A tag uses a namespace prefix that is neither declared nor ignored. */
    | UnknownNamespace(namespace: string)
      /** A closing tag found no view helper open. */
    | ClosingTagNeverOpened
      /** A closing tag names a different view helper than the one open. */
    | WrongTagNesting(expected: string, actual: string)
      /** The template ended with tags still open. */
    | NotAllTagsClosed
      /** A node was to be attached to the open node, but none was open (a call on `null` in PHP). */
    | NoOpenNode
      /** A required argument was not given. */
    | MissingRequiredArgument(name: string)
      /** The view helper rejected arguments it does not declare. */
    | UndeclaredArguments(names: seq<string>)
}
