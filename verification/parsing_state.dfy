/**
 * The state of one parsing pass: an identifier, the root node, the stack of
 * currently open nodes, an optional variable container and a `compiled` flag.
 * Object references become values: the stack holds the nodes themselves.
 */
module ParsingStates {
  import opened Wrappers
  import opened Nodes

  /** A variable container: the standard provider with its variables, or one injected by the caller. */
  datatype VariableProvider =
    | StandardVariableProvider(variables: map<string, string>)
    | InjectedProvider(id: nat)

  datatype ParsingState = ParsingState(
    identifier: string,
    rootNode: Node,
    nodeStack: seq<Node>,
    variableContainer: Option<VariableProvider>,
    compiled: bool)

  /** A fresh state: a new root node that is also the only open node. */
  function NewParsingState(): (s: ParsingState)
    ensures s.nodeStack == [s.rootNode]
    ensures CountNodeStack(s) == 1
    ensures GetNodeFromStack(s) == Some(s.rootNode)
    ensures s.rootNode.kind.Root? && s.rootNode.children == []
    ensures GetIdentifier(s) == ""
    ensures !s.compiled
    ensures s.variableContainer.None?
  {
    var root := RootNode();
    ParsingState("", root, [root], None, false)
  }

  /** Sets the identifier; reading it back gives what was set. */
  function SetIdentifier(s: ParsingState, identifier: string): (r: ParsingState)
    ensures GetIdentifier(r) == identifier
    ensures r.rootNode == s.rootNode && r.nodeStack == s.nodeStack
    ensures r.variableContainer == s.variableContainer && r.compiled == s.compiled
  {
    s.(identifier := identifier)
  }

  function GetIdentifier(s: ParsingState): string {
    s.identifier
  }

  /** Injects a variable container; the state hands out that container from then on. */
  function SetVariableProvider(s: ParsingState, provider: VariableProvider): (r: ParsingState)
    ensures GetVariableContainer(r) == provider
    ensures r.identifier == s.identifier && r.rootNode == s.rootNode && r.nodeStack == s.nodeStack
    ensures r.compiled == s.compiled
  {
    s.(variableContainer := Some(provider))
  }

  /** Replaces the root node; the open-node stack keeps whatever it held. */
  function SetRootNode(s: ParsingState, root: Node): (r: ParsingState)
    ensures GetRootNode(r) == root
    ensures r.nodeStack == s.nodeStack
    ensures r.identifier == s.identifier && r.variableContainer == s.variableContainer
    ensures r.compiled == s.compiled
  {
    s.(rootNode := root)
  }

  function GetRootNode(s: ParsingState): Node {
    s.rootNode
  }

  /** Opens `n`: it becomes the top, everything below stays as it was. */
  function PushNodeToStack(s: ParsingState, n: Node): (r: ParsingState)
    ensures GetNodeFromStack(r) == Some(n)
    ensures CountNodeStack(r) == CountNodeStack(s) + 1
    ensures r.nodeStack[..|s.nodeStack|] == s.nodeStack
    ensures r.identifier == s.identifier && r.rootNode == s.rootNode
    ensures r.variableContainer == s.variableContainer && r.compiled == s.compiled
  {
    s.(nodeStack := s.nodeStack + [n])
  }

  /** The top of the stack without removing it; `None` (PHP's `null`) when nothing is open. */
  function GetNodeFromStack(s: ParsingState): (r: Option<Node>)
    ensures r.None? <==> s.nodeStack == []
    ensures r.Some? ==> r.value == s.nodeStack[|s.nodeStack| - 1]
  {
    if s.nodeStack == [] then None else Some(s.nodeStack[|s.nodeStack| - 1])
  }

  /**
   * Removes the top and returns it together with the new state. An empty
   * stack yields `None` and stays empty.
   */
  function PopNodeFromStack(s: ParsingState): (r: (ParsingState, Option<Node>))
    ensures r.1 == GetNodeFromStack(s)
    ensures s.nodeStack == [] ==> r.0 == s
    ensures s.nodeStack != [] ==> r.0.nodeStack == s.nodeStack[..|s.nodeStack| - 1]
    ensures s.nodeStack != [] ==> CountNodeStack(r.0) == CountNodeStack(s) - 1
    ensures r.0.identifier == s.identifier && r.0.rootNode == s.rootNode
    ensures r.0.variableContainer == s.variableContainer && r.0.compiled == s.compiled
  {
    if s.nodeStack == [] then (s, None)
    else (s.(nodeStack := s.nodeStack[..|s.nodeStack| - 1]), Some(s.nodeStack[|s.nodeStack| - 1]))
  }

  /** The number of open nodes. */
  function CountNodeStack(s: ParsingState): (n: nat)
    ensures n == 0 <==> GetNodeFromStack(s).None?
  {
    |s.nodeStack|
  }

  /** The injected variable container, or a fresh, empty standard provider when none was injected. */
  function GetVariableContainer(s: ParsingState): (r: VariableProvider)
    ensures s.variableContainer.Some? ==> r == s.variableContainer.value
    ensures s.variableContainer.None? ==> r == StandardVariableProvider(map[])
  {
    s.variableContainer.GetOr(StandardVariableProvider(map[]))
  }

  /** `getNamedChild`: the root's child declared under `name`; `None` stands for the not-found exception. */
  function GetNamedChildOfState(s: ParsingState, name: string): (r: Option<Node>)
    ensures r.Some? <==> s.rootNode.kind.Root? && name in s.rootNode.kind.named
    ensures r.Some? ==> r.value == s.rootNode.kind.named[name]
  {
    GetNamedChild(s.rootNode, name)
  }

  /**
   * The layout name: the root's `layoutName` child, executed by `execute`
   * (rendering is outside this model; `None` from it stands for a child that
   * renders to null), or `None` when the root has no such child.
   */
  function GetLayoutName(s: ParsingState, execute: Node -> Option<string>): (r: Option<string>)
    ensures !(s.rootNode.kind.Root? && "layoutName" in s.rootNode.kind.named) ==> r.None?
    ensures s.rootNode.kind.Root? && "layoutName" in s.rootNode.kind.named ==>
              r == execute(s.rootNode.kind.named["layoutName"])
  {
    match GetNamedChildOfState(s, "layoutName")
    case Some(layoutName) => execute(layoutName)
    case None => None
  }

  // ---------------------------------------------------------------------------
  // Properties relating several operations

  /** Pushing then popping gives back the pushed node and the state before the push. */
  lemma PushThenPop(s: ParsingState, n: Node)
    ensures PopNodeFromStack(PushNodeToStack(s, n)) == (s, Some(n))
  {
    assert (s.nodeStack + [n])[..|s.nodeStack|] == s.nodeStack;
  }

  /** Popping a non-empty stack and pushing the popped node back restores the state. */
  lemma PopThenPush(s: ParsingState)
    requires CountNodeStack(s) > 0
    ensures var (s', top) := PopNodeFromStack(s); top.Some? && PushNodeToStack(s', top.value) == s
  {
    var (s', top) := PopNodeFromStack(s);
    assert s'.nodeStack + [top.value] == s.nodeStack;
  }

  /** A popped node was the last one pushed: pushes and pops nest like brackets. */
  lemma {:induction false} PushesThenPops(s: ParsingState, ns: seq<Node>)
    ensures CountNodeStack(PushAll(s, ns)) == CountNodeStack(s) + |ns|
    ensures PopN(PushAll(s, ns), |ns|) == s
    decreases |ns|
  {
    if ns != [] {
      var last := ns[|ns| - 1];
      var s1 := PushAll(s, ns[..|ns| - 1]);
      PushesThenPops(s, ns[..|ns| - 1]);
      PushThenPop(s1, last);
    }
  }

  /** The layout name is read from whatever root was set last. */
  lemma LayoutNameOfRoot(s: ParsingState, named: map<string, Node>, children: seq<Node>, execute: Node -> Option<string>)
    ensures GetLayoutName(SetRootNode(s, Node(Root(named), children)), execute)
            == if "layoutName" in named then execute(named["layoutName"]) else None
  {
  }

  /** Opening and closing nodes never changes the layout name. */
  lemma LayoutNameIgnoresStack(s: ParsingState, n: Node, execute: Node -> Option<string>)
    ensures GetLayoutName(PushNodeToStack(s, n), execute) == GetLayoutName(s, execute)
    ensures GetLayoutName(PopNodeFromStack(s).0, execute) == GetLayoutName(s, execute)
  {
  }

  /** Pushes every node of `ns` in order. */
  function PushAll(s: ParsingState, ns: seq<Node>): ParsingState
    decreases |ns|
  {
    if ns == [] then s else PushNodeToStack(PushAll(s, ns[..|ns| - 1]), ns[|ns| - 1])
  }

  /** Pops `k` times. */
  function PopN(s: ParsingState, k: nat): ParsingState
    decreases k
  {
    if k == 0 then s else PopN(PopNodeFromStack(s).0, k - 1)
  }
}
