/**
 * The syntax tree the parser builds. Every node can hold child nodes, as
 * every node class shares one base that appends children; what a node is
 * (text, number, accessor, array, view helper, root, ...) is its `kind`.
 */
module Nodes {
  import opened Wrappers
  import opened PhpArrays

  datatype Node = Node(kind: Kind, children: seq<Node>)

  datatype Kind =
      /** The top of a template; named children (such as a layout name) are addressed by name. */
    | Root(named: map<string, Node>)
      /** A string literal. */
    | Text(text: string)
      /** An integer literal. */
    | Numeric(number: int)
      /** Truthiness of its single child. */
    | Boolean
      /** A dotted variable path resolved at render time. */
    | ObjectAccessor(path: string)
      /** An array literal. */
    | ArrayKind(entries: seq<Entry<ArrayValue>>)
      /** A tag invocation: namespace prefix, local name, resolved class and its arguments. */
    | ViewHelper(namespace: string, name: string, className: string, arguments: map<string, Node>)
      /** A node of a class this model does not interpret. */
    | Foreign(tag: nat)

  /** What an array literal holds under a key: a plain integer or a node. */
  datatype ArrayValue = Number(n: int) | Element(node: Node)

  function TextNode(text: string): Node {
    Node(Text(text), [])
  }

  function NumericNode(n: int): Node {
    Node(Numeric(n), [])
  }

  function BooleanNode(child: Node): Node {
    Node(Boolean, [child])
  }

  function ObjectAccessorNode(path: string): Node {
    Node(ObjectAccessor(path), [])
  }

  function ArrayNode(entries: seq<Entry<ArrayValue>>): Node {
    Node(ArrayKind(entries), [])
  }

  function RootNode(): Node {
    Node(Root(map[]), [])
  }

  function ViewHelperNode(namespace: string, name: string, className: string, arguments: map<string, Node>): Node {
    Node(ViewHelper(namespace, name, className, arguments), [])
  }

  predicate IsViewHelper(n: Node) {
    n.kind.ViewHelper?
  }

  /** `addChildNode`: the child goes after the existing ones; nothing else about the parent changes. */
  function AddChild(parent: Node, child: Node): (r: Node)
    ensures r.kind == parent.kind
    ensures |r.children| == |parent.children| + 1
    ensures r.children[..|parent.children|] == parent.children
    ensures r.children[|parent.children|] == child
  {
    parent.(children := parent.children + [child])
  }

  /** The named child `name` of a root node; `None` stands for the "child not found" signal. */
  function GetNamedChild(root: Node, name: string): (r: Option<Node>)
    ensures r.Some? <==> root.kind.Root? && name in root.kind.named
    ensures r.Some? ==> r.value == root.kind.named[name]
  {
    if root.kind.Root? && name in root.kind.named then Some(root.kind.named[name]) else None
  }
}
