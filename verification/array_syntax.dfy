/**
 * Array literals as trees, the text each tree is written as, and the array
 * each tree stands for. The parser's promises are stated against these: the
 * text written for a well-formed tree is read back as the array the tree
 * stands for.
 */
module ArraySyntax {
  import opened Wrappers
  import opened PhpArrays
  import opened Nodes
  import opened Scanning
  import opened Quoting
  import opened QuotedTokens
  import opened ArgumentTrees
  import opened Texts

  datatype Literal =
      /** A variable path such as `some.identifier` */
    | PathLit(path: string)
      /** A quoted string, written piece by piece between quotes `q` */
    | StrLit(q: char, pieces: seq<Piece>)
      /** A sub-array `{...}` */
    | BracesLit(items: seq<Item>)
      /** A non-negative integer in decimal digits */
    | IntLit(digits: string)

  /** One entry of an array literal; without a key it is appended. */
  datatype Item = Item(key: Option<string>, value: Literal)

  // ---------------------------------------------------------------------------
  // Writing a literal out: `key: value` items separated by `, `

  /** `acc` followed by the items. */
  function WriteItems(acc: string, items: seq<Item>): string
    decreases items, 1
  {
    if items == [] then acc
    else if |items| == 1 then WriteItem(acc, items[0])
    else WriteItems(WriteItem(acc, items[0]) + ", ", items[1..])
  }

  /** `acc` followed by one item. */
  function WriteItem(acc: string, it: Item): string
    decreases it, 0
  {
    match it.key
    case Some(k) => WriteLiteral(acc + k + ": ", it.value)
    case None => WriteLiteral(acc, it.value)
  }

  /** `acc` followed by one value. */
  function WriteLiteral(acc: string, v: Literal): string
    decreases v, 2
  {
    match v
    case PathLit(p) => acc + p
    case StrLit(q, ps) => WriteEscaped(acc + [q], q, ps) + [q]
    case BracesLit(items) => WriteItems(acc + "{", items) + "}"
    case IntLit(d) => acc + d
  }

  function Show(items: seq<Item>): string {
    WriteItems("", items)
  }

  function ShowItem(it: Item): string {
    WriteItem("", it)
  }

  function ShowLiteral(v: Literal): string {
    WriteLiteral("", v)
  }

  lemma {:induction false} WriteItemsOnto(acc: string, items: seq<Item>)
    ensures WriteItems(acc, items) == acc + Show(items)
    decreases items, 1
  {
    if |items| == 1 {
      WriteItemOnto(acc, items[0]);
    } else if |items| > 1 {
      var it := items[0];
      WriteItemOnto(acc, it);
      WriteItemsOnto(WriteItem(acc, it) + ", ", items[1..]);
      WriteItemsOnto(ShowItem(it) + ", ", items[1..]);
    }
  }

  lemma {:induction false} WriteItemOnto(acc: string, it: Item)
    ensures WriteItem(acc, it) == acc + ShowItem(it)
    decreases it, 0
  {
    match it.key
    case Some(k) =>
      WriteLiteralOnto(acc + k + ": ", it.value);
      WriteLiteralOnto("" + k + ": ", it.value);
    case None =>
      WriteLiteralOnto(acc, it.value);
  }

  lemma {:induction false} WriteLiteralOnto(acc: string, v: Literal)
    ensures WriteLiteral(acc, v) == acc + ShowLiteral(v)
    decreases v, 2
  {
    match v
    case PathLit(p) =>
    case StrLit(q, ps) =>
      WriteStringOnto(acc, q, ps);
    case BracesLit(items) =>
      WriteBracesOnto(acc, items);
    case IntLit(d) =>
  }

  lemma WriteStringOnto(acc: string, q: char, ps: seq<Piece>)
    ensures WriteLiteral(acc, StrLit(q, ps)) == acc + ShowLiteral(StrLit(q, ps))
  {
    var c := Concat(EscapeEach(q, ps));
    assert WriteEscaped(acc + [q], q, ps) == acc + [q] + c by {
      WriteEscapedIsConcat(acc + [q], q, ps);
    }
    assert WriteEscaped("" + [q], q, ps) == [q] + c by {
      WriteEscapedIsConcat("" + [q], q, ps);
      assert "" + [q] == [q];
    }
  }

  lemma {:induction false} WriteBracesOnto(acc: string, items: seq<Item>)
    ensures WriteLiteral(acc, BracesLit(items)) == acc + ShowLiteral(BracesLit(items))
    decreases BracesLit(items), 1
  {
    WriteItemsOnto(acc + "{", items);
    assert "" + "{" == "{";
    WriteItemsOnto("{", items);
  }

  /** The text of a keyed item: the key, `: `, the value. */
  lemma ShowKeyed(k: string, v: Literal)
    ensures ShowItem(Item(Some(k), v)) == k + ": " + ShowLiteral(v)
  {
    WriteLiteralOnto("" + k + ": ", v);
    assert "" + k + ": " == k + ": ";
  }

  lemma ShowKeyless(v: Literal)
    ensures ShowItem(Item(None, v)) == ShowLiteral(v)
  {
  }

  /** The text of a sub-array: its items between braces. */
  lemma ShowBraces(items: seq<Item>)
    ensures ShowLiteral(BracesLit(items)) == "{" + Show(items) + "}"
  {
    assert "" + "{" == "{";
    WriteItemsOnto("{", items);
  }

  lemma ShowString(q: char, ps: seq<Piece>)
    ensures ShowLiteral(StrLit(q, ps)) == WriteEscaped([q], q, ps) + [q]
  {
    assert "" + [q] == [q];
    assert WriteLiteral("", StrLit(q, ps)) == WriteEscaped("" + [q], q, ps) + [q];
  }

  /** The text of a list of more than one item: the first item, `, `, the rest. */
  lemma ShowCons(items: seq<Item>)
    requires |items| > 1
    ensures Show(items) == ShowItem(items[0]) + ", " + Show(items[1..])
  {
    WriteItemOnto("", items[0]);
    WriteItemsOnto(ShowItem(items[0]) + ", ", items[1..]);
  }

  /** Two non-empty lists written one after the other, separated by `, `. */
  lemma {:induction false} ShowAppend(a: seq<Item>, b: seq<Item>)
    requires a != [] && b != []
    ensures Show(a + b) == Show(a) + ", " + Show(b)
    decreases |a|
  {
    var ab := a + b;
    ShowCons(ab);
    assert ab[0] == a[0];
    if |a| == 1 {
      assert ab[1..] == b;
    } else {
      assert ab[1..] == a[1..] + b;
      ShowAppend(a[1..], b);
      ShowCons(a);
    }
  }

  // ---------------------------------------------------------------------------
  // Well-formed trees

  /** No run of a quoted string leaves a brace unmatched. */
  predicate BalancedRuns(ps: seq<Piece>) {
    forall k :: 0 <= k < |ps| && ps[k].Run? ==> Balanced(ps[k].text)
  }

  predicate WellFormedLiteral(v: Literal)
    decreases v, 1
  {
    match v
    case PathLit(p) => |p| > 0 && IsLetter(p[0]) && AllIn(p, PathChars)
    case StrLit(q, ps) => IsQuote(q) && PlainRuns(q, ps) && BalancedRuns(ps)
    case BracesLit(items) => WellFormedItems(items)
    case IntLit(d) => |d| > 0 && AllDigits(d)
  }

  predicate WellFormedItem(it: Item)
    decreases it, 2
  {
    (it.key.Some? ==> |it.key.value| > 0 && AllIn(it.key.value, KeyChars)) && WellFormedLiteral(it.value)
  }

  predicate WellFormedItems(items: seq<Item>)
    decreases items, 3
  {
    forall k :: 0 <= k < |items| ==> WellFormedItem(items[k])
  }

  // ---------------------------------------------------------------------------
  // Braces in written literals

  lemma {:induction false} BalancedEscaped(acc: string, q: char, ps: seq<Piece>)
    requires IsQuote(q) && Balanced(acc) && BalancedRuns(ps)
    ensures Balanced(WriteEscaped(acc, q, ps))
    decreases |ps|
  {
    if ps != [] {
      var e := EscapePiece(q, ps[0]);
      match ps[0] {
        case Run(t) =>
        case QuoteMark => NoBracesBalanced(e);
        case BackslashMark => NoBracesBalanced(e);
      }
      BalancedConcat(acc, e);
      assert BalancedRuns(ps[1..]) by {
        assert forall k :: 0 <= k < |ps| - 1 ==> ps[1..][k] == ps[k + 1];
      }
      BalancedEscaped(acc + e, q, ps[1..]);
    }
  }

  /** A text of characters from one class other than braces is balanced. */
  lemma ClassBalanced(x: string, cls: CharClass)
    requires AllIn(x, cls) && cls != Spaces
    ensures Balanced(x)
  {
    NoBracesBalanced(x);
  }

  lemma {:induction false} BalancedItems(items: seq<Item>)
    requires WellFormedItems(items)
    ensures Balanced(Show(items))
    decreases items, 1
  {
    if |items| == 1 {
      BalancedItem(items[0]);
    } else if |items| > 1 {
      ShowCons(items);
      BalancedItem(items[0]);
      NoBracesBalanced(", ");
      BalancedItems(items[1..]);
      BalancedConcat(ShowItem(items[0]), ", ");
      BalancedConcat(ShowItem(items[0]) + ", ", Show(items[1..]));
    } else {
      NoBracesBalanced("");
    }
  }

  lemma {:induction false} BalancedItem(it: Item)
    requires WellFormedItem(it)
    ensures Balanced(ShowItem(it))
    decreases it, 0
  {
    BalancedLiteral(it.value);
    match it.key
    case Some(k) =>
      ShowKeyed(k, it.value);
      ClassBalanced(k, KeyChars);
      NoBracesBalanced(": ");
      BalancedConcat(k, ": ");
      BalancedConcat(k + ": ", ShowLiteral(it.value));
    case None =>
  }

  lemma {:induction false} BalancedLiteral(v: Literal)
    requires WellFormedLiteral(v)
    ensures Balanced(ShowLiteral(v))
    decreases v, 2
  {
    match v
    case PathLit(p) =>
      assert ShowLiteral(v) == p;
      ClassBalanced(p, PathChars);
    case StrLit(q, ps) =>
      ShowString(q, ps);
      NoBracesBalanced([q]);
      BalancedEscaped([q], q, ps);
      BalancedConcat(WriteEscaped([q], q, ps), [q]);
    case BracesLit(items) =>
      ShowBraces(items);
      BalancedItems(items);
      BalancedWrap(Show(items));
    case IntLit(d) =>
      assert ShowLiteral(v) == d;
      assert AllIn(d, Digits);
      ClassBalanced(d, Digits);
  }

  // ---------------------------------------------------------------------------
  // What a tree stands for

  /** The value a literal stands for; strings become nodes as argument values do. */
  function Meaning(v: Literal, parseTemplate: string -> Node): (r: ArrayValue)
    decreases v, 2
  {
    match v
    case PathLit(p) => Element(ObjectAccessorNode(p))
    case StrLit(q, ps) => Element(BuildArgumentObjectTree(WriteText([], q, ps), parseTemplate))
    case BracesLit(items) => Element(ArrayNode(Interpret(items, parseTemplate)))
    case IntLit(d) => if AllDigits(d) then Number(DigitsValue(d)) else Number(0)
  }

  /** `$a[key] = value`, or `$a[] = value` for an item without a key. */
  function Assign(acc: seq<Entry<ArrayValue>>, it: Item, parseTemplate: string -> Node): seq<Entry<ArrayValue>>
    decreases it, 1
  {
    var v := Meaning(it.value, parseTemplate);
    match it.key
    case Some(k) => Put(acc, NormalizeKey(k), v)
    case None => Append(acc, v)
  }

  /** The items written into `acc` in order. */
  function InterpretOnto(acc: seq<Entry<ArrayValue>>, items: seq<Item>, parseTemplate: string -> Node)
    : (r: seq<Entry<ArrayValue>>)
    decreases items, 0
  {
    if items == [] then acc else InterpretOnto(Assign(acc, items[0], parseTemplate), items[1..], parseTemplate)
  }

  function Interpret(items: seq<Item>, parseTemplate: string -> Node): seq<Entry<ArrayValue>>
    decreases items, 3
  {
    InterpretOnto([], items, parseTemplate)
  }

  lemma {:induction false} InterpretAppend(acc: seq<Entry<ArrayValue>>, a: seq<Item>, b: seq<Item>, parseTemplate: string -> Node)
    ensures InterpretOnto(acc, a + b, parseTemplate) == InterpretOnto(InterpretOnto(acc, a, parseTemplate), b, parseTemplate)
    decreases |a|
  {
    if a == [] {
      assert a + b == b;
    } else {
      assert (a + b)[0] == a[0] && (a + b)[1..] == a[1..] + b;
      InterpretAppend(Assign(acc, a[0], parseTemplate), a[1..], b, parseTemplate);
    }
  }
}
