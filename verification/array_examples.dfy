/**
 * The arrays the parser reads from the texts of its array-handler examples
 * (TemplateParserTest.php, `dataProviderRecursiveArrayHandler`). Each text is
 * the one written for a small tree of items, so its meaning follows from
 * `ReadsBack` or, for a quoted sub-array, from `Spreads`.
 */
module ArrayExamples {
  import opened Wrappers
  import opened PhpArrays
  import opened Nodes
  import opened Scanning
  import opened Quoting
  import opened QuotedTokens
  import opened ArgumentTrees
  import opened ArrayLiterals
  import opened ArraySyntax
  import opened ArrayReading
  import opened ArraySpread

  const Q: char := '\''

  // ---------------------------------------------------------------------------
  // The items the examples are made of

  function NumberItem(d: string): Item {
    Item(Some("number"), IntLit(d))
  }

  const SomeString: Literal := StrLit(Q, [Run("some.string")])
  const SomeIdentifier: Literal := PathLit("some.identifier")

  /** `number: d, string: 'some.string', identifier: some.identifier` */
  function Flat(d: string): seq<Item> {
    [NumberItem(d), Item(Some("string"), SomeString), Item(Some("identifier"), SomeIdentifier)]
  }

  /** `0: d, 1: 'some.string', 2: some.identifier` */
  function Indexed(d: string): seq<Item> {
    [Item(Some("0"), IntLit(d)), Item(Some("1"), SomeString), Item(Some("2"), SomeIdentifier)]
  }

  /** `number: d, string: 'some.string', identifier: some.identifier`, cut where the items and their parts meet */
  function FlatText(d: string): string {
    "number: " + d + ", " + "string: 'some.string'" + ", " + "identifier: some.identifier"
  }

  /** `0: d, 1: 'some.string', 2: some.identifier`, cut the same way */
  function IndexedText(d: string): string {
    "0: " + d + ", " + "1: 'some.string'" + ", " + "2: some.identifier"
  }

  /** `array: {number: 123, string: 'some.string', identifier: some.identifier}` */
  const ArrayItem: Item := Item(Some("array"), BracesLit(Flat("123")))

  /** The flat items followed by a sub-array of them. */
  const Mixed: seq<Item> := Flat("123") + [ArrayItem]

  /** `variableIdentifier: '{some.{index}}'` */
  const VariableItem: Item := Item(Some("variableIdentifier"), StrLit(Q, [Run("{some.{index}}")]))

  const StringValue: ArrayValue := Element(TextNode("some.string"))
  const IdentifierValue: ArrayValue := Element(ObjectAccessorNode("some.identifier"))

  function IndexedEntries(n: nat): seq<Entry<ArrayValue>> {
    [Entry(IntKey(0), Number(n)), Entry(IntKey(1), StringValue), Entry(IntKey(2), IdentifierValue)]
  }

  function FlatEntries(n: nat): seq<Entry<ArrayValue>> {
    [Entry(StringKey("number"), Number(n)), Entry(StringKey("string"), StringValue), Entry(StringKey("identifier"), IdentifierValue)]
  }

  function MixedEntries(): seq<Entry<ArrayValue>> {
    FlatEntries(123) + [Entry(StringKey("array"), Element(ArrayNode(FlatEntries(123))))]
  }

  /** What the template parser makes of `{some.{index}}`: a root node holding the accessor `some.{index}`. */
  function IndexedAccessor(): Node {
    AddChild(RootNode(), ObjectAccessorNode("some.{index}"))
  }

  // ---------------------------------------------------------------------------
  // Steps shared by the examples

  lemma NamedKey(s: string)
    requires |s| > 0 && IsLetter(s[0])
    ensures NormalizeKey(s) == StringKey(s)
  {
    assert !IsDigit(s[0]);
  }

  lemma AssignFresh(acc: seq<Entry<ArrayValue>>, k: string, v: Literal, parseTemplate: string -> Node)
    requires !HasKey(acc, NormalizeKey(k))
    ensures Assign(acc, Item(Some(k), v), parseTemplate) == acc + [Entry(NormalizeKey(k), Meaning(v, parseTemplate))]
  {
  }

  lemma InterpretStep(acc: seq<Entry<ArrayValue>>, items: seq<Item>, parseTemplate: string -> Node)
    requires items != []
    ensures InterpretOnto(acc, items, parseTemplate) == InterpretOnto(Assign(acc, items[0], parseTemplate), items[1..], parseTemplate)
  {
  }

  lemma ThreeDigits(d: string, parseTemplate: string -> Node)
    requires |d| == 3 && AllDigits(d)
    ensures Meaning(IntLit(d), parseTemplate) == Number((d[0] - '0') as nat * 100 + (d[1] - '0') as nat * 10 + (d[2] - '0') as nat)
  {
    assert DigitsValue(d[..1]) == (d[0] - '0') as nat by { assert d[..1][..0] == []; }
    assert d[..2][..1] == d[..1];
    assert DigitsValue(d[..2]) == DigitsValue(d[..1]) * 10 + (d[1] - '0') as nat;
  }

  lemma SomeStringMeaning(parseTemplate: string -> Node)
    ensures Meaning(SomeString, parseTemplate) == StringValue
  {
    var t := "some.string";
    assert [Run(t)][1..] == [];
    assert WriteText([], Q, [Run(t)]) == t;
    assert !HasDynamicMarker(t);
    assert !IsDigit(t[0]);
  }

  lemma SomeStringText()
    ensures ShowLiteral(SomeString) == "'some.string'"
  {
    ShowString(Q, [Run("some.string")]);
    assert [Run("some.string")][1..] == [];
  }

  lemma WellFormedParts()
    ensures WellFormedLiteral(SomeString) && WellFormedLiteral(SomeIdentifier)
  {
    var t := "some.string";
    assert Plain(Q, t);
    assert NoBraces(t);
    NoBracesBalanced(t);
    assert AllIn("some.identifier", PathChars);
  }

  lemma FreshAfter(acc: seq<Entry<ArrayValue>>, e: Entry<ArrayValue>, k: Key)
    requires !HasKey(acc, k) && e.key != k
    ensures !HasKey(acc + [e], k)
  {
    assert forall i :: 0 <= i < |acc| ==> (acc + [e])[i] == acc[i];
  }

  lemma MissingKey(es: seq<Entry<ArrayValue>>, k: Key)
    requires forall i :: 0 <= i < |es| ==> es[i].key != k
    ensures !HasKey(es, k)
  {
  }

  lemma KeysDiffer(a: string, b: string)
    requires |a| > 0 && |b| > 0 && a[0] != b[0]
    ensures StringKey(a) != StringKey(b)
  {
  }

  lemma ShowThree(a: Item, b: Item, c: Item)
    ensures Show([a, b, c]) == ShowItem(a) + ", " + ShowItem(b) + ", " + ShowItem(c)
  {
    ShowCons([a, b, c]);
    assert [a, b, c][1..] == [b, c];
    ShowCons([b, c]);
    assert [b, c][1..] == [c];
  }

  lemma FlatShown(d: string)
    ensures Show(Flat(d)) == FlatText(d)
  {
    ShowThree(NumberItem(d), Item(Some("string"), SomeString), Item(Some("identifier"), SomeIdentifier));
    ShowKeyed("number", IntLit(d));
    ShowKeyed("string", SomeString);
    ShowKeyed("identifier", SomeIdentifier);
    SomeStringText();
    FlatPieces();
  }

  lemma FlatPieces()
    ensures "number" + ": " == "number: "
    ensures "string" + ": " + "'some.string'" == "string: 'some.string'"
    ensures "identifier" + ": " + "some.identifier" == "identifier: some.identifier"
  {
  }

  lemma IndexedShown(d: string)
    ensures Show(Indexed(d)) == IndexedText(d)
  {
    ShowThree(Item(Some("0"), IntLit(d)), Item(Some("1"), SomeString), Item(Some("2"), SomeIdentifier));
    ShowKeyed("0", IntLit(d));
    ShowKeyed("1", SomeString);
    ShowKeyed("2", SomeIdentifier);
    SomeStringText();
    IndexedPieces();
  }

  lemma IndexedPieces()
    ensures "0" + ": " == "0: "
    ensures "1" + ": " + "'some.string'" == "1: 'some.string'"
    ensures "2" + ": " + "some.identifier" == "2: some.identifier"
  {
  }

  lemma FlatWellFormed(d: string)
    requires |d| > 0 && AllDigits(d)
    ensures WellFormedItems(Flat(d)) && WellFormedItems(Indexed(d))
  {
    WellFormedParts();
    assert WellFormedItem(Flat(d)[0]) && WellFormedItem(Flat(d)[1]) && WellFormedItem(Flat(d)[2]);
    assert WellFormedItem(Indexed(d)[0]) && WellFormedItem(Indexed(d)[1]) && WellFormedItem(Indexed(d)[2]);
  }

  /** The three flat items, read onto an array that has none of their keys, add their entries in order. */
  lemma FlatOnto(acc: seq<Entry<ArrayValue>>, d: string, n: nat, parseTemplate: string -> Node)
    requires Meaning(IntLit(d), parseTemplate) == Number(n)
    requires !HasKey(acc, StringKey("number")) && !HasKey(acc, StringKey("string")) && !HasKey(acc, StringKey("identifier"))
    ensures InterpretOnto(acc, Flat(d), parseTemplate) == acc + FlatEntries(n)
  {
    var es := FlatEntries(n);
    NamedKey("number");
    NamedKey("string");
    NamedKey("identifier");
    SomeStringMeaning(parseTemplate);
    InterpretStep(acc, Flat(d), parseTemplate);
    AssignFresh(acc, "number", IntLit(d), parseTemplate);
    var a1 := acc + [es[0]];
    FreshAfter(acc, es[0], StringKey("string"));
    FreshAfter(acc, es[0], StringKey("identifier"));
    InterpretStep(a1, Flat(d)[1..], parseTemplate);
    AssignFresh(a1, "string", SomeString, parseTemplate);
    var a2 := a1 + [es[1]];
    FreshAfter(a1, es[1], StringKey("identifier"));
    InterpretStep(a2, Flat(d)[2..], parseTemplate);
    AssignFresh(a2, "identifier", SomeIdentifier, parseTemplate);
    assert Flat(d)[1..][1..] == Flat(d)[2..] && Flat(d)[2..][1..] == [];
    assert a2 + [es[2]] == acc + es;
  }

  /** `key: value` alone reads back as the one entry under that key. */
  lemma Single(k: string, v: Literal, parseTemplate: string -> Node)
    requires |k| > 0 && IsLetter(k[0]) && AllIn(k, KeyChars) && WellFormedLiteral(v)
    ensures RecursiveArrayHandler(k + ": " + ShowLiteral(v), parseTemplate) == [Entry(StringKey(k), Meaning(v, parseTemplate))]
  {
    var items := [Item(Some(k), v)];
    ShowKeyed(k, v);
    assert Show(items) == ShowItem(items[0]);
    assert WellFormedItem(items[0]);
    ReadsBack(items, parseTemplate);
    NamedKey(k);
    InterpretStep([], items, parseTemplate);
    AssignFresh([], k, v, parseTemplate);
    assert items[1..] == [];
  }

  /** `key: {items}` alone reads back as the one entry holding the array the items stand for. */
  lemma Subarray(k: string, items: seq<Item>, es: seq<Entry<ArrayValue>>, parseTemplate: string -> Node)
    requires |k| > 0 && IsLetter(k[0]) && AllIn(k, KeyChars) && WellFormedItems(items)
    requires Interpret(items, parseTemplate) == es
    ensures RecursiveArrayHandler(k + ": " + ("{" + Show(items) + "}"), parseTemplate) == [Entry(StringKey(k), Element(ArrayNode(es)))]
  {
    ShowBraces(items);
    Single(k, BracesLit(items), parseTemplate);
  }

  lemma FlatMeaning(d: string, n: nat, parseTemplate: string -> Node)
    requires Meaning(IntLit(d), parseTemplate) == Number(n)
    ensures Interpret(Flat(d), parseTemplate) == FlatEntries(n)
  {
    FlatOnto([], d, n, parseTemplate);
    assert [] + FlatEntries(n) == FlatEntries(n);
  }

  lemma IndexedMeaning(d: string, n: nat, parseTemplate: string -> Node)
    requires Meaning(IntLit(d), parseTemplate) == Number(n)
    ensures Interpret(Indexed(d), parseTemplate) == IndexedEntries(n)
  {
    IndexedOnto([], d, n, parseTemplate);
    assert [] + IndexedEntries(n) == IndexedEntries(n);
  }

  lemma DigitKey(s: string, n: nat)
    requires |s| == 1 && IsDigit(s[0]) && n == (s[0] - '0') as nat
    ensures NormalizeKey(s) == IntKey(n)
  {
    assert s[..0] == [];
    assert AllDigits(s);
    assert DigitsValue(s) == n;
  }

  lemma IndexedOnto(acc: seq<Entry<ArrayValue>>, d: string, n: nat, parseTemplate: string -> Node)
    requires Meaning(IntLit(d), parseTemplate) == Number(n)
    requires !HasKey(acc, IntKey(0)) && !HasKey(acc, IntKey(1)) && !HasKey(acc, IntKey(2))
    ensures InterpretOnto(acc, Indexed(d), parseTemplate) == acc + IndexedEntries(n)
  {
    var es := IndexedEntries(n);
    DigitKey("0", 0);
    DigitKey("1", 1);
    DigitKey("2", 2);
    SomeStringMeaning(parseTemplate);
    InterpretStep(acc, Indexed(d), parseTemplate);
    AssignFresh(acc, "0", IntLit(d), parseTemplate);
    var a1 := acc + [es[0]];
    FreshAfter(acc, es[0], IntKey(1));
    FreshAfter(acc, es[0], IntKey(2));
    InterpretStep(a1, Indexed(d)[1..], parseTemplate);
    AssignFresh(a1, "1", SomeString, parseTemplate);
    var a2 := a1 + [es[1]];
    FreshAfter(a1, es[1], IntKey(2));
    InterpretStep(a2, Indexed(d)[2..], parseTemplate);
    AssignFresh(a2, "2", SomeIdentifier, parseTemplate);
    assert Indexed(d)[1..][1..] == Indexed(d)[2..] && Indexed(d)[2..][1..] == [];
    assert a2 + [es[2]] == acc + es;
  }

  // ---------------------------------------------------------------------------
  // The examples

  /** `number: 123` */
  lemma SingleNumber(s: string, parseTemplate: string -> Node)
    requires s == "number: 123"
    ensures RecursiveArrayHandler(s, parseTemplate) == [Entry(StringKey("number"), Number(123))]
  {
    assert s == "number" + ": " + ShowLiteral(IntLit("123"));
    assert AllIn("number", KeyChars);
    Single("number", IntLit("123"), parseTemplate);
    ThreeDigits("123", parseTemplate);
  }

  /** `string: 'some.string'` */
  lemma SingleQuotedString(s: string, parseTemplate: string -> Node)
    requires s == "string: 'some.string'"
    ensures RecursiveArrayHandler(s, parseTemplate) == [Entry(StringKey("string"), StringValue)]
  {
    assert s == "string" + ": " + "'some.string'";
    assert AllIn("string", KeyChars);
    WellFormedParts();
    SomeStringText();
    SomeStringMeaning(parseTemplate);
    Single("string", SomeString, parseTemplate);
  }

  /** `identifier: some.identifier` */
  lemma SingleIdentifier(s: string, parseTemplate: string -> Node)
    requires s == "identifier: some.identifier"
    ensures RecursiveArrayHandler(s, parseTemplate) == [Entry(StringKey("identifier"), IdentifierValue)]
  {
    assert s == "identifier" + ": " + ShowLiteral(SomeIdentifier);
    assert AllIn("identifier", KeyChars);
    WellFormedParts();
    Single("identifier", SomeIdentifier, parseTemplate);
  }

  /** `array: {number: 123, string: 'some.string', identifier: some.identifier}` */
  lemma SingleSubarray(s: string, parseTemplate: string -> Node)
    requires s == "array: " + ("{" + ("number: " + "123" + ", " + "string: 'some.string'" + ", " + "identifier: some.identifier") + "}")
    ensures RecursiveArrayHandler(s, parseTemplate)
         == [Entry(StringKey("array"), Element(ArrayNode(FlatEntries(123))))]
  {
    assert s == "array" + ": " + ("{" + FlatText("123") + "}");
    assert AllIn("array", KeyChars);
    FlatWellFormed("123");
    FlatShown("123");
    ThreeDigits("123", parseTemplate);
    FlatMeaning("123", 123, parseTemplate);
    Subarray("array", Flat("123"), FlatEntries(123), parseTemplate);
  }

  /** `array: {0: 123, 1: 'some.string', 2: some.identifier}` */
  lemma SubarrayWithNumericalIds(s: string, parseTemplate: string -> Node)
    requires s == "array: " + ("{" + ("0: " + "123" + ", " + "1: 'some.string'" + ", " + "2: some.identifier") + "}")
    ensures RecursiveArrayHandler(s, parseTemplate)
         == [Entry(StringKey("array"), Element(ArrayNode(IndexedEntries(123))))]
  {
    assert s == "array" + ": " + ("{" + IndexedText("123") + "}");
    assert AllIn("array", KeyChars);
    FlatWellFormed("123");
    IndexedShown("123");
    ThreeDigits("123", parseTemplate);
    IndexedMeaning("123", 123, parseTemplate);
    Subarray("array", Indexed("123"), IndexedEntries(123), parseTemplate);
  }

  lemma Assoc(a: string, b: string, c: string)
    ensures a + b + c == a + (b + c)
  {
  }

  lemma Reads(items: seq<Item>, es: seq<Entry<ArrayValue>>, parseTemplate: string -> Node)
    requires WellFormedItems(items) && Interpret(items, parseTemplate) == es
    ensures RecursiveArrayHandler(Show(items), parseTemplate) == es
  {
    ReadsBack(items, parseTemplate);
  }

  /** `items, key: '{inner}'` reads back as the outer items followed by the inner ones. */
  lemma QuotedSubarray(items: seq<Item>, k: string, inner: seq<Item>, m: nat, es: seq<Entry<ArrayValue>>, parseTemplate: string -> Node)
    requires WellFormedItems(items) && WellFormedItems(inner)
    requires |k| > 0 && AllIn(k, KeyChars) && StopsAt(Q, Show(inner), m)
    requires Interpret(items + inner, parseTemplate) == es
    ensures RecursiveArrayHandler(Show(items) + ", " + (k + ": '{" + Show(inner) + "}'"), parseTemplate) == es
  {
    var t := Show(inner);
    assert ": '{" == ": " + ([Q] + "{");
    assert "}'" == "}" + [Q];
    Assoc(k, ": ", [Q] + "{");
    Assoc(": ", [Q], "{");
    Assoc(k + (": " + ([Q] + "{")), t, "}" + [Q]);
    Assoc(k, ": " + ([Q] + "{"), t + ("}" + [Q]));
    Assoc(": ", [Q] + "{", t + ("}" + [Q]));
    Assoc([Q], "{", t + ("}" + [Q]));
    Assoc("{", t, "}" + [Q]);
    Assoc(Show(items), ", ", k + ": '{" + t + "}'");
    Spreads(items, k, Q, inner, m, parseTemplate);
  }

  lemma NumberShown()
    ensures Show([NumberItem("123")]) == "number: 123"
  {
    ShowKeyed("number", IntLit("123"));
  }

  lemma NumberMeaning(parseTemplate: string -> Node)
    ensures Interpret([NumberItem("123")], parseTemplate) == [Entry(StringKey("number"), Number(123))]
  {
    NamedKey("number");
    ThreeDigits("123", parseTemplate);
    InterpretStep([], [NumberItem("123")], parseTemplate);
    AssignFresh([], "number", IntLit("123"), parseTemplate);
    assert [NumberItem("123")][1..] == [];
  }

  lemma NumberWellFormed()
    ensures WellFormedItems([NumberItem("123")])
  {
    assert AllIn("number", KeyChars);
    assert WellFormedItem(NumberItem("123"));
  }

  /** The first quote in `number: d, string: 'some.string', ...` is the one opening `'some.string'`. */
  lemma FlatStops(d: string)
    requires |d| == 3 && AllDigits(d)
    ensures StopsAt(Q, FlatText(d), 21)
  {
    var t := FlatText(d);
    assert t[..21] == "number: " + d + ", " + "string: ";
    assert Plain(Q, t[..21]);
  }

  lemma IndexedStops(d: string)
    requires |d| == 3 && AllDigits(d)
    ensures StopsAt(Q, IndexedText(d), 11)
  {
    var t := IndexedText(d);
    assert t[..11] == "0: " + d + ", " + "1: ";
    assert Plain(Q, t[..11]);
  }

  /** Writing `number` again replaces the value and keeps the place. */
  lemma AssignOver(n: nat, d: string, m: nat, parseTemplate: string -> Node)
    requires Meaning(IntLit(d), parseTemplate) == Number(m)
    ensures Assign([Entry(StringKey("number"), Number(n))], NumberItem(d), parseTemplate) == [Entry(StringKey("number"), Number(m))]
  {
    NamedKey("number");
    var a := [Entry(StringKey("number"), Number(n))];
    assert HasKey(a, StringKey("number")) by { assert a[0].key == StringKey("number"); }
  }

  lemma OntoAppend(a: seq<Item>, b: seq<Item>, ea: seq<Entry<ArrayValue>>, es: seq<Entry<ArrayValue>>, parseTemplate: string -> Node)
    requires Interpret(a, parseTemplate) == ea && InterpretOnto(ea, b, parseTemplate) == es
    ensures Interpret(a + b, parseTemplate) == es
  {
    InterpretAppend([], a, b, parseTemplate);
  }

  /** The flat items read onto an array holding only `number`: the number is replaced, the rest added. */
  lemma FlatOverNumber(n: nat, d: string, m: nat, parseTemplate: string -> Node)
    requires Meaning(IntLit(d), parseTemplate) == Number(m)
    ensures InterpretOnto([Entry(StringKey("number"), Number(n))], Flat(d), parseTemplate) == FlatEntries(m)
  {
    var e := Entry(StringKey("number"), Number(m));
    InterpretStep([Entry(StringKey("number"), Number(n))], Flat(d), parseTemplate);
    AssignOver(n, d, m, parseTemplate);
    KeysDiffer("number", "string");
    KeysDiffer("number", "identifier");
    MissingKey([e], StringKey("string"));
    MissingKey([e], StringKey("identifier"));
    FlatTailOnto([e], d, parseTemplate);
  }

  lemma QuotedFlatMeaning(parseTemplate: string -> Node)
    ensures Interpret([NumberItem("123")] + Flat("234"), parseTemplate) == FlatEntries(234)
  {
    ThreeDigits("234", parseTemplate);
    NumberMeaning(parseTemplate);
    FlatOverNumber(123, "234", 234, parseTemplate);
    OntoAppend([NumberItem("123")], Flat("234"), [Entry(StringKey("number"), Number(123))], FlatEntries(234), parseTemplate);
  }

  /** The indexed items read onto an array holding only `number` are added after it. */
  lemma IndexedAfterNumber(n: nat, d: string, m: nat, parseTemplate: string -> Node)
    requires Meaning(IntLit(d), parseTemplate) == Number(m)
    ensures InterpretOnto([Entry(StringKey("number"), Number(n))], Indexed(d), parseTemplate) == [Entry(StringKey("number"), Number(n))] + IndexedEntries(m)
  {
    var a := [Entry(StringKey("number"), Number(n))];
    MissingKey(a, IntKey(0));
    MissingKey(a, IntKey(1));
    MissingKey(a, IntKey(2));
    IndexedOnto(a, d, m, parseTemplate);
  }

  lemma QuotedIndexedMeaning(parseTemplate: string -> Node)
    ensures Interpret([NumberItem("123")] + Indexed("234"), parseTemplate) == [Entry(StringKey("number"), Number(123))] + IndexedEntries(234)
  {
    ThreeDigits("234", parseTemplate);
    NumberMeaning(parseTemplate);
    IndexedAfterNumber(123, "234", 234, parseTemplate);
    OntoAppend([NumberItem("123")], Indexed("234"), [Entry(StringKey("number"), Number(123))],
      [Entry(StringKey("number"), Number(123))] + IndexedEntries(234), parseTemplate);
  }

  /** The string and identifier items of the flat list, read onto an array that has neither key. */
  lemma FlatTailOnto(acc: seq<Entry<ArrayValue>>, d: string, parseTemplate: string -> Node)
    requires !HasKey(acc, StringKey("string")) && !HasKey(acc, StringKey("identifier"))
    ensures InterpretOnto(acc, Flat(d)[1..], parseTemplate) == acc + [Entry(StringKey("string"), StringValue), Entry(StringKey("identifier"), IdentifierValue)]
  {
    var e1 := Entry(StringKey("string"), StringValue);
    var e2 := Entry(StringKey("identifier"), IdentifierValue);
    NamedKey("string");
    NamedKey("identifier");
    SomeStringMeaning(parseTemplate);
    InterpretStep(acc, Flat(d)[1..], parseTemplate);
    AssignFresh(acc, "string", SomeString, parseTemplate);
    FreshAfter(acc, e1, StringKey("identifier"));
    InterpretStep(acc + [e1], Flat(d)[2..], parseTemplate);
    AssignFresh(acc + [e1], "identifier", SomeIdentifier, parseTemplate);
    assert Flat(d)[1..][1..] == Flat(d)[2..] && Flat(d)[2..][1..] == [];
  }

  lemma MixedShown()
    ensures Show(Mixed) == FlatText("123") + ", " + ("array: " + ("{" + FlatText("123") + "}"))
  {
    ShowAppend(Flat("123"), [ArrayItem]);
    FlatShown("123");
    ShowKeyed("array", BracesLit(Flat("123")));
    ShowBraces(Flat("123"));
    assert "array" + ": " == "array: ";
  }

  lemma MixedWellFormed()
    ensures WellFormedItems(Mixed)
  {
    FlatWellFormed("123");
    assert AllIn("array", KeyChars);
    assert WellFormedItem(ArrayItem);
  }

  /** A sub-array under `array` read onto the flat entries is added after them. */
  lemma ArrayAfterFlat(n: nat, items: seq<Item>, parseTemplate: string -> Node)
    ensures InterpretOnto(FlatEntries(n), [Item(Some("array"), BracesLit(items))], parseTemplate)
         == FlatEntries(n) + [Entry(StringKey("array"), Element(ArrayNode(Interpret(items, parseTemplate))))]
  {
    var it := Item(Some("array"), BracesLit(items));
    NamedKey("array");
    KeysDiffer("number", "array");
    KeysDiffer("string", "array");
    KeysDiffer("identifier", "array");
    MissingKey(FlatEntries(n), StringKey("array"));
    InterpretStep(FlatEntries(n), [it], parseTemplate);
    AssignFresh(FlatEntries(n), "array", BracesLit(items), parseTemplate);
    assert [it][1..] == [];
  }

  lemma MixedMeaning(parseTemplate: string -> Node)
    ensures Interpret(Mixed, parseTemplate) == MixedEntries()
  {
    ThreeDigits("123", parseTemplate);
    FlatMeaning("123", 123, parseTemplate);
    ArrayAfterFlat(123, Flat("123"), parseTemplate);
    OntoAppend(Flat("123"), [ArrayItem], FlatEntries(123), MixedEntries(), parseTemplate);
  }

  lemma VariableWellFormed()
    ensures WellFormedItems([VariableItem])
  {
    var t := "{some.{index}}";
    VariableBalanced();
    assert Plain(Q, t);
    assert AllIn("variableIdentifier", KeyChars);
    assert WellFormedItem(VariableItem);
  }

  lemma VariableBalanced()
    ensures Balanced("{some.{index}}")
  {
    assert "{some.{index}}" == "{" + ("some." + ("{" + "index" + "}")) + "}";
    assert NoBraces("index") && NoBraces("some.");
    NoBracesBalanced("index");
    NoBracesBalanced("some.");
    BalancedWrap("index");
    BalancedConcat("some.", "{" + "index" + "}");
    BalancedWrap("some." + ("{" + "index" + "}"));
  }

  lemma VariableShown()
    ensures Show([VariableItem]) == "variableIdentifier: " + "'{some.{index}}'"
  {
    ShowKeyed("variableIdentifier", VariableItem.value);
    ShowString(Q, [Run("{some.{index}}")]);
    assert [Run("{some.{index}}")][1..] == [];
    assert "variableIdentifier" + ": " == "variableIdentifier: ";
  }

  lemma VariableMeaning(parseTemplate: string -> Node)
    requires parseTemplate("{some.{index}}") == IndexedAccessor()
    ensures Interpret([VariableItem], parseTemplate) == [Entry(StringKey("variableIdentifier"), Element(IndexedAccessor()))]
  {
    var t := "{some.{index}}";
    assert [Run(t)][1..] == [];
    assert WriteText([], Q, [Run(t)]) == t;
    assert HasDynamicMarker(t) by { assert t[0] == '{'; }
    NamedKey("variableIdentifier");
    InterpretStep([], [VariableItem], parseTemplate);
    AssignFresh([], "variableIdentifier", VariableItem.value, parseTemplate);
    assert [VariableItem][1..] == [];
  }

  /** `number: 123, array: '{number: 234, string: 'some.string', identifier: some.identifier}'` */
  lemma SingleQuotedSubarray(s: string, parseTemplate: string -> Node)
    requires s == "number: 123" + ", " + ("array" + ": '{" + ("number: " + "234" + ", " + "string: 'some.string'" + ", " + "identifier: some.identifier") + "}'")
    ensures RecursiveArrayHandler(s, parseTemplate) == FlatEntries(234)
  {
    NumberShown();
    NumberWellFormed();
    FlatShown("234");
    FlatWellFormed("234");
    FlatStops("234");
    assert AllIn("array", KeyChars);
    QuotedFlatMeaning(parseTemplate);
    QuotedSubarray([NumberItem("123")], "array", Flat("234"), 21, FlatEntries(234), parseTemplate);
  }

  /** `number: 123, array: '{0: 234, 1: 'some.string', 2: some.identifier}'` */
  lemma QuotedSubarrayWithNumericalKeys(s: string, parseTemplate: string -> Node)
    requires s == "number: 123" + ", " + ("array" + ": '{" + ("0: " + "234" + ", " + "1: 'some.string'" + ", " + "2: some.identifier") + "}'")
    ensures RecursiveArrayHandler(s, parseTemplate) == [Entry(StringKey("number"), Number(123))] + IndexedEntries(234)
  {
    NumberShown();
    NumberWellFormed();
    IndexedShown("234");
    FlatWellFormed("234");
    IndexedStops("234");
    assert AllIn("array", KeyChars);
    QuotedIndexedMeaning(parseTemplate);
    QuotedSubarray([NumberItem("123")], "array", Indexed("234"), 11, [Entry(StringKey("number"), Number(123))] + IndexedEntries(234), parseTemplate);
  }

  /** `array: {number: 123, string: 'some.string', identifier: some.identifier, array: {number: 123, string: 'some.string', identifier: some.identifier}}` */
  lemma NestedSubarray(s: string, parseTemplate: string -> Node)
    requires s == "array: " + ("{" + (
                    "number: " + "123" + ", " + "string: 'some.string'" + ", " + "identifier: some.identifier" + ", " +
                    ("array: " + ("{" + ("number: " + "123" + ", " + "string: 'some.string'" + ", " + "identifier: some.identifier") + "}"))) + "}")
    ensures RecursiveArrayHandler(s, parseTemplate) == [Entry(StringKey("array"), Element(ArrayNode(MixedEntries())))]
  {
    MixedShown();
    MixedWellFormed();
    MixedMeaning(parseTemplate);
    assert AllIn("array", KeyChars);
    assert "array" + ": " == "array: ";
    Subarray("array", Mixed, MixedEntries(), parseTemplate);
  }

  /** `number: 123, string: 'some.string', identifier: some.identifier, array: {number: 123, string: 'some.string', identifier: some.identifier}` */
  lemma MixedTypes(s: string, parseTemplate: string -> Node)
    requires s == "number: " + "123" + ", " + "string: 'some.string'" + ", " + "identifier: some.identifier" + ", " +
                  ("array: " + ("{" + ("number: " + "123" + ", " + "string: 'some.string'" + ", " + "identifier: some.identifier") + "}"))
    ensures RecursiveArrayHandler(s, parseTemplate) == MixedEntries()
  {
    MixedShown();
    MixedWellFormed();
    MixedMeaning(parseTemplate);
    Reads(Mixed, MixedEntries(), parseTemplate);
  }

  /** `variableIdentifier: '{some.{index}}'`: the text is handed to the template parser. */
  lemma VariableIdentifier(s: string, parseTemplate: string -> Node)
    requires s == "variableIdentifier: " + "'{some.{index}}'"
    requires parseTemplate("{some.{index}}") == IndexedAccessor()
    ensures RecursiveArrayHandler(s, parseTemplate) == [Entry(StringKey("variableIdentifier"), Element(IndexedAccessor()))]
  {
    VariableShown();
    VariableWellFormed();
    VariableMeaning(parseTemplate);
    Reads([VariableItem], [Entry(StringKey("variableIdentifier"), Element(IndexedAccessor()))], parseTemplate);
  }

  /** `array: {variableIdentifier: '{some.{index}}'}` */
  lemma VariableIdentifierInArray(s: string, parseTemplate: string -> Node)
    requires s == "array: " + ("{" + ("variableIdentifier: " + "'{some.{index}}'") + "}")
    requires parseTemplate("{some.{index}}") == IndexedAccessor()
    ensures RecursiveArrayHandler(s, parseTemplate)
         == [Entry(StringKey("array"), Element(ArrayNode([Entry(StringKey("variableIdentifier"), Element(IndexedAccessor()))])))]
  {
    VariableShown();
    VariableWellFormed();
    VariableMeaning(parseTemplate);
    assert AllIn("array", KeyChars);
    assert "array" + ": " == "array: ";
    Subarray("array", [VariableItem], [Entry(StringKey("variableIdentifier"), Element(IndexedAccessor()))], parseTemplate);
  }
}
