/**
 * The argument cases of the parser's unit tests
 * (tests/Unit/Core/Parser/TemplateParserTest.php): the three argument
 * strings of lines 553-555 read with the object tree builder replaced by the
 * identity, the required-argument checks of lines 1019-1051, and the boolean
 * coercion of lines 1056-1081. Each argument string is shown to be
 * written arguments, so the round-trip lemmas of `Arguments` apply.
 */
module ArgumentExamples {
  import opened Wrappers
  import opened Nodes
  import opened Scanning
  import opened Quoting
  import opened ArgumentTrees
  import opened ParseErrors
  import opened Arguments

  /** The test's stand-in for `buildArgumentObjectTree`: it returns its argument. */
  function Verbatim(t: string): string {
    t
  }

  /** The test's stand-in for `validateAdditionalArguments`: it accepts anything. */
  function AcceptAll(names: seq<string>): bool {
    true
  }

  /** A single written argument with nothing after it. */
  lemma OneArgument(s: string, lead: string, w: WrittenArgument)
    requires AllIn(lead, Spaces) && WellWritten(w) && w.trail == []
    requires s == lead + WriteArgument(w)
    ensures ParseArgumentsWith(s, [], Verbatim, Verbatim, AcceptAll) == Success([Argument(w.name, w.text)])
  {
    var ws := [w];
    assert WriteArguments(ws) == WriteArgument(w);
    assert s == lead + WriteArguments(ws) + [];
    assert Unmatched(s, |lead| + |WriteArguments(ws)|);
    ParseWritten(s, lead, ws, [], [], Verbatim, Verbatim, AcceptAll);
    CoerceNothing(Built(ws, Verbatim), Verbatim);
    assert Built(ws, Verbatim) == [Argument(w.name, w.text)];
  }

  /** Two written arguments with nothing after them. */
  lemma TwoArguments(s: string, w1: WrittenArgument, w2: WrittenArgument)
    requires WellWritten(w1) && WellWritten(w2) && w1.name != w2.name && w2.trail == []
    requires s == WriteArgument(w1) + WriteArgument(w2)
    ensures ParseArgumentsWith(s, [], Verbatim, Verbatim, AcceptAll)
            == Success([Argument(w1.name, w1.text), Argument(w2.name, w2.text)])
  {
    var ws := [w1, w2];
    assert WriteArguments(ws) == WriteArgument(w1) + WriteArguments([w2]);
    assert WriteArguments([w2]) == WriteArgument(w2);
    assert s == [] + WriteArguments(ws) + [];
    assert Unmatched(s, |WriteArguments(ws)|);
    ParseWritten(s, [], ws, [], [], Verbatim, Verbatim, AcceptAll);
    CoerceNothing(Built(ws, Verbatim), Verbatim);
    assert Built(ws, Verbatim) == [Argument(w1.name, w1.text), Argument(w2.name, w2.text)];
  }

  /** The plain texts of the examples. */
  lemma PlainLiteral(t: string)
    requires t == "2" || t == "foobar ' with " || t == " quotes" || t == "{number : 362525200}"
    ensures Plain('"', t)
  {
  }

  /** The names and the white space of the examples. */
  lemma NameLiteral(n: string)
    requires n == "a" || n == "b" || n == "arguments" || n == "var1" || n == "var2"
    ensures n != [] && AllIn(n, NameChars)
  {
  }

  lemma SpaceLiteral(t: string)
    requires t == " "
    ensures AllIn(t, Spaces)
  {
  }

  /** An argument whose value has neither quotes nor backslashes, cut into its parts. */
  lemma PlainArgumentText(lead: string, name: string, q: char, t: string, trail: string)
    requires IsQuote(q) && Plain(q, t)
    ensures lead + name + "=" + [q] + t + [q] + trail == lead + WriteArgument(WrittenArgument(name, q, t, trail))
  {
    EscapePlain(q, t);
  }

  /** A value holding one quote between plain texts is escaped at that quote only. */
  lemma EscapeOneQuote(q: char, x: string, y: string)
    requires IsQuote(q) && Plain(q, x) && Plain(q, y)
    ensures Escape(q, x + [q] + y) == x + [Backslash, q] + y
  {
    EscapePlain(q, x);
    EscapePlain(q, y);
    EscapeConcat(q, x, [q]);
    EscapeConcat(q, x + [q], y);
    assert Escape(q, [q]) == [Backslash, q];
  }

  /** An argument whose value holds one escaped quote, cut into its parts. */
  lemma EscapedQuoteArgumentText(name: string, q: char, x: string, y: string)
    requires IsQuote(q) && Plain(q, x) && Plain(q, y)
    ensures name + "=" + [q] + x + [Backslash, q] + y + [q] == WriteArgument(WrittenArgument(name, q, x + [q] + y, []))
  {
    EscapeOneQuote(q, x, y);
  }

  /** One argument with a plain value. */
  lemma OnePlainArgument(s: string, lead: string, name: string, q: char, t: string)
    requires AllIn(lead, Spaces) && name != [] && AllIn(name, NameChars) && IsQuote(q) && Plain(q, t)
    requires s == lead + name + "=" + [q] + t + [q]
    ensures ParseArgumentsWith(s, [], Verbatim, Verbatim, AcceptAll) == Success([Argument(name, t)])
  {
    PlainArgumentText(lead, name, q, t, []);
    assert s == lead + name + "=" + [q] + t + [q] + [];
    OneArgument(s, lead, WrittenArgument(name, q, t, []));
  }

  /** An argument with a plain value, then one whose value holds a quote. */
  lemma PlainThenQuoted(s: string, n1: string, t1: string, trail: string, n2: string, q: char, x: string, y: string)
    requires n1 != [] && AllIn(n1, NameChars) && n2 != [] && AllIn(n2, NameChars) && n1 != n2 && AllIn(trail, Spaces)
    requires IsQuote(q) && Plain(q, t1) && Plain(q, x) && Plain(q, y)
    requires s == (n1 + "=" + [q] + t1 + [q] + trail) + (n2 + "=" + [q] + x + [Backslash, q] + y + [q])
    ensures ParseArgumentsWith(s, [], Verbatim, Verbatim, AcceptAll) == Success([Argument(n1, t1), Argument(n2, x + [q] + y)])
  {
    PlainArgumentText([], n1, q, t1, trail);
    EscapedQuoteArgumentText(n2, q, x, y);
    assert [] + n1 == n1;
    TwoArguments(s, WrittenArgument(n1, q, t1, trail), WrittenArgument(n2, q, x + [q] + y, []));
  }

  /** Line 553: `a="2"` gives `a` => `2`. */
  lemma ArgumentsExample1(s: string)
    requires s == "a" + "=" + "\"" + "2" + "\""
    ensures ParseArgumentsWith(s, [], Verbatim, Verbatim, AcceptAll) == Success([Argument("a", "2")])
  {
    NameLiteral("a");
    PlainLiteral("2");
    OnePlainArgument(s, [], "a", '"', "2");
  }

  /** Line 554: `a="2" b="foobar ' with \" quotes"` gives `a` => `2` and `b` => `foobar ' with " quotes`. */
  lemma ArgumentsExample2(s: string)
    requires s == ("a" + "=" + "\"" + "2" + "\"" + " ") + ("b" + "=" + "\"" + "foobar ' with " + "\\\"" + " quotes" + "\"")
    ensures ParseArgumentsWith(s, [], Verbatim, Verbatim, AcceptAll)
            == Success([Argument("a", "2"), Argument("b", "foobar ' with " + "\"" + " quotes")])
  {
    NameLiteral("a");
    NameLiteral("b");
    SpaceLiteral(" ");
    PlainLiteral("2");
    PlainLiteral("foobar ' with ");
    PlainLiteral(" quotes");
    PlainThenQuoted(s, "a", "2", " ", "b", '"', "foobar ' with ", " quotes");
  }

  /** Line 555: ` arguments="{number : 362525200}"` gives `arguments` => `{number : 362525200}`. */
  lemma ArgumentsExample3(s: string)
    requires s == " " + "arguments" + "=" + "\"" + "{number : 362525200}" + "\""
    ensures ParseArgumentsWith(s, [], Verbatim, Verbatim, AcceptAll) == Success([Argument("arguments", "{number : 362525200}")])
  {
    NameLiteral("arguments");
    SpaceLiteral(" ");
    PlainLiteral("{number : 362525200}");
    OnePlainArgument(s, " ", "arguments", '"', "{number : 362525200}");
  }

  // ---------------------------------------------------------------------------
  // Required arguments (lines 1019-1051)

  /** Lines 1019-1033: with no arguments, the required `secondArgument` is reported missing. */
  lemma MissingRequiredExample(definitions: seq<ArgumentDefinition>)
    requires definitions == [ArgumentDefinition("firstArgument", "string", "", false),
                             ArgumentDefinition("secondArgument", "string", "", true)]
    ensures AbortIfRequiredArgumentsAreMissing<string>(definitions, []) == Fail(MissingRequiredArgument("secondArgument"))
  {
  }

  /** Lines 1035-1051: the required `name2` is present, so nothing is reported. */
  lemma RequiredPresentExample(definitions: seq<ArgumentDefinition>, actual: seq<Argument<string>>)
    requires definitions == [ArgumentDefinition("name1", "string", "desc", false),
                             ArgumentDefinition("name2", "string", "desc", true)]
    requires actual == [Argument("name2", "bla")]
    ensures AbortIfRequiredArgumentsAreMissing(definitions, actual) == Pass
  {
    assert actual[0].name == "name2";
  }

  // ---------------------------------------------------------------------------
  // Boolean coercion (lines 1056-1081)

  /** Two arguments followed by a character that starts no match. */
  lemma TwoArgumentsBefore<T>(s: string, a: string, w1: WrittenArgument, b: string, w2: WrittenArgument, c: char,
                              definitions: seq<ArgumentDefinition>, build: string -> T, toBoolean: T -> T,
                              acceptsUndeclared: seq<string> -> bool)
    requires WellWritten(w1) && WellWritten(w2) && w1.name != w2.name && w2.trail == []
    requires !IsSpace(c) && !InClass(c, NameChars)
    requires a == WriteArgument(w1) && b == WriteArgument(w2) && s == a + b + [c]
    requires forall d :: d in definitions ==> !d.required
    requires acceptsUndeclared(UndeclaredNames(CoerceAll(Built([w1, w2], build), definitions, toBoolean), definitions))
    ensures ParseArgumentsWith(s, definitions, build, toBoolean, acceptsUndeclared)
            == Success(CoerceAll(Built([w1, w2], build), definitions, toBoolean))
  {
    var ws := [w1, w2];
    assert WriteArguments(ws) == WriteArgument(w1) + WriteArguments([w2]);
    assert WriteArguments([w2]) == WriteArgument(w2);
    assert s == [] + WriteArguments(ws) + [c];
    var e := |WriteArguments(ws)|;
    assert s[e] == c && e + 1 == |s|;
    NoArgumentAt(s, e);
    assert Unmatched(s, e);
    ParseWritten(s, [], ws, [c], definitions, build, toBoolean, acceptsUndeclared);
  }

  /** Two declared arguments leave nothing undeclared. */
  lemma TwoDeclared<T>(w1: WrittenArgument, w2: WrittenArgument, definitions: seq<ArgumentDefinition>,
                       build: string -> T, toBoolean: T -> T)
    requires FindDefinition(definitions, w1.name).Some? && FindDefinition(definitions, w2.name).Some?
    ensures CoerceAll(Built([w1, w2], build), definitions, toBoolean)
            == [Argument(w1.name, Coerce(definitions, w1.name, build(w1.text), toBoolean)),
                Argument(w2.name, Coerce(definitions, w2.name, build(w2.text), toBoolean))]
    ensures UndeclaredNames(CoerceAll(Built([w1, w2], build), definitions, toBoolean), definitions) == []
  {
    var tree := CoerceAll(Built([w1, w2], build), definitions, toBoolean);
    var undeclared := UndeclaredNames(tree, definitions);
    assert forall n :: n in undeclared ==> HasArgument(tree, n) && FindDefinition(definitions, n).None?;
    assert forall i :: 0 <= i < |tree| ==> FindDefinition(definitions, tree[i].name).Some?;
    NoMembers(undeclared);
  }

  /** A sequence with no members is empty. */
  lemma NoMembers<T>(s: seq<T>)
    ensures (forall x :: x !in s) ==> s == []
  {
    assert |s| > 0 ==> s[0] in s;
  }

  /** `"1"` and `"0"` read as numbers. */
  lemma DigitValues(t: string, parseTemplate: string -> Node)
    requires t == "1" || t == "0"
    ensures ObjectTrees(parseTemplate)(t) == NumericNode(if t == "1" then 1 else 0)
  {
    var n := if t == "1" then 1 else 0;
    assert DecimalDigits(n) == t;
    IntegerTextReadsBack(n, parseTemplate);
  }

  /** Two plain arguments, both declared and neither required, followed by a character that starts no match. */
  lemma TwoPlainDeclared<T>(s: string, n1: string, t1: string, trail: string, n2: string, t2: string, q: char, c: char,
                            definitions: seq<ArgumentDefinition>, build: string -> T, toBoolean: T -> T,
                            acceptsUndeclared: seq<string> -> bool)
    requires n1 != [] && AllIn(n1, NameChars) && n2 != [] && AllIn(n2, NameChars) && n1 != n2 && AllIn(trail, Spaces)
    requires IsQuote(q) && Plain(q, t1) && Plain(q, t2) && !IsSpace(c) && !InClass(c, NameChars)
    requires s == (n1 + "=" + [q] + t1 + [q] + trail) + (n2 + "=" + [q] + t2 + [q]) + [c]
    requires forall d :: d in definitions ==> !d.required
    requires FindDefinition(definitions, n1).Some? && FindDefinition(definitions, n2).Some? && acceptsUndeclared([])
    ensures ParseArgumentsWith(s, definitions, build, toBoolean, acceptsUndeclared)
            == Success([Argument(n1, Coerce(definitions, n1, build(t1), toBoolean)),
                        Argument(n2, Coerce(definitions, n2, build(t2), toBoolean))])
  {
    var w1, w2 := WrittenArgument(n1, q, t1, trail), WrittenArgument(n2, q, t2, []);
    PlainArgumentText([], n1, q, t1, trail);
    PlainArgumentText([], n2, q, t2, []);
    assert [] + n1 == n1 && [] + n2 == n2;
    assert n2 + "=" + [q] + t2 + [q] + [] == n2 + "=" + [q] + t2 + [q];
    TwoDeclared(w1, w2, definitions, build, toBoolean);
    TwoArgumentsBefore(s, n1 + "=" + [q] + t1 + [q] + trail, w1, n2 + "=" + [q] + t2 + [q], w2, c, definitions, build, toBoolean, acceptsUndeclared);
  }

  /** The definitions of lines 1056-1081: `var1` is a `bool`, `var2` a `boolean`. */
  lemma BooleanDefinitions(definitions: seq<ArgumentDefinition>)
    requires definitions == [ArgumentDefinition("var1", "bool", "desc", false),
                             ArgumentDefinition("var2", "boolean", "desc", false)]
    ensures forall d :: d in definitions ==> !d.required
    ensures DeclaredBoolean(definitions, "var1") && DeclaredBoolean(definitions, "var2")
    ensures FindDefinition(definitions, "var1").Some? && FindDefinition(definitions, "var2").Some?
  {
  }

  /**
   * Lines 1056-1081: `var1="1" var2="0"}` with `var1` declared `bool` and
   * `var2` declared `boolean` gives boolean nodes around the numbers 1 and 0.
   */
  lemma BooleanArgumentsExample(s: string, definitions: seq<ArgumentDefinition>, parseTemplate: string -> Node,
                                acceptsUndeclared: seq<string> -> bool)
    requires s == ("var1" + "=" + "\"" + "1" + "\"" + " ") + ("var2" + "=" + "\"" + "0" + "\"") + "}"
    requires definitions == [ArgumentDefinition("var1", "bool", "desc", false),
                             ArgumentDefinition("var2", "boolean", "desc", false)]
    requires acceptsUndeclared([])
    ensures ParseArguments(s, definitions, parseTemplate, acceptsUndeclared)
            == Success([Argument("var1", BooleanNode(NumericNode(1))), Argument("var2", BooleanNode(NumericNode(0)))])
  {
    NameLiteral("var1");
    NameLiteral("var2");
    SpaceLiteral(" ");
    assert Plain('"', "1") && Plain('"', "0");
    BooleanDefinitions(definitions);
    DigitValues("1", parseTemplate);
    DigitValues("0", parseTemplate);
    TwoPlainDeclared(s, "var1", "1", " ", "var2", "0", '"', '}', definitions, ObjectTrees(parseTemplate), ToBooleanNode, acceptsUndeclared);
  }
}
