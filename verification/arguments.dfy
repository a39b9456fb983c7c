/**
 * Tag arguments: the `name="value"` pairs of an opening tag, read from the
 * argument text, unquoted, turned into nodes and checked against what the
 * view helper declares.
 */
module Arguments {
  import opened Wrappers
  import opened Nodes
  import opened Scanning
  import opened Quoting
  import opened QuotedTokens
  import opened ArgumentTrees
  import opened ParseErrors

  /** What a view helper declares about one of its arguments. */
  datatype ArgumentDefinition = ArgumentDefinition(name: string, argType: string, description: string, required: bool)

  /** One named argument. */
  datatype Argument<T> = Argument(name: string, value: T)

  // ---------------------------------------------------------------------------
  // Named arguments as an ordered map

  predicate HasArgument<T>(args: seq<Argument<T>>, name: string) {
    exists i :: 0 <= i < |args| && args[i].name == name
  }

  predicate DistinctNames<T>(args: seq<Argument<T>>) {
    forall i, j :: 0 <= i < j < |args| ==> args[i].name != args[j].name
  }

  /** The value under `name`, if any. */
  function FindArgument<T>(args: seq<Argument<T>>, name: string): (r: Option<T>)
    ensures r.Some? <==> HasArgument(args, name)
    ensures r.Some? ==> exists i :: 0 <= i < |args| && args[i] == Argument(name, r.value)
  {
    if args == [] then None
    else if args[0].name == name then Some(args[0].value)
    else
      var r := FindArgument(args[1..], name);
      assert forall i :: 0 < i < |args| ==> args[i] == args[1..][i - 1];
      assert HasArgument(args[1..], name) ==> HasArgument(args, name);
      r
  }

  /**
   * `$arguments[$name] = $value`: an existing argument keeps its place and
   * takes the new value, a new one goes at the end.
   */
  function SetArgument<T>(args: seq<Argument<T>>, name: string, v: T): (r: seq<Argument<T>>)
    ensures HasArgument(args, name) ==> |r| == |args| && forall i :: 0 <= i < |args| ==> r[i].name == args[i].name
    ensures !HasArgument(args, name) ==> r == args + [Argument(name, v)]
    ensures forall i :: 0 <= i < |args| && args[i].name != name ==> r[i] == args[i]
    decreases |args|
  {
    if args == [] then [Argument(name, v)]
    else if args[0].name == name then [Argument(name, v)] + args[1..]
    else
      var rest := SetArgument(args[1..], name, v);
      assert forall i :: 0 < i < |args| ==> args[i] == args[1..][i - 1];
      assert HasArgument(args[1..], name) <==> HasArgument(args, name);
      [args[0]] + rest
  }

  /** After the assignment `name` holds the new value and every other name what it held before. */
  lemma {:induction false} SetArgumentFinds<T>(args: seq<Argument<T>>, name: string, v: T, n: string)
    ensures FindArgument(SetArgument(args, name, v), n) == if n == name then Some(v) else FindArgument(args, n)
    decreases |args|
  {
    if args != [] && args[0].name != name {
      SetArgumentFinds(args[1..], name, v, n);
      assert SetArgument(args, name, v)[1..] == SetArgument(args[1..], name, v);
    }
  }

  /** The assignment never makes a name appear twice. */
  lemma SetArgumentDistinct<T>(args: seq<Argument<T>>, name: string, v: T)
    requires DistinctNames(args)
    ensures DistinctNames(SetArgument(args, name, v))
  {
    var r := SetArgument(args, name, v);
    if !HasArgument(args, name) {
      forall i, j | 0 <= i < j < |r|
        ensures r[i].name != r[j].name
      {
        if j == |args| {
          assert r[j].name == name && r[i] == args[i];
        }
      }
    }
  }

  // ---------------------------------------------------------------------------
  // Reading the argument text

  /**
   * The match of the argument pattern tried at `p`: white space, a name, `=`
   * and a quoted value, then white space. The value is returned still quoted,
   * with the position where the match ends.
   */
  function ArgumentAt(s: string, p: nat): (r: Option<(Argument<string>, nat)>)
    requires p <= |s|
    ensures r.Some? ==> p < r.value.1 <= |s|
    ensures r.Some? ==> WellMatched(r.value.0)
  {
    var a := RunEnd(s, p, Spaces);
    var b := RunEnd(s, a, NameChars);
    if a == b || b + 1 >= |s| || s[b] != '=' || !IsQuote(s[b + 1]) then None
    else
      match QuotedTokenEnd(s, b + 2, s[b + 1])
      case None => None
      case Some(e) =>
        RunEndIn(s, a, NameChars);
        assert AllIn(s[a..b], NameChars) by {
          assert forall k :: 0 <= k < b - a ==> s[a..b][k] == s[a + k];
        }
        Some((Argument(s[a..b], s[b + 1..e + 1]), RunEnd(s, e + 1, Spaces)))
  }

  /** What the argument pattern matches: a non-empty name and a value between two equal quotes. */
  predicate WellMatched(arg: Argument<string>) {
    arg.name != [] && AllIn(arg.name, NameChars)
    && |arg.value| >= 2 && IsQuote(arg.value[0]) && arg.value[|arg.value| - 1] == arg.value[0]
  }

  /** Every match of the argument pattern from `p` on, left to right, as `preg_match_all` finds them. */
  function SplitArguments(s: string, p: nat): (r: seq<Argument<string>>)
    requires p <= |s|
    ensures forall i :: 0 <= i < |r| ==> WellMatched(r[i])
    decreases |s| - p
  {
    if p == |s| then []
    else
      match ArgumentAt(s, p)
      case None => SplitArguments(s, p + 1)
      case Some((arg, e)) => [arg] + SplitArguments(s, e)
  }

  /**
   * The matched arguments in order, each value unquoted and built by `build`,
   * stored by name onto `acc`.
   */
  function CollectArguments<T>(acc: seq<Argument<T>>, matched: seq<Argument<string>>, build: string -> T): (r: seq<Argument<T>>)
    ensures forall n :: HasArgument(r, n) <==> HasArgument(acc, n) || HasArgument(matched, n)
    decreases |matched|
  {
    if matched == [] then acc
    else
      var v := build(Unquote(matched[0].value));
      SetArgumentNames(acc, matched[0].name, v);
      HasArgumentTail(matched);
      CollectArguments(SetArgument(acc, matched[0].name, v), matched[1..], build)
  }

  /** Writing `name` adds `name` to the names and no other. */
  lemma SetArgumentNames<T>(args: seq<Argument<T>>, name: string, v: T)
    ensures forall n :: HasArgument(SetArgument(args, name, v), n) <==> HasArgument(args, n) || n == name
  {
    var r := SetArgument(args, name, v);
    if HasArgument(args, name) {
      assert forall n :: HasArgument(r, n) ==> HasArgument(args, n);
    } else {
      assert r[|args|].name == name;
    }
  }

  /** The names of a non-empty list are its first name and the names of the rest. */
  lemma HasArgumentTail<T>(args: seq<Argument<T>>)
    requires args != []
    ensures forall n :: HasArgument(args, n) <==> args[0].name == n || HasArgument(args[1..], n)
  {
    assert forall i :: 0 < i < |args| ==> args[i] == args[1..][i - 1];
  }

  /** The arguments of a tag as unquoted texts, before they become nodes. */
  function ArgumentTexts(s: string): seq<Argument<string>> {
    CollectArguments([], SplitArguments(s, 0), t => t)
  }

  // ---------------------------------------------------------------------------
  // Checking against the definitions

  /** The definition of the argument called `name`, if the view helper declares one. */
  function FindDefinition(definitions: seq<ArgumentDefinition>, name: string): (r: Option<ArgumentDefinition>)
    ensures r.Some? ==> r.value in definitions && r.value.name == name
    ensures r.None? <==> forall d :: d in definitions ==> d.name != name
  {
    if definitions == [] then None
    else if definitions[0].name == name then Some(definitions[0])
    else FindDefinition(definitions[1..], name)
  }

  predicate IsBooleanType(argType: string) {
    argType == "bool" || argType == "boolean"
  }

  /** The argument `name` is declared with a boolean type. */
  predicate DeclaredBoolean(definitions: seq<ArgumentDefinition>, name: string) {
    FindDefinition(definitions, name).Some? && IsBooleanType(FindDefinition(definitions, name).value.argType)
  }

  /** The stored value of an argument: a declared boolean goes through `toBoolean`. */
  function Coerce<T>(definitions: seq<ArgumentDefinition>, name: string, v: T, toBoolean: T -> T): T {
    if DeclaredBoolean(definitions, name) then toBoolean(v) else v
  }

  function CoerceAll<T>(args: seq<Argument<T>>, definitions: seq<ArgumentDefinition>, toBoolean: T -> T): (r: seq<Argument<T>>)
    ensures |r| == |args|
    ensures forall i :: 0 <= i < |args| ==> r[i].name == args[i].name
    ensures forall i :: 0 <= i < |args| && !DeclaredBoolean(definitions, args[i].name) ==> r[i] == args[i]
  {
    seq(|args|, i requires 0 <= i < |args| => Argument(args[i].name, Coerce(definitions, args[i].name, args[i].value, toBoolean)))
  }

  /** Without definitions nothing is coerced. */
  lemma CoerceNothing<T>(args: seq<Argument<T>>, toBoolean: T -> T)
    ensures CoerceAll(args, [], toBoolean) == args
  {
    assert forall i :: 0 <= i < |args| ==> CoerceAll(args, [], toBoolean)[i] == args[i];
  }

  /** The names of the arguments the view helper does not declare, in order. */
  function UndeclaredNames<T>(args: seq<Argument<T>>, definitions: seq<ArgumentDefinition>): (r: seq<string>)
    ensures forall n :: n in r <==> HasArgument(args, n) && FindDefinition(definitions, n).None?
    decreases |args|
  {
    if args == [] then []
    else
      var rest := UndeclaredNames(args[1..], definitions);
      assert forall i :: 0 < i < |args| ==> args[i] == args[1..][i - 1];
      assert forall n :: HasArgument(args, n) <==> args[0].name == n || HasArgument(args[1..], n);
      if FindDefinition(definitions, args[0].name).None? then [args[0].name] + rest else rest
  }

  /** Fails on the first definition that is required but has no argument. */
  function AbortIfRequiredArgumentsAreMissing<T>(definitions: seq<ArgumentDefinition>, actual: seq<Argument<T>>): (r: Outcome<ParseError>)
    ensures r.Pass? <==> forall d :: d in definitions && d.required ==> HasArgument(actual, d.name)
    ensures r.Fail? ==> exists i :: 0 <= i < |definitions| && definitions[i].required && !HasArgument(actual, definitions[i].name)
                                    && r.error == MissingRequiredArgument(definitions[i].name)
                                    && forall j :: 0 <= j < i ==> !definitions[j].required || HasArgument(actual, definitions[j].name)
    decreases |definitions|
  {
    if definitions == [] then Pass
    else if definitions[0].required && !HasArgument(actual, definitions[0].name) then Fail(MissingRequiredArgument(definitions[0].name))
    else
      var r := AbortIfRequiredArgumentsAreMissing(definitions[1..], actual);
      assert forall i :: 0 < i < |definitions| ==> definitions[i] == definitions[1..][i - 1];
      r
  }

  /**
   * The arguments of an opening tag: read, unquoted, built by `build`, the
   * declared booleans passed through `toBoolean`, then checked for missing
   * required arguments and, by the view helper's `acceptsUndeclared`, for
   * undeclared ones.
   */
  function ParseArgumentsWith<T>(s: string, definitions: seq<ArgumentDefinition>, build: string -> T, toBoolean: T -> T,
                                 acceptsUndeclared: seq<string> -> bool): (r: Result<seq<Argument<T>>, ParseError>)
    ensures r.Failure? ==> r.error.MissingRequiredArgument? || r.error.UndeclaredArguments?
    ensures r.Success? ==> forall d :: d in definitions && d.required ==> HasArgument(r.value, d.name)
    ensures r.Success? ==> acceptsUndeclared(UndeclaredNames(r.value, definitions))
    ensures r.Success? ==> forall n :: HasArgument(r.value, n) <==> HasArgument(SplitArguments(s, 0), n)
  {
    var tree := CoerceAll(CollectArguments([], SplitArguments(s, 0), build), definitions, toBoolean);
    match AbortIfRequiredArgumentsAreMissing(definitions, tree)
    case Fail(e) => Failure(e)
    case Pass =>
      var undeclared := UndeclaredNames(tree, definitions);
      if acceptsUndeclared(undeclared) then Success(tree)
      else Failure(UndeclaredArguments(undeclared))
  }

  /** A node as a boolean argument: wrapped unless it is a boolean node already. */
  function ToBooleanNode(n: Node): (r: Node)
    ensures r.kind.Boolean?
    ensures n.kind.Boolean? ==> r == n
  {
    if n.kind.Boolean? then n else BooleanNode(n)
  }

  /**
   * The parser's own argument parsing: values become argument object trees
   * (`parseTemplate` parses a value with dynamic parts), declared booleans
   * become boolean nodes.
   */
  function ParseArguments(s: string, definitions: seq<ArgumentDefinition>, parseTemplate: string -> Node,
                          acceptsUndeclared: seq<string> -> bool): (r: Result<seq<Argument<Node>>, ParseError>)
    ensures r.Success? ==> forall i :: 0 <= i < |r.value| && DeclaredBoolean(definitions, r.value[i].name)
                                       ==> r.value[i].value.kind.Boolean?
  {
    ParseArgumentsWith(s, definitions, ObjectTrees(parseTemplate), ToBooleanNode, acceptsUndeclared)
  }

  /** `buildArgumentObjectTree` as a function of the value alone. */
  function ObjectTrees(parseTemplate: string -> Node): string -> Node {
    t => BuildArgumentObjectTree(t, parseTemplate)
  }

  // ---------------------------------------------------------------------------
  // What the collected arguments hold

  /** The value of the last match called `name`: the one a PHP array keeps. */
  function LastValue<T>(matched: seq<Argument<T>>, name: string): (r: Option<T>)
    ensures r.Some? <==> HasArgument(matched, name)
    ensures r.Some? ==> exists i :: 0 <= i < |matched| && matched[i] == Argument(name, r.value)
                                    && forall j :: i < j < |matched| ==> matched[j].name != name
    decreases |matched|
  {
    if matched == [] then None
    else
      var rest := LastValue(matched[1..], name);
      assert forall i :: 0 < i < |matched| ==> matched[i] == matched[1..][i - 1];
      assert HasArgument(matched, name) <==> matched[0].name == name || HasArgument(matched[1..], name);
      if rest.Some? then rest
      else if matched[0].name == name then Some(matched[0].value)
      else None
  }

  /** Later matches overwrite earlier ones, so each name holds its last match's value. */
  lemma {:induction false} CollectFinds<T>(acc: seq<Argument<T>>, matched: seq<Argument<string>>, build: string -> T, name: string)
    ensures FindArgument(CollectArguments(acc, matched, build), name)
            == match LastValue(matched, name)
               case Some(v) => Some(build(Unquote(v)))
               case None => FindArgument(acc, name)
    decreases |matched|
  {
    if matched != [] {
      var acc' := SetArgument(acc, matched[0].name, build(Unquote(matched[0].value)));
      SetArgumentFinds(acc, matched[0].name, build(Unquote(matched[0].value)), name);
      CollectFinds(acc', matched[1..], build, name);
    }
  }

  lemma {:induction false} CollectDistinct<T>(acc: seq<Argument<T>>, matched: seq<Argument<string>>, build: string -> T)
    requires DistinctNames(acc)
    ensures DistinctNames(CollectArguments(acc, matched, build))
    decreases |matched|
  {
    if matched != [] {
      SetArgumentDistinct(acc, matched[0].name, build(Unquote(matched[0].value)));
      CollectDistinct(SetArgument(acc, matched[0].name, build(Unquote(matched[0].value))), matched[1..], build);
    }
  }

  /** Coercion keeps the names and passes each declared boolean through `toBoolean`. */
  lemma {:induction false} CoerceFinds<T>(args: seq<Argument<T>>, definitions: seq<ArgumentDefinition>, toBoolean: T -> T, name: string)
    ensures FindArgument(CoerceAll(args, definitions, toBoolean), name)
            == match FindArgument(args, name)
               case Some(v) => Some(Coerce(definitions, name, v, toBoolean))
               case None => None
    ensures DistinctNames(args) ==> DistinctNames(CoerceAll(args, definitions, toBoolean))
    decreases |args|
  {
    var r := CoerceAll(args, definitions, toBoolean);
    if args != [] {
      CoerceFinds(args[1..], definitions, toBoolean, name);
      assert CoerceAll(args[1..], definitions, toBoolean) == r[1..];
    }
  }

  /** The names the parse result holds are exactly the names matched in the text. */
  lemma TreeNames<T>(s: string, definitions: seq<ArgumentDefinition>, build: string -> T, toBoolean: T -> T, name: string)
    ensures HasArgument(CoerceAll(CollectArguments([], SplitArguments(s, 0), build), definitions, toBoolean), name)
            <==> HasArgument(SplitArguments(s, 0), name)
  {
    var collected := CollectArguments([], SplitArguments(s, 0), build);
    CollectFinds([], SplitArguments(s, 0), build, name);
    CoerceFinds(collected, definitions, toBoolean, name);
  }

  /**
   * On success every name matched in the text is present once, holding its
   * last match's value built and, for a declared boolean, coerced; no other
   * name is present.
   */
  lemma ParseArgumentsValues<T>(s: string, definitions: seq<ArgumentDefinition>, build: string -> T, toBoolean: T -> T,
                                acceptsUndeclared: seq<string> -> bool, name: string)
    requires ParseArgumentsWith(s, definitions, build, toBoolean, acceptsUndeclared).Success?
    ensures DistinctNames(ParseArgumentsWith(s, definitions, build, toBoolean, acceptsUndeclared).value)
    ensures FindArgument(ParseArgumentsWith(s, definitions, build, toBoolean, acceptsUndeclared).value, name)
            == match LastValue(SplitArguments(s, 0), name)
               case Some(v) => Some(Coerce(definitions, name, build(Unquote(v)), toBoolean))
               case None => None
  {
    var collected := CollectArguments([], SplitArguments(s, 0), build);
    CollectDistinct([], SplitArguments(s, 0), build);
    CollectFinds([], SplitArguments(s, 0), build, name);
    CoerceFinds(collected, definitions, toBoolean, name);
  }

  /**
   * When parsing fails and why: a required argument with no match fails
   * first, naming one such argument; with all of them present it succeeds
   * exactly when the view helper accepts the undeclared names, which are the
   * matched names it has no definition for.
   */
  lemma ParseArgumentsChecks<T>(s: string, definitions: seq<ArgumentDefinition>, build: string -> T, toBoolean: T -> T,
                                acceptsUndeclared: seq<string> -> bool)
    ensures var r := ParseArgumentsWith(s, definitions, build, toBoolean, acceptsUndeclared);
            var complete := forall d :: d in definitions && d.required ==> HasArgument(SplitArguments(s, 0), d.name);
            && (!complete <==> r.Failure? && r.error.MissingRequiredArgument?)
            && (r.Failure? && r.error.MissingRequiredArgument? ==>
                  exists d :: d in definitions && d.required && d.name == r.error.name && !HasArgument(SplitArguments(s, 0), d.name))
            && (complete ==> (r.Success? <==> acceptsUndeclared(UndeclaredNames(CoerceAll(CollectArguments([], SplitArguments(s, 0), build), definitions, toBoolean), definitions))))
            && (r.Failure? && r.error.UndeclaredArguments? ==>
                  forall n :: n in r.error.names <==> HasArgument(SplitArguments(s, 0), n) && FindDefinition(definitions, n).None?)
  {
    forall n | true
      ensures HasArgument(CoerceAll(CollectArguments([], SplitArguments(s, 0), build), definitions, toBoolean), n)
              <==> HasArgument(SplitArguments(s, 0), n)
    {
      TreeNames(s, definitions, build, toBoolean, n);
    }
  }

  /**
   * The parser's arguments: a declared boolean is always a boolean node
   * (a value that already is one is kept as it is); any other argument is
   * the object tree of its unquoted value.
   */
  lemma ParseArgumentsNodes(s: string, definitions: seq<ArgumentDefinition>, parseTemplate: string -> Node,
                            acceptsUndeclared: seq<string> -> bool, name: string)
    requires ParseArguments(s, definitions, parseTemplate, acceptsUndeclared).Success?
    ensures var r := ParseArguments(s, definitions, parseTemplate, acceptsUndeclared).value;
            match LastValue(SplitArguments(s, 0), name)
            case None => !HasArgument(r, name)
            case Some(v) =>
              var tree := BuildArgumentObjectTree(Unquote(v), parseTemplate);
              && FindArgument(r, name).Some?
              && (DeclaredBoolean(definitions, name) ==> FindArgument(r, name).value.kind.Boolean?
                                                          && (!tree.kind.Boolean? ==> FindArgument(r, name).value == BooleanNode(tree)))
              && (!DeclaredBoolean(definitions, name) ==> FindArgument(r, name).value == tree)
  {
    ParseArgumentsValues(s, definitions, ObjectTrees(parseTemplate), ToBooleanNode, acceptsUndeclared, name);
  }

  // ---------------------------------------------------------------------------
  // Writing arguments and reading them back

  /** An argument as written in a tag: `name=`, the quoted value, then white space. */
  datatype WrittenArgument = WrittenArgument(name: string, quote: char, text: string, trail: string)

  predicate WellWritten(w: WrittenArgument) {
    w.name != [] && AllIn(w.name, NameChars) && IsQuote(w.quote) && AllIn(w.trail, Spaces)
  }

  function WriteArgument(w: WrittenArgument): string {
    w.name + "=" + Quote(w.quote, w.text) + w.trail
  }

  function WriteArguments(ws: seq<WrittenArgument>): string
    decreases |ws|
  {
    if ws == [] then [] else WriteArgument(ws[0]) + WriteArguments(ws[1..])
  }

  /** What the pattern matches for each written argument: its name and its still quoted value. */
  function Matches(ws: seq<WrittenArgument>): (r: seq<Argument<string>>)
    ensures |r| == |ws|
    ensures forall i :: 0 <= i < |ws| ==> r[i] == Argument(ws[i].name, Quote(ws[i].quote, ws[i].text))
  {
    seq(|ws|, i requires 0 <= i < |ws| => Argument(ws[i].name, Quote(ws[i].quote, ws[i].text)))
  }

  lemma NameCharsAreNotSpaces(c: char)
    requires InClass(c, NameChars)
    ensures !IsSpace(c)
  {
  }

  /** Where the parts of a written argument lie: `a` name, `b` `=`, `c` value, `t` trailing space, `f` end. */
  predicate Layout(p: nat, lead: string, w: WrittenArgument, a: nat, b: nat, c: nat, t: nat, f: nat) {
    && a == p + |lead| && b == a + |w.name| && c == b + 1 && t == c + |Quote(w.quote, w.text)|
    && f == t + |w.trail| && f == p + |lead| + |WriteArgument(w)|
  }

  /** The white space, the name and the `=` of a written argument. */
  lemma LayoutName(s: string, p: nat, lead: string, w: WrittenArgument, a: nat, b: nat, c: nat, t: nat, f: nat)
    requires At(s, p, lead + WriteArgument(w)) && Layout(p, lead, w, a, b, c, t, f)
    ensures At(s, p, lead) && At(s, a, w.name) && b < |s| && s[b] == '='
  {
    var quoted := Quote(w.quote, w.text);
    AtFront(s, p, lead, WriteArgument(w), a);
    AtFront(s, a, w.name + "=" + quoted, w.trail, t);
    AtFront(s, a, w.name + "=", quoted, c);
    AtFront(s, a, w.name, "=", b);
    AtHead(s, b, "=");
  }

  /** The quoted value and the trailing white space of a written argument. */
  lemma LayoutValue(s: string, p: nat, lead: string, w: WrittenArgument, a: nat, b: nat, c: nat, t: nat, f: nat)
    requires At(s, p, lead + WriteArgument(w)) && Layout(p, lead, w, a, b, c, t, f)
    ensures At(s, c, Quote(w.quote, w.text)) && At(s, t, w.trail)
  {
    var quoted := Quote(w.quote, w.text);
    AtFront(s, p, lead, WriteArgument(w), a);
    AtFront(s, a, w.name + "=" + quoted, w.trail, t);
    AtFront(s, a, w.name + "=", quoted, c);
  }

  /** A match of the pattern, given where each part of it ends. */
  lemma ArgumentAtParts(s: string, p: nat, a: nat, b: nat, e: nat, f: nat, name: string, quoted: string)
    requires p <= a < b && b + 1 < |s| && e + 1 <= |s|
    requires RunEnd(s, p, Spaces) == a && RunEnd(s, a, NameChars) == b
    requires s[b] == '=' && IsQuote(s[b + 1]) && QuotedTokenEnd(s, b + 2, s[b + 1]) == Some(e)
    requires s[a..b] == name && s[b + 1..e + 1] == quoted && RunEnd(s, e + 1, Spaces) == f
    ensures ArgumentAt(s, p) == Some((Argument(name, quoted), f))
  {
  }

  lemma AtHead(s: string, i: nat, x: string)
    requires At(s, i, x) && x != []
    ensures i < |s| && s[i] == x[0]
  {
    assert s[i + 0] == x[0];
  }

  /** A name followed by `=` is one run of name characters. */
  lemma NameRun(s: string, a: nat, name: string)
    requires name != [] && AllIn(name, NameChars) && At(s, a, name)
    requires a + |name| < |s| && s[a + |name|] == '='
    ensures RunEnd(s, a, NameChars) == a + |name| && s[a..a + |name|] == name
  {
    RunEndAt(s, a, name, NameChars);
    AtSlice(s, a, name);
  }

  /** White space followed by a name is one run of white space. */
  lemma LeadRun(s: string, p: nat, lead: string, name: string)
    requires AllIn(lead, Spaces) && At(s, p, lead) && name != [] && AllIn(name, NameChars) && At(s, p + |lead|, name)
    ensures RunEnd(s, p, Spaces) == p + |lead|
  {
    assert s[p + |lead| + 0] == name[0];
    NameCharsAreNotSpaces(name[0]);
    RunEndAt(s, p, lead, Spaces);
  }

  /** The white space before a written argument and its name are the first two runs. */
  lemma WrittenName(s: string, p: nat, lead: string, w: WrittenArgument, a: nat, b: nat, c: nat, t: nat, f: nat)
    requires AllIn(lead, Spaces) && WellWritten(w)
    requires At(s, p, lead + WriteArgument(w)) && Layout(p, lead, w, a, b, c, t, f)
    ensures RunEnd(s, p, Spaces) == a && RunEnd(s, a, NameChars) == b
    ensures s[a..b] == w.name && s[b] == '='
  {
    LayoutName(s, p, lead, w, a, b, c, t, f);
    LeadRun(s, p, lead, w.name);
    NameRun(s, a, w.name);
  }

  /** The quoted value of a written argument is one quoted token, followed by its trailing white space. */
  lemma WrittenValue(s: string, p: nat, lead: string, w: WrittenArgument, a: nat, b: nat, c: nat, t: nat, f: nat)
    requires AllIn(lead, Spaces) && WellWritten(w)
    requires At(s, p, lead + WriteArgument(w)) && Layout(p, lead, w, a, b, c, t, f)
    requires f == |s| || !IsSpace(s[f])
    ensures c < |s| && s[c] == w.quote
    ensures t <= |s| && QuotedTokenEnd(s, c + 1, w.quote) == Some(t - 1) && s[c..t] == Quote(w.quote, w.text)
    ensures RunEnd(s, t, Spaces) == f
  {
    LayoutValue(s, p, lead, w, a, b, c, t, f);
    AtHead(s, c, Quote(w.quote, w.text));
    QuotedTokenAt(s, c, w.quote, w.text);
    AtSlice(s, c, Quote(w.quote, w.text));
    RunEndAt(s, t, w.trail, Spaces);
  }

  /** One written argument, after some white space, is one match of the pattern. */
  lemma ArgumentAtWritten(s: string, p: nat, lead: string, w: WrittenArgument, f: nat)
    requires AllIn(lead, Spaces) && WellWritten(w)
    requires At(s, p, lead + WriteArgument(w))
    requires f == p + |lead| + |WriteArgument(w)| && (f == |s| || !IsSpace(s[f]))
    ensures ArgumentAt(s, p) == Some((Argument(w.name, Quote(w.quote, w.text)), f))
  {
    var a := p + |lead|;
    var b := a + |w.name|;
    var t := b + 1 + |Quote(w.quote, w.text)|;
    assert Layout(p, lead, w, a, b, b + 1, t, f);
    WrittenName(s, p, lead, w, a, b, b + 1, t, f);
    WrittenValue(s, p, lead, w, a, b, b + 1, t, f);
    ArgumentAtParts(s, p, a, b, t - 1, f, w.name, Quote(w.quote, w.text));
  }

  /** Nothing is matched in white space. */
  lemma {:induction false} SplitSpaces(s: string, p: nat)
    requires p <= |s|
    requires forall k :: p <= k < |s| ==> IsSpace(s[k])
    ensures SplitArguments(s, p) == []
    decreases |s| - p
  {
    if p < |s| {
      RunEndIn(s, p, Spaces);
      assert RunEnd(s, p, Spaces) == |s|;
      SplitSpaces(s, p + 1);
    }
  }

  /** Written arguments start with the first one's name. */
  lemma WrittenFirst(ws: seq<WrittenArgument>)
    requires ws != [] && WellWritten(ws[0])
    ensures WriteArguments(ws) != [] && InClass(WriteArguments(ws)[0], NameChars)
  {
    var w := ws[0];
    assert WriteArgument(w) == w.name + ("=" + Quote(w.quote, w.text) + w.trail);
    assert WriteArguments(ws)[0] == w.name[0];
  }

  /** Where the first of several written arguments ends and the rest begin. */
  lemma WrittenStep(s: string, p: nat, lead: string, ws: seq<WrittenArgument>, g: nat, f: nat)
    requires ws != []
    requires At(s, p, lead + WriteArguments(ws))
    requires g == p + |lead| && f == g + |WriteArgument(ws[0])|
    ensures At(s, p, lead + WriteArgument(ws[0])) && At(s, f, WriteArguments(ws[1..]))
    ensures f + |WriteArguments(ws[1..])| == p + |lead| + |WriteArguments(ws)|
  {
    var first, rest := WriteArgument(ws[0]), WriteArguments(ws[1..]);
    AtFront(s, p, lead, WriteArguments(ws), g);
    WriteArgumentsCons(ws);
    AtFront(s, g, first, rest, f);
    AtJoin(s, p, lead, first, g);
  }

  lemma WriteArgumentsCons(ws: seq<WrittenArgument>)
    requires ws != []
    ensures WriteArguments(ws) == WriteArgument(ws[0]) + WriteArguments(ws[1..])
  {
  }

  lemma AtFront(s: string, i: nat, x: string, y: string, j: nat)
    requires At(s, i, x + y) && j == i + |x|
    ensures At(s, i, x) && At(s, j, y)
  {
    AtSplit(s, i, x, y);
  }

  lemma AtJoin(s: string, i: nat, x: string, y: string, j: nat)
    requires At(s, i, x) && At(s, j, y) && j == i + |x|
    ensures At(s, i, x + y)
  {
    AtSplit(s, i, x, y);
  }

  lemma NoLead(s: string, f: nat, x: string)
    requires At(s, f, x)
    ensures At(s, f, [] + x)
  {
    assert [] + x == x;
  }

  /** What follows a written argument is the end or the next argument's name, never white space. */
  lemma WrittenNext(s: string, ws: seq<WrittenArgument>, f: nat, e: nat)
    requires forall i :: 0 <= i < |ws| ==> WellWritten(ws[i])
    requires At(s, f, WriteArguments(ws)) && e == f + |WriteArguments(ws)| && (e == |s| || !IsSpace(s[e]))
    ensures f == |s| || !IsSpace(s[f])
  {
    if ws != [] {
      WrittenFirst(ws);
      AtHead(s, f, WriteArguments(ws));
      NameCharsAreNotSpaces(WriteArguments(ws)[0]);
    }
  }

  /** White space and nothing else. */
  lemma LeadOnly(s: string, p: nat, lead: string)
    requires AllIn(lead, Spaces) && At(s, p, lead + WriteArguments([])) && p + |lead| == |s|
    ensures forall k :: p <= k < |s| ==> IsSpace(s[k])
  {
    assert lead + WriteArguments([]) == lead;
    forall k | p <= k < |s|
      ensures IsSpace(s[k])
    {
      assert s[p + (k - p)] == lead[k - p];
    }
  }

  lemma SplitStep(s: string, p: nat, arg: Argument<string>, f: nat)
    requires p <= |s| && ArgumentAt(s, p) == Some((arg, f))
    ensures f <= |s| && SplitArguments(s, p) == [arg] + SplitArguments(s, f)
  {
  }

  /**
   * Nothing from `e` on is matched, and the text there does not start with
   * white space (which the last argument's trailing white space would take).
   */
  predicate Unmatched(s: string, e: nat) {
    e <= |s| && SplitArguments(s, e) == [] && (e == |s| || !IsSpace(s[e]))
  }

  /** A character that is neither white space nor part of a name starts no match. */
  lemma NoArgumentAt(s: string, p: nat)
    requires p < |s| && !IsSpace(s[p]) && !InClass(s[p], NameChars)
    ensures ArgumentAt(s, p) == None && SplitArguments(s, p) == SplitArguments(s, p + 1)
  {
  }

  /**
   * Written arguments, after some white space and before a part where
   * nothing is matched, are matched one by one and nothing else is.
   */
  lemma {:induction false} SplitWritten(s: string, p: nat, lead: string, ws: seq<WrittenArgument>, e: nat)
    requires AllIn(lead, Spaces) && forall i :: 0 <= i < |ws| ==> WellWritten(ws[i])
    requires At(s, p, lead + WriteArguments(ws)) && e == p + |lead| + |WriteArguments(ws)| && Unmatched(s, e)
    requires ws == [] && lead != [] ==> e == |s|
    ensures SplitArguments(s, p) == Matches(ws)
    decreases |ws|
  {
    if ws == [] && lead != [] {
      LeadOnly(s, p, lead);
      SplitSpaces(s, p);
    } else if ws != [] {
      var f := p + |lead| + |WriteArgument(ws[0])|;
      WrittenStep(s, p, lead, ws, p + |lead|, f);
      WrittenNext(s, ws[1..], f, e);
      NoLead(s, f, WriteArguments(ws[1..]));
      ArgumentAtWritten(s, p, lead, ws[0], f);
      SplitWritten(s, f, [], ws[1..], e);
      SplitStep(s, p, Argument(ws[0].name, Quote(ws[0].quote, ws[0].text)), f);
      MatchesTail(ws);
    }
  }

  predicate DistinctWrittenNames(ws: seq<WrittenArgument>) {
    forall i, j :: 0 <= i < j < |ws| ==> ws[i].name != ws[j].name
  }

  /** The arguments written, each value as `build` makes it from the text that was quoted. */
  function Built<T>(ws: seq<WrittenArgument>, build: string -> T): (r: seq<Argument<T>>)
    ensures |r| == |ws|
    ensures forall i :: 0 <= i < |ws| ==> r[i] == Argument(ws[i].name, build(ws[i].text))
  {
    seq(|ws|, i requires 0 <= i < |ws| => Argument(ws[i].name, build(ws[i].text)))
  }

  lemma MatchesTail(ws: seq<WrittenArgument>)
    requires ws != []
    ensures Matches(ws) == [Argument(ws[0].name, Quote(ws[0].quote, ws[0].text))] + Matches(ws[1..])
  {
    assert Matches(ws)[1..] == Matches(ws[1..]);
  }

  lemma BuiltTail<T>(acc: seq<Argument<T>>, ws: seq<WrittenArgument>, build: string -> T)
    requires ws != []
    ensures acc + [Argument(ws[0].name, build(ws[0].text))] + Built(ws[1..], build) == acc + Built(ws, build)
  {
    assert Built(ws, build) == [Argument(ws[0].name, build(ws[0].text))] + Built(ws[1..], build);
  }

  /** A name new to `acc` and different from `name` is new after `name` is added. */
  lemma FreshTail<T>(acc: seq<Argument<T>>, ws: seq<WrittenArgument>, a: Argument<T>)
    requires DistinctWrittenNames(ws) && ws != [] && a.name == ws[0].name
    requires forall i :: 0 <= i < |ws| ==> IsQuote(ws[i].quote) && !HasArgument(acc, ws[i].name)
    ensures DistinctWrittenNames(ws[1..])
    ensures forall i :: 0 <= i < |ws[1..]| ==> IsQuote(ws[1..][i].quote) && !HasArgument(acc + [a], ws[1..][i].name)
  {
    forall i | 0 <= i < |ws[1..]|
      ensures IsQuote(ws[1..][i].quote) && !HasArgument(acc + [a], ws[1..][i].name)
    {
      assert ws[1..][i] == ws[i + 1];
    }
  }

  /** Arguments under new, distinct names are appended in order. */
  lemma {:induction false} CollectWritten<T>(acc: seq<Argument<T>>, ws: seq<WrittenArgument>, build: string -> T)
    requires DistinctWrittenNames(ws) && forall i :: 0 <= i < |ws| ==> IsQuote(ws[i].quote) && !HasArgument(acc, ws[i].name)
    ensures CollectArguments(acc, Matches(ws), build) == acc + Built(ws, build)
    decreases |ws|
  {
    if ws != [] {
      var w := ws[0];
      var a := Argument(w.name, build(w.text));
      UnquoteQuote(w.quote, w.text);
      MatchesTail(ws);
      FreshTail(acc, ws, a);
      CollectWritten(acc + [a], ws[1..], build);
      BuiltTail(acc, ws, build);
    }
  }

  /**
   * Reading back: arguments written with distinct names after some white
   * space, and followed by a part where nothing is matched, are collected as
   * exactly those names, in order, each holding the value `build` makes from
   * its unquoted text.
   */
  lemma ReadWrittenArguments<T>(s: string, lead: string, ws: seq<WrittenArgument>, tail: string, build: string -> T)
    requires AllIn(lead, Spaces) && DistinctWrittenNames(ws) && forall i :: 0 <= i < |ws| ==> WellWritten(ws[i])
    requires s == lead + WriteArguments(ws) + tail && Unmatched(s, |lead| + |WriteArguments(ws)|)
    requires ws == [] && lead != [] ==> tail == []
    ensures CollectArguments([], SplitArguments(s, 0), build) == Built(ws, build)
  {
    SplitOfWritten(s, lead, ws, tail);
    CollectWritten([], ws, build);
  }

  lemma SplitOfWritten(s: string, lead: string, ws: seq<WrittenArgument>, tail: string)
    requires AllIn(lead, Spaces) && forall i :: 0 <= i < |ws| ==> WellWritten(ws[i])
    requires s == lead + WriteArguments(ws) + tail && Unmatched(s, |lead| + |WriteArguments(ws)|)
    requires ws == [] && lead != [] ==> tail == []
    ensures SplitArguments(s, 0) == Matches(ws)
  {
    var e := |lead| + |WriteArguments(ws)|;
    WrittenPrefix(s, lead + WriteArguments(ws), tail);
    SplitWritten(s, 0, lead, ws, e);
  }

  lemma WrittenPrefix(s: string, x: string, tail: string)
    requires s == x + tail
    ensures At(s, 0, x)
  {
    AtWhole(s);
    AtFront(s, 0, x, tail, |x|);
  }

  /**
   * The whole of argument parsing on written arguments: when every required
   * argument is written and the view helper accepts the undeclared ones, the
   * result is the written arguments in order, built and coerced.
   */
  lemma ParseWritten<T>(s: string, lead: string, ws: seq<WrittenArgument>, tail: string, definitions: seq<ArgumentDefinition>,
                        build: string -> T, toBoolean: T -> T, acceptsUndeclared: seq<string> -> bool)
    requires AllIn(lead, Spaces) && DistinctWrittenNames(ws) && forall i :: 0 <= i < |ws| ==> WellWritten(ws[i])
    requires s == lead + WriteArguments(ws) + tail && Unmatched(s, |lead| + |WriteArguments(ws)|)
    requires ws == [] && lead != [] ==> tail == []
    requires forall d :: d in definitions && d.required ==> exists i :: 0 <= i < |ws| && ws[i].name == d.name
    requires acceptsUndeclared(UndeclaredNames(CoerceAll(Built(ws, build), definitions, toBoolean), definitions))
    ensures ParseArgumentsWith(s, definitions, build, toBoolean, acceptsUndeclared)
            == Success(CoerceAll(Built(ws, build), definitions, toBoolean))
  {
    var tree := CoerceAll(Built(ws, build), definitions, toBoolean);
    ReadWrittenArguments(s, lead, ws, tail, build);
    forall d | d in definitions && d.required
      ensures HasArgument(tree, d.name)
    {
      var i :| 0 <= i < |ws| && ws[i].name == d.name;
      assert tree[i].name == d.name;
    }
  }
}
