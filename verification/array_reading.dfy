/**
 * What the array-literal parser makes of written literals: the text written
 * for a well-formed tree is read back as the array the tree stands for, and
 * a quoted sub-array is spread into the array around it.
 */
module ArrayReading {
  import opened Wrappers
  import opened PhpArrays
  import opened Nodes
  import opened Scanning
  import opened Quoting
  import opened QuotedTokens
  import opened ArgumentTrees
  import opened ArrayLiterals
  import opened ArraySyntax

  /** The value the parser finds where a literal is written. */
  function RawOf(v: Literal): RawValue {
    match v
    case PathLit(p) => RawPath(p)
    case StrLit(q, ps) => RawQuoted(ShowLiteral(v))
    case BracesLit(items) => RawBraces(Show(items))
    case IntLit(d) => RawNumber(if AllDigits(d) then DigitsValue(d) else 0)
  }

  function PartOf(it: Item): Part {
    Part(it.key, RawOf(it.value))
  }

  function PartsOf(items: seq<Item>): seq<Part> {
    seq(|items|, k requires 0 <= k < |items| => PartOf(items[k]))
  }

  lemma PartsOfCons(items: seq<Item>)
    requires items != []
    ensures PartsOf(items) != [] && PartsOf(items)[0] == PartOf(items[0])
    ensures PartsOf(items)[1..] == PartsOf(items[1..])
  {
    assert forall k :: 0 <= k < |items| - 1 ==> PartsOf(items)[1..][k] == PartsOf(items[1..])[k];
  }

  /** Characters a value can start with. */
  predicate StartsValue(c: char) {
    IsLetter(c) || IsDigit(c) || IsQuote(c) || c == '{'
  }

  /** Characters no part can start at. */
  predicate Inert(c: char) {
    c == ',' || c == '}' || c == ':' || IsSpace(c)
  }

  lemma LiteralStart(v: Literal)
    requires WellFormedLiteral(v)
    ensures |ShowLiteral(v)| > 0 && StartsValue(ShowLiteral(v)[0])
  {
    match v
    case PathLit(p) =>
      assert ShowLiteral(v) == p;
    case StrLit(q, ps) =>
      ShowString(q, ps);
      WriteEscapedIsConcat([q], q, ps);
    case BracesLit(items) =>
      ShowBraces(items);
    case IntLit(d) =>
      assert ShowLiteral(v) == d;
  }

  // ---------------------------------------------------------------------------
  // Scanning with any forward pattern

  lemma TakeMatch<T>(s: string, i: nat, find: (string, nat) -> Option<(T, nat)>, p: T, j: nat)
    requires i <= |s| && Advances(find) && find(s, i) == Some((p, j))
    ensures MatchAll(s, i, find) == [p] + MatchAll(s, j, find)
  {
  }

  lemma SkipMiss<T>(s: string, i: nat, find: (string, nat) -> Option<(T, nat)>)
    requires i < |s| && Advances(find) && find(s, i).None?
    ensures MatchAll(s, i, find) == MatchAll(s, i + 1, find)
  {
  }

  /** Positions where nothing matches are passed over one by one. */
  lemma {:induction false} SkipMisses<T>(s: string, a: nat, b: nat, find: (string, nat) -> Option<(T, nat)>)
    requires a <= b <= |s| && Advances(find)
    requires forall k :: a <= k < b ==> find(s, k).None?
    ensures MatchAll(s, a, find) == MatchAll(s, b, find)
    decreases b - a
  {
    if a < b {
      SkipMiss(s, a, find);
      SkipMisses(s, a + 1, b, find);
    }
  }

  lemma ConsConcat<T>(p: T, x: seq<T>, y: seq<T>)
    ensures [p] + (x + y) == ([p] + x) + y
  {
  }

  /** `find` matches `ps[k]` from `starts[k]` to `ends[k]` for every `k`. */
  ghost predicate FoundAt<T>(s: string, find: (string, nat) -> Option<(T, nat)>, ps: seq<T>, starts: seq<nat>, ends: seq<nat>) {
    && |starts| == |ps| && |ends| == |ps|
    && (forall k {:trigger starts[k]} :: 0 <= k < |ps| ==> starts[k] <= |s| && find(s, starts[k]) == Some((ps[k], ends[k])))
  }

  /** Each match but the first starts two positions after the previous one ends, and `find` matches at neither position in between. */
  ghost predicate Separated<T>(s: string, find: (string, nat) -> Option<(T, nat)>, starts: seq<nat>, ends: seq<nat>) {
    && |ends| == |starts|
    && (forall k {:trigger starts[k]} :: 0 < k < |starts| ==>
          ends[k - 1] + 2 == starts[k] && find(s, ends[k - 1]).None? && find(s, ends[k - 1] + 1).None?)
  }

  /** The matches `ps` are found one after the other, with two positions between neighbours. */
  ghost predicate LaidOut<T>(s: string, find: (string, nat) -> Option<(T, nat)>, ps: seq<T>, starts: seq<nat>, ends: seq<nat>) {
    FoundAt(s, find, ps, starts, ends) && Separated(s, find, starts, ends)
  }

  /** Matches laid out one after the other are the ones `preg_match_all` reports from the `m`-th on. */
  lemma {:induction false} ScanLaidOut<T>(s: string, find: (string, nat) -> Option<(T, nat)>, ps: seq<T>, starts: seq<nat>, ends: seq<nat>, m: nat)
    requires Advances(find) && LaidOut(s, find, ps, starts, ends) && m < |ps|
    ensures ends[|ps| - 1] <= |s|
    ensures MatchAll(s, starts[m], find) == ps[m..] + MatchAll(s, ends[|ps| - 1], find)
    decreases |ps| - m
  {
    var last := |ps| - 1;
    TakeMatch(s, starts[m], find, ps[m], ends[m]);
    if m < last {
      assert ends[m] + 2 == starts[m + 1];
      assert MatchAll(s, ends[m], find) == MatchAll(s, starts[m + 1], find) by {
        SkipMiss(s, ends[m], find);
        SkipMiss(s, ends[m] + 1, find);
      }
      ScanLaidOut(s, find, ps, starts, ends, m + 1);
      ConsConcat(ps[m], ps[m + 1..], MatchAll(s, ends[last], find));
      assert ps[m..] == [ps[m]] + ps[m + 1..];
    } else {
      assert ps[m..] == [ps[m]];
    }
  }

  /** Laid-out matches from `i` to `e` are what `preg_match_all` reports there, before whatever follows `e`. */
  lemma ScanFromLaidOut<T>(s: string, i: nat, e: nat, find: (string, nat) -> Option<(T, nat)>, ps: seq<T>)
    requires Advances(find) && ps != []
    requires exists starts: seq<nat>, ends: seq<nat> ::
               LaidOut(s, find, ps, starts, ends) && starts[0] == i && ends[|ps| - 1] == e
    ensures i <= |s| && e <= |s|
    ensures MatchAll(s, i, find) == ps + MatchAll(s, e, find)
  {
    var starts, ends :| LaidOut(s, find, ps, starts, ends) && starts[0] == i && ends[|ps| - 1] == e;
    ScanLaidOut(s, find, ps, starts, ends, 0);
    assert ps[0..] == ps;
  }

  // ---------------------------------------------------------------------------
  // Where no part starts

  lemma NoPartAtInert(s: string, i: nat)
    requires i < |s| && Inert(s[i])
    ensures PartAt(s, i).None?
  {
    assert KeyPrefix(s, i).None?;
    assert NumberAt(s, i).None?;
  }

  /** Where no part starts, scanning moves on by one character. */
  lemma SkipNoPart(s: string, i: nat)
    requires i < |s| && PartAt(s, i).None?
    ensures SplitParts(s, i) == SplitParts(s, i + 1)
  {
    PartAtAdvances();
    SkipMiss(s, i, PartAt);
  }

  lemma SkipInert(s: string, i: nat)
    requires i < |s| && Inert(s[i])
    ensures SplitParts(s, i) == SplitParts(s, i + 1)
  {
    NoPartAtInert(s, i);
    SkipNoPart(s, i);
  }

  /** A part fails when its value is followed by something other than white space, `,`, `}` or the end. */
  lemma PartStuck(s: string, i: nat, v: nat)
    requires i <= v <= |s|
    requires (match KeyPrefix(s, i) case Some((_, j)) => j case None => i) == v
    requires ValueAt(s, v).Some?
    requires var e := ValueAt(s, v).value.1; e < |s| && !IsSpace(s[e]) && s[e] != ',' && s[e] != '}'
    ensures PartAt(s, i).None?
  {
  }

  // ---------------------------------------------------------------------------
  // Written literals are found where they are written

  /**
   * No key starts at `i` when nothing from `i` up to the first character
   * that cannot be in a key is white space, `:` or `=`.
   */
  lemma NoKeyUpTo(s: string, i: nat, n: nat)
    requires i <= n <= |s|
    requires n == |s| || !InClass(s[n], KeyChars)
    requires forall m :: i <= m <= n && m < |s| ==> !IsSpace(s[m]) && s[m] != ':' && s[m] != '='
    ensures KeyPrefix(s, i).None?
  {
    RunEndIn(s, i, KeyChars);
  }

  /** Before a value written without a key, the parser finds no key. */
  lemma NoKeyBefore(s: string, i: nat, v: Literal)
    requires WellFormedLiteral(v) && At(s, i, ShowLiteral(v)) && Follows(s, i + |ShowLiteral(v)|)
    ensures KeyPrefix(s, i).None?
  {
    match v
    case PathLit(p) =>
      assert ShowLiteral(v) == p;
      NoKeyInClass(s, i, p, PathChars);
    case IntLit(d) =>
      assert ShowLiteral(v) == d;
      assert AllIn(d, Digits);
      NoKeyInClass(s, i, d, Digits);
    case StrLit(q, ps) =>
      assert s[i] == q by {
        ShowString(q, ps);
        WriteEscapedIsConcat([q], q, ps);
        assert s[i + 0] == ShowLiteral(v)[0];
      }
      NoKeyUpTo(s, i, i);
    case BracesLit(items) =>
      assert s[i] == '{' by {
        ShowBraces(items);
        assert s[i + 0] == ShowLiteral(v)[0];
      }
      NoKeyUpTo(s, i, i);
  }

  /** A path or an integer written without a key is not taken for one. */
  lemma NoKeyInClass(s: string, i: nat, x: string, cls: CharClass)
    requires cls == PathChars || cls == Digits
    requires |x| > 0 && AllIn(x, cls) && At(s, i, x) && Follows(s, i + |x|)
    ensures KeyPrefix(s, i).None?
  {
    forall m | i <= m < i + |x|
      ensures !IsSpace(s[m]) && s[m] != ':' && s[m] != '='
    {
      assert s[i + (m - i)] == x[m - i];
      assert InClass(x[m - i], cls);
    }
    NoKeyUpTo(s, i, i + |x|);
  }

  lemma MatchPath(s: string, i: nat, p: string)
    requires WellFormedLiteral(PathLit(p)) && At(s, i, p) && Follows(s, i + |p|)
    ensures ValueAt(s, i) == Some((RawPath(p), i + |p|))
  {
    assert s[i + 0] == p[0];
    RunEndAt(s, i, p, PathChars);
    AtSlice(s, i, p);
  }

  lemma MatchString(s: string, i: nat, q: char, ps: seq<Piece>)
    requires WellFormedLiteral(StrLit(q, ps)) && At(s, i, WriteEscaped([q], q, ps) + [q])
    ensures ValueAt(s, i) == Some((RawQuoted(WriteEscaped([q], q, ps) + [q]), i + |WriteEscaped([q], q, ps)| + 1))
  {
    var w := WriteEscaped([q], q, ps);
    assert s[i] == q by {
      WriteEscapedIsConcat([q], q, ps);
      assert s[i + 0] == (w + [q])[0];
    }
    assert s[i..i + |w| + 1] == w + [q] by {
      AtSlice(s, i, w + [q]);
    }
    QuotedPieces(s, i, q, ps);
  }

  lemma MatchBraces(s: string, i: nat, items: seq<Item>)
    requires WellFormedItems(items) && At(s, i, "{" + Show(items) + "}")
    ensures ValueAt(s, i) == Some((RawBraces(Show(items)), i + |Show(items)| + 2))
  {
    var b := Show(items);
    AtSplit(s, i, "{" + b, "}");
    AtSplit(s, i, "{", b);
    assert s[i + 0] == "{"[0];
    assert s[i + |"{" + b| + 0] == "}"[0];
    BalancedItems(items);
    BraceSkip(s, i + 1, b, 1);
    AtSlice(s, i + 1, b);
  }

  lemma MatchInt(s: string, i: nat, d: string)
    requires WellFormedLiteral(IntLit(d)) && At(s, i, d) && Follows(s, i + |d|)
    ensures ValueAt(s, i) == Some((RawNumber(DigitsValue(d)), i + |d|))
  {
    assert s[i + 0] == d[0];
    assert AllIn(d, Digits);
    RunEndAt(s, i, d, Digits);
    AtSlice(s, i, d);
  }

  lemma MatchLiteral(s: string, i: nat, v: Literal)
    requires WellFormedLiteral(v) && At(s, i, ShowLiteral(v)) && Follows(s, i + |ShowLiteral(v)|)
    ensures ValueAt(s, i) == Some((RawOf(v), i + |ShowLiteral(v)|))
  {
    match v
    case PathLit(p) =>
      assert ShowLiteral(v) == p;
      MatchPath(s, i, p);
    case StrLit(q, ps) =>
      assert ShowLiteral(v) == WriteEscaped([q], q, ps) + [q] by {
        ShowString(q, ps);
      }
      MatchString(s, i, q, ps);
    case BracesLit(items) =>
      assert ShowLiteral(v) == "{" + Show(items) + "}" by {
        ShowBraces(items);
      }
      MatchBraces(s, i, items);
    case IntLit(d) =>
      assert ShowLiteral(v) == d;
      MatchInt(s, i, d);
  }

  /** After `key: ` the parser finds the key and the position of the value. */
  lemma MatchKey(s: string, i: nat, k: string)
    requires |k| > 0 && AllIn(k, KeyChars) && At(s, i, k + ": ")
    requires i + |k| + 2 < |s| && !IsSpace(s[i + |k| + 2])
    ensures KeyPrefix(s, i) == Some((k, i + |k| + 2))
  {
    AtSplit(s, i, k, ": ");
    assert s[i + |k| + 0] == ": "[0];
    assert s[i + |k| + 1] == ": "[1];
    RunEndAt(s, i, k, KeyChars);
    AtSlice(s, i, k);
    RunEndAt(s, i + |k| + 1, " ", Spaces);
  }

  /** A part is found from its key (or the absence of one), its value and what follows the value. */
  lemma PartFromPieces(s: string, i: nat, key: Option<string>, v: nat, value: RawValue, e: nat)
    requires i < |s| && v <= |s|
    requires match KeyPrefix(s, i) case Some((k, j)) => key == Some(k) && j == v case None => key.None? && v == i
    requires ValueAt(s, v) == Some((value, e)) && Follows(s, e)
    ensures PartAt(s, i) == Some((Part(key, value), e))
  {
    assert RunEnd(s, e, Spaces) == e;
  }

  lemma MatchItem(s: string, i: nat, it: Item)
    requires WellFormedItem(it) && At(s, i, ShowItem(it)) && Follows(s, i + |ShowItem(it)|)
    ensures PartAt(s, i) == Some((PartOf(it), i + |ShowItem(it)|))
  {
    var v := it.value;
    var lit := ShowLiteral(v);
    match it.key
    case Some(k) =>
      var vi := i + |k| + 2;
      assert |k| > 0 && AllIn(k, KeyChars);
      assert At(s, i, k + ": ") && At(s, vi, lit) && vi < |s| && StartsValue(s[vi])
        && |ShowItem(it)| == |k| + 2 + |lit| by {
        ShowKeyed(k, v);
        AtSplit(s, i, k + ": ", lit);
        LiteralStart(v);
        assert s[vi + 0] == lit[0];
      }
      MatchKey(s, i, k);
      MatchLiteral(s, vi, v);
      PartFromPieces(s, i, it.key, vi, RawOf(v), vi + |lit|);
    case None =>
      assert At(s, i, lit) && Follows(s, i + |lit|) && i < |s| by {
        ShowKeyless(v);
        LiteralStart(v);
      }
      NoKeyBefore(s, i, v);
      MatchLiteral(s, i, v);
      PartFromPieces(s, i, None, i, RawOf(v), i + |lit|);
  }

  /** Where the first of several written items ends, and where the rest starts. */
  lemma ConsText(s: string, i: nat, items: seq<Item>)
    requires |items| > 1 && At(s, i, Show(items))
    ensures var j := i + |ShowItem(items[0])|;
      j + 1 < |s| && s[j] == ',' && s[j + 1] == ' ' && At(s, i, ShowItem(items[0]))
      && At(s, j + 2, Show(items[1..])) && |Show(items)| == |ShowItem(items[0])| + 2 + |Show(items[1..])|
  {
    var a := ShowItem(items[0]);
    var j := i + |a|;
    ShowCons(items);
    AtSplit(s, i, a + ", ", Show(items[1..]));
    AtSplit(s, i, a, ", ");
    assert s[j + 0] == ", "[0] && s[j + 1] == ", "[1];
  }

  /** Where item `k` starts when `items` are written from `i` on. */
  function ItemStart(i: nat, items: seq<Item>, k: nat): nat
    requires k <= |items|
  {
    if k == 0 then i else i + |Show(items[..k])| + 2
  }

  /** Where item `k` ends when `items` are written from `i` on. */
  function ItemEnd(i: nat, items: seq<Item>, k: nat): nat
    requires k < |items|
  {
    i + |Show(items[..k + 1])|
  }

  /** A list of items is its first `m` items, `, `, and the rest. */
  lemma ShowSplit(items: seq<Item>, m: nat)
    requires 0 < m < |items|
    ensures Show(items) == Show(items[..m]) + ", " + Show(items[m..])
  {
    assert items[..m] + items[m..] == items;
    ShowAppend(items[..m], items[m..]);
  }

  /** The first `k + 1` items are the first `k`, then `, ` and item `k`. */
  lemma ShowPrefixStep(items: seq<Item>, k: nat)
    requires k < |items|
    ensures Show(items[..k + 1]) == if k == 0 then ShowItem(items[0]) else Show(items[..k]) + ", " + ShowItem(items[k])
  {
    if k == 0 {
      assert items[..1] == [items[0]];
      assert Show([items[0]]) == ShowItem(items[0]);
    } else {
      assert items[..k + 1] == items[..k] + [items[k]];
      ShowAppend(items[..k], [items[k]]);
      assert Show([items[k]]) == ShowItem(items[k]);
    }
  }

  /** Item `k` of a written list: its text at its start, then `, ` unless it is the last. */
  lemma ItemText(s: string, i: nat, items: seq<Item>, k: nat)
    requires k < |items| && At(s, i, Show(items))
    ensures ItemEnd(i, items, k) == ItemStart(i, items, k) + |ShowItem(items[k])|
    ensures At(s, ItemStart(i, items, k), ShowItem(items[k]))
    ensures k < |items| - 1 ==> var e := ItemEnd(i, items, k);
      e + 1 < |s| && s[e] == ',' && s[e + 1] == ' '
    ensures k == |items| - 1 ==> ItemEnd(i, items, k) == i + |Show(items)|
  {
    var pre := Show(items[..k + 1]);
    assert At(s, i, pre) && (k == |items| - 1 ==> pre == Show(items)) &&
      (k < |items| - 1 ==> i + |pre| + 1 < |s| && s[i + |pre|] == ',' && s[i + |pre| + 1] == ' ') by {
      if k < |items| - 1 {
        ShowSplit(items, k + 1);
        AtSplit(s, i, pre + ", ", Show(items[k + 1..]));
        AtSplit(s, i, pre, ", ");
        assert s[i + |pre| + 0] == ", "[0] && s[i + |pre| + 1] == ", "[1];
      } else {
        assert items[..k + 1] == items;
      }
    }
    ShowPrefixStep(items, k);
    if k > 0 {
      AtSplit(s, i, Show(items[..k]) + ", ", ShowItem(items[k]));
    }
  }

  /** Each written item is found as its part, from its start to its end. */
  lemma ItemFound(s: string, i: nat, items: seq<Item>, k: nat)
    requires WellFormedItems(items) && At(s, i, Show(items)) && Follows(s, i + |Show(items)|) && k < |items|
    ensures PartAt(s, ItemStart(i, items, k)) == Some((PartOf(items[k]), ItemEnd(i, items, k)))
  {
    ItemText(s, i, items, k);
    assert WellFormedItem(items[k]);
    MatchItem(s, ItemStart(i, items, k), items[k]);
  }

  /** No part starts on the `, ` after a written item. */
  lemma SeparatorSkipped(s: string, i: nat, items: seq<Item>, k: nat)
    requires At(s, i, Show(items)) && k < |items| - 1
    ensures ItemEnd(i, items, k) + 2 == ItemStart(i, items, k + 1)
    ensures PartAt(s, ItemEnd(i, items, k)).None? && PartAt(s, ItemEnd(i, items, k) + 1).None?
  {
    ItemText(s, i, items, k);
    NoPartAtInert(s, ItemEnd(i, items, k));
    NoPartAtInert(s, ItemEnd(i, items, k) + 1);
  }

  function ItemStarts(i: nat, items: seq<Item>): (r: seq<nat>)
    ensures |r| == |items|
  {
    seq(|items|, k requires 0 <= k < |items| => ItemStart(i, items, k))
  }

  function ItemEnds(i: nat, items: seq<Item>): (r: seq<nat>)
    ensures |r| == |items|
  {
    seq(|items|, k requires 0 <= k < |items| => ItemEnd(i, items, k))
  }

  /** Every written item is found where it is written. */
  lemma ItemsFound(s: string, i: nat, items: seq<Item>)
    requires WellFormedItems(items) && At(s, i, Show(items)) && Follows(s, i + |Show(items)|)
    ensures FoundAt(s, PartAt, PartsOf(items), ItemStarts(i, items), ItemEnds(i, items))
  {
    var ps, starts, ends := PartsOf(items), ItemStarts(i, items), ItemEnds(i, items);
    forall k | 0 <= k < |items|
      ensures starts[k] <= |s| && PartAt(s, starts[k]) == Some((ps[k], ends[k]))
    {
      ItemFound(s, i, items, k);
    }
  }

  /** No part is found on the separators of a written list. */
  lemma SeparatorsSkipped(s: string, i: nat, items: seq<Item>)
    requires At(s, i, Show(items))
    ensures Separated(s, PartAt, ItemStarts(i, items), ItemEnds(i, items))
  {
    var starts, ends := ItemStarts(i, items), ItemEnds(i, items);
    forall k | 0 < k < |items|
      ensures ends[k - 1] + 2 == starts[k] && PartAt(s, ends[k - 1]).None? && PartAt(s, ends[k - 1] + 1).None?
    {
      SeparatorSkipped(s, i, items, k - 1);
    }
  }

  /** The parts of a written list are laid out where its items are written. */
  lemma ItemsLaidOut(s: string, i: nat, items: seq<Item>)
    requires WellFormedItems(items) && At(s, i, Show(items)) && Follows(s, i + |Show(items)|) && items != []
    ensures exists starts: seq<nat>, ends: seq<nat> ::
              LaidOut(s, PartAt, PartsOf(items), starts, ends) && starts[0] == i && ends[|PartsOf(items)| - 1] == i + |Show(items)|
  {
    var starts, ends := ItemStarts(i, items), ItemEnds(i, items);
    ItemText(s, i, items, |items| - 1);
    ItemsFound(s, i, items);
    SeparatorsSkipped(s, i, items);
    assert LaidOut(s, PartAt, PartsOf(items), starts, ends);
  }

  /** The parts of a written list of items, followed by whatever comes after the list. */
  lemma SplitItems(s: string, i: nat, items: seq<Item>)
    requires WellFormedItems(items) && At(s, i, Show(items)) && Follows(s, i + |Show(items)|)
    ensures SplitParts(s, i) == PartsOf(items) + SplitParts(s, i + |Show(items)|)
  {
    if items == [] {
      assert PartsOf(items) == [];
    } else {
      ItemsLaidOut(s, i, items);
      SplitLaidOut(s, i, i + |Show(items)|, PartsOf(items));
    }
  }

  /** Parts laid out from `i` to `e` are the first ones found from `i`. */
  lemma SplitLaidOut(s: string, i: nat, e: nat, ps: seq<Part>)
    requires ps != []
    requires exists starts: seq<nat>, ends: seq<nat> ::
               LaidOut(s, PartAt, ps, starts, ends) && starts[0] == i && ends[|ps| - 1] == e
    ensures i <= |s| && e <= |s|
    ensures SplitParts(s, i) == ps + SplitParts(s, e)
  {
    PartAtAdvances();
    ScanFromLaidOut(s, i, e, PartAt, ps);
  }

  // ---------------------------------------------------------------------------
  // Reading back

  lemma {:induction false} ValueMeaning(it: Item, bound: nat, parseTemplate: string -> Node)
    requires WellFormedLiteral(it.value) && (RawOf(it.value).RawBraces? ==> |RawOf(it.value).inner| < bound)
    ensures ValueOf(RawOf(it.value), bound, parseTemplate) == Meaning(it.value, parseTemplate)
    decreases it, 0
  {
    match it.value
    case PathLit(_) =>
    case StrLit(q, ps) =>
      var w := WriteEscaped([q], q, ps) + [q];
      ShowString(q, ps);
      AtWhole(w);
      QuotedPieces(w, 0, q, ps);
    case BracesLit(items) =>
      ReadsBack(items, parseTemplate);
    case IntLit(_) =>
  }

  lemma {:induction false} CollectItems(acc: seq<Entry<ArrayValue>>, items: seq<Item>, bound: nat, parseTemplate: string -> Node)
    requires WellFormedItems(items) && InnerShorter(PartsOf(items), bound)
    ensures Collect(acc, PartsOf(items), bound, parseTemplate) == InterpretOnto(acc, items, parseTemplate)
    decreases items, 1
  {
    if items != [] {
      PartsOfCons(items);
      assert PartsOf(items)[0] in PartsOf(items);
      ValueMeaning(items[0], bound, parseTemplate);
      assert WellFormedItems(items[1..]);
      CollectItems(Assign(acc, items[0], parseTemplate), items[1..], bound, parseTemplate);
    }
  }

  /** A well-formed array literal, written out, is read back as the array it stands for. */
  lemma {:induction false} ReadsBack(items: seq<Item>, parseTemplate: string -> Node)
    requires WellFormedItems(items)
    ensures RecursiveArrayHandler(Show(items), parseTemplate) == Interpret(items, parseTemplate)
    decreases items, 2
  {
    var s := Show(items);
    AtWhole(s);
    SplitItems(s, 0, items);
    assert PartsOf(items) + [] == PartsOf(items);
    SplitPartsShorter(s, 0);
    CollectItems([], items, |s|, parseTemplate);
  }
}
