/**
 * A quoted sub-array, `key: '{...}'`, is not read as one value: the quoted
 * value stops at the first quote inside the braces, so the part for `key`
 * fails, the scanner moves on character by character, and it finds the
 * items inside the braces as if they had been written in the outer array.
 * Their keys then override or extend the outer ones.
 */
module ArraySpread {
  import opened Wrappers
  import opened PhpArrays
  import opened Nodes
  import opened Scanning
  import opened Quoting
  import opened QuotedTokens
  import opened ArrayLiterals
  import opened ArraySyntax
  import opened ArrayReading

  /** `items, key: q{inner}q`: the outer items, then the quoted sub-array under `key`. */
  function SpreadText(items: seq<Item>, key: string, q: char, inner: seq<Item>): string {
    Show(items) + (", " + (key + (": " + ([q] + ("{" + (Show(inner) + ("}" + [q])))))))
  }

  /**
   * The first quote in the text of the sub-array is at `m`, no backslash comes
   * before it, and what follows it can neither be passed over as white space
   * nor end a part.
   */
  predicate StopsAt(q: char, t: string, m: nat) {
    m + 1 < |t| && t[m] == q && Plain(q, t[..m]) && !IsSpace(t[m + 1]) && t[m + 1] != ',' && t[m + 1] != '}'
  }

  /**
   * The shape of the text after the outer items, which end at `a`: `, `,
   * `key`, `: `, the quote, `{`, `t`, `}` and the quote.
   */
  predicate SpreadShape(s: string, a: nat, key: string, q: char, t: string) {
    var k := a + 2;
    var c := k + |key|;
    var ip := c + 4;
    && |s| == ip + |t| + 2
    && s[a] == ',' && s[a + 1] == ' '
    && At(s, k, key)
    && s[c] == ':' && s[c + 1] == ' ' && s[c + 2] == q && s[c + 3] == '{'
    && At(s, ip, t)
    && s[|s| - 2] == '}' && s[|s| - 1] == q
  }

  // ---------------------------------------------------------------------------
  // The text

  lemma AtFront(x: string, y: string)
    ensures At(x + y, 0, x)
  {
    assert forall j :: 0 <= j < |x| ==> (x + y)[0 + j] == x[j];
  }

  lemma SpreadLayout(items: seq<Item>, key: string, q: char, inner: seq<Item>)
    ensures var s := SpreadText(items, key, q, inner);
      At(s, 0, Show(items)) && SpreadShape(s, |Show(items)|, key, q, Show(inner))
  {
    var s := SpreadText(items, key, q, inner);
    var a := |Show(items)|;
    var t := Show(inner);
    var r6 := "}" + [q];
    var r5 := t + r6;
    var r4 := "{" + r5;
    var r3 := [q] + r4;
    var r2 := ": " + r3;
    var r1 := key + r2;
    var r0 := ", " + r1;
    assert s == Show(items) + r0;
    assert At(s, 0, Show(items)) by {
      AtFront(Show(items), r0);
    }
    forall j | 0 <= j < |key|
      ensures s[a + 2 + j] == key[j]
    {
      assert r0[2 + j] == r1[j] == key[j];
    }
    forall j | 0 <= j < |t|
      ensures s[a + |key| + 6 + j] == t[j]
    {
      assert r0[|key| + 6 + j] == r1[|key| + 4 + j] == r2[4 + j] == r3[2 + j] == r4[1 + j] == r5[j] == t[j];
    }
  }

  // ---------------------------------------------------------------------------
  // Where the scanner finds nothing

  /** The quoted value starting at the quote stops inside the braces, before a character that ends no part. */
  lemma QuotedValueStuck(s: string, a: nat, key: string, q: char, t: string, m: nat)
    requires SpreadShape(s, a, key, q, t) && IsQuote(q) && StopsAt(q, t, m)
    ensures var qp := a + |key| + 4;
      ValueAt(s, qp).Some? &&
      var e := ValueAt(s, qp).value.1; e < |s| && !IsSpace(s[e]) && s[e] != ',' && s[e] != '}'
  {
    var qp := a + |key| + 4;
    var ip := qp + 2;
    var x := "{" + t[..m];
    assert At(s, qp + 1, x) by {
      forall j | 0 <= j < |x|
        ensures s[qp + 1 + j] == x[j]
      {
        if j > 0 {
          assert s[ip + (j - 1)] == t[j - 1];
        }
      }
    }
    assert Plain(q, x) by {
      assert forall j :: 0 < j < |x| ==> x[j] == t[..m][j - 1];
    }
    assert s[ip + m] == q && s[ip + m + 1] == t[m + 1] by {
      assert s[ip + m] == t[m];
      assert s[ip + (m + 1)] == t[m + 1];
    }
    QuotedTokenPlain(s, qp + 1, q, x);
  }

  /** No key starts at a character that is neither a key character nor white space, `:` or `=`. */
  lemma NoKeyAt(s: string, i: nat)
    requires i < |s| && !InClass(s[i], KeyChars) && !IsSpace(s[i]) && s[i] != ':' && s[i] != '='
    ensures KeyPrefix(s, i).None?
  {
    NoKeyUpTo(s, i, i);
  }

  /** Inside the key, a shorter key is found, and its value is the stuck quoted one. */
  lemma KeyTailStuck(s: string, a: nat, key: string, q: char, t: string, m: nat, p: nat)
    requires SpreadShape(s, a, key, q, t) && IsQuote(q) && StopsAt(q, t, m)
    requires AllIn(key, KeyChars) && a + 2 <= p < a + 2 + |key|
    ensures PartAt(s, p).None?
  {
    var k := a + 2;
    var c := k + |key|;
    var tail := key[p - k..];
    assert At(s, p, tail + ": ") by {
      forall j | 0 <= j < |tail| + 2
        ensures s[p + j] == (tail + ": ")[j]
      {
        if j < |tail| {
          assert s[k + (p - k + j)] == key[p - k + j];
        }
      }
    }
    assert AllIn(tail, KeyChars) by {
      forall j | 0 <= j < |tail|
        ensures InClass(tail[j], KeyChars)
      {
        assert tail[j] == key[p - k + j];
      }
    }
    MatchKey(s, p, tail);
    QuotedValueStuck(s, a, key, q, t, m);
    PartStuck(s, p, c + 2);
  }

  /** At the opening quote no key starts, and the value is the stuck quoted one. */
  lemma QuoteStuck(s: string, a: nat, key: string, q: char, t: string, m: nat)
    requires SpreadShape(s, a, key, q, t) && IsQuote(q) && StopsAt(q, t, m)
    ensures PartAt(s, a + |key| + 4).None?
  {
    var qp := a + |key| + 4;
    NoKeyAt(s, qp);
    QuotedValueStuck(s, a, key, q, t, m);
    PartStuck(s, qp, qp);
  }

  /** At the `{` the whole sub-array is the value, and the closing quote after it ends no part. */
  lemma BraceStuck(s: string, a: nat, key: string, q: char, t: string)
    requires SpreadShape(s, a, key, q, t) && IsQuote(q) && Balanced(t)
    ensures PartAt(s, a + |key| + 5).None?
  {
    var bp := a + |key| + 5;
    var ie := bp + 1 + |t|;
    NoKeyAt(s, bp);
    BraceSkip(s, bp + 1, t, 1);
    assert BraceEnd(s, ie, 1) == Some(ie);
    PartStuck(s, bp, bp);
  }

  /** The last quote opens a value that is never closed. */
  lemma LastQuoteStuck(s: string, a: nat, key: string, q: char, t: string)
    requires SpreadShape(s, a, key, q, t) && IsQuote(q)
    ensures PartAt(s, |s| - 1).None?
  {
    NoKeyAt(s, |s| - 1);
  }

  /** Inside the key no part is found. */
  lemma KeyGap(s: string, a: nat, key: string, q: char, t: string, m: nat)
    requires SpreadShape(s, a, key, q, t) && IsQuote(q) && StopsAt(q, t, m)
    requires AllIn(key, KeyChars)
    ensures Misses(s, a + 2, a + 2 + |key|, PartAt)
  {
    forall p | a + 2 <= p < a + 2 + |key|
      ensures PartAt(s, p).None?
    {
      KeyTailStuck(s, a, key, q, t, m, p);
    }
  }

  /**
   * Where `find` matches nothing in a text laid out as `, key: q{t}q` from
   * `a` on, with a key of length `n` and `t` of length `tl`: the `, `, the
   * key, the `: `, the quote and the `{` before `t`, and the `}` and the
   * quote after it.
   */
  ghost predicate Skippable<T>(s: string, a: nat, n: nat, tl: nat, find: (string, nat) -> Option<(T, nat)>) {
    var c := a + 2 + n;
    && |s| == c + 4 + tl + 2
    && find(s, a).None? && find(s, a + 1).None?
    && Misses(s, a + 2, c, find)
    && find(s, c).None? && find(s, c + 1).None? && find(s, c + 2).None? && find(s, c + 3).None?
    && find(s, |s| - 2).None? && find(s, |s| - 1).None?
  }

  /** `find` matches nowhere from `lo` up to `hi`. */
  ghost predicate Misses<T>(s: string, lo: nat, hi: nat, find: (string, nat) -> Option<(T, nat)>) {
    forall p :: lo <= p < hi ==> find(s, p).None?
  }

  /** The `, ` before the key and the `: ` after it start no part. */
  lemma SeparatorsInert(s: string, a: nat, key: string, q: char, t: string)
    requires SpreadShape(s, a, key, q, t)
    ensures var c := a + 2 + |key|;
      PartAt(s, a).None? && PartAt(s, a + 1).None? && PartAt(s, c).None? && PartAt(s, c + 1).None?
  {
    var c := a + 2 + |key|;
    NoPartAtInert(s, a);
    NoPartAtInert(s, a + 1);
    NoPartAtInert(s, c);
    NoPartAtInert(s, c + 1);
  }

  /** The `}` and the quote after the sub-array start no part. */
  lemma EndStuck(s: string, a: nat, key: string, q: char, t: string)
    requires SpreadShape(s, a, key, q, t) && IsQuote(q)
    ensures PartAt(s, |s| - 2).None? && PartAt(s, |s| - 1).None?
  {
    NoPartAtInert(s, |s| - 2);
    LastQuoteStuck(s, a, key, q, t);
  }

  /** Around a quoted sub-array the scanner finds nothing. */
  lemma SpreadSkippable(s: string, a: nat, key: string, q: char, inner: seq<Item>, m: nat)
    requires SpreadShape(s, a, key, q, Show(inner)) && IsQuote(q) && StopsAt(q, Show(inner), m)
    requires AllIn(key, KeyChars) && WellFormedItems(inner)
    ensures Skippable(s, a, |key|, |Show(inner)|, PartAt)
  {
    var t := Show(inner);
    BalancedItems(inner);
    SeparatorsInert(s, a, key, q, t);
    KeyGap(s, a, key, q, t, m);
    QuoteStuck(s, a, key, q, t, m);
    BraceStuck(s, a, key, q, t);
    EndStuck(s, a, key, q, t);
  }

  // ---------------------------------------------------------------------------
  // What the scanner finds

  /** Scanning passes over the `, key: q{` before the sub-array. */
  lemma SkipHead<T>(s: string, a: nat, n: nat, tl: nat, find: (string, nat) -> Option<(T, nat)>)
    requires Advances(find) && Skippable(s, a, n, tl, find)
    ensures MatchAll(s, a, find) == MatchAll(s, a + n + 6, find)
  {
    var c := a + 2 + n;
    SkipMiss(s, a, find);
    SkipMiss(s, a + 1, find);
    SkipMisses(s, a + 2, c, find);
    SkipMiss(s, c, find);
    SkipMiss(s, c + 1, find);
    SkipMiss(s, c + 2, find);
    SkipMiss(s, c + 3, find);
  }

  /** Scanning finds nothing in the `}q` after the sub-array. */
  lemma SkipTail<T>(s: string, a: nat, n: nat, tl: nat, find: (string, nat) -> Option<(T, nat)>)
    requires Advances(find) && Skippable(s, a, n, tl, find)
    ensures MatchAll(s, |s| - 2, find) == []
  {
    SkipMiss(s, |s| - 2, find);
    SkipMiss(s, |s| - 1, find);
  }

  /** Passing over what `find` skips, the matches after the outer items are those found inside the braces. */
  lemma ScanSkippable<T>(s: string, a: nat, n: nat, tl: nat, find: (string, nat) -> Option<(T, nat)>, ps: seq<T>)
    requires Advances(find) && Skippable(s, a, n, tl, find)
    requires MatchAll(s, a + n + 6, find) == ps + MatchAll(s, a + n + 6 + tl, find)
    ensures MatchAll(s, a, find) == ps
  {
    SkipHead(s, a, n, tl, find);
    SkipTail(s, a, n, tl, find);
    assert ps + [] == ps;
  }

  /** The parts found after the outer items are those of the items written inside the braces. */
  lemma ScanSpread(s: string, a: nat, n: nat, inner: seq<Item>)
    requires Skippable(s, a, n, |Show(inner)|, PartAt) && WellFormedItems(inner)
    requires At(s, a + n + 6, Show(inner)) && Follows(s, a + n + 6 + |Show(inner)|)
    ensures SplitParts(s, a) == PartsOf(inner)
  {
    SplitItems(s, a + n + 6, inner);
    PartAtAdvances();
    ScanSkippable(s, a, n, |Show(inner)|, PartAt, PartsOf(inner));
  }

  /** After the outer items, the scanner finds exactly the items inside the braces. */
  lemma SpreadParts(s: string, a: nat, key: string, q: char, inner: seq<Item>, m: nat)
    requires SpreadShape(s, a, key, q, Show(inner)) && IsQuote(q) && StopsAt(q, Show(inner), m)
    requires AllIn(key, KeyChars) && WellFormedItems(inner)
    ensures SplitParts(s, a) == PartsOf(inner)
  {
    SpreadSkippable(s, a, key, q, inner, m);
    ScanSpreadShape(s, a, key, q, inner);
  }

  /** Once the outer items are skippable, the scanner reads the inner text that follows them. */
  lemma ScanSpreadShape(s: string, a: nat, key: string, q: char, inner: seq<Item>)
    requires SpreadShape(s, a, key, q, Show(inner)) && Skippable(s, a, |key|, |Show(inner)|, PartAt) && WellFormedItems(inner)
    ensures SplitParts(s, a) == PartsOf(inner)
  {
    SpreadInner(s, a, key, q, Show(inner));
    ScanSpread(s, a, |key|, inner);
  }

  /** In a spread, the inner text sits after the key and is followed by the closing brace. */
  lemma SpreadInner(s: string, a: nat, key: string, q: char, t: string)
    requires SpreadShape(s, a, key, q, t)
    ensures At(s, a + |key| + 6, t) && Follows(s, a + |key| + 6 + |t|)
  {
    assert s[a + |key| + 6 + |t|] == '}';
  }

  /** Writing two lists of parts one after the other is writing their concatenation. */
  lemma {:induction false} CollectAppend(acc: seq<Entry<ArrayValue>>, x: seq<Part>, y: seq<Part>, bound: nat, parseTemplate: string -> Node)
    requires InnerShorter(x, bound) && InnerShorter(y, bound)
    ensures InnerShorter(x + y, bound)
    ensures Collect(acc, x + y, bound, parseTemplate) == Collect(Collect(acc, x, bound, parseTemplate), y, bound, parseTemplate)
    decreases |x|
  {
    if x == [] {
      assert x + y == y;
    } else {
      assert (x + y)[0] == x[0] && (x + y)[1..] == x[1..] + y;
      assert x[0] in x;
      assert InnerShorter(x[1..], bound) by {
        assert forall z :: z in x[1..] ==> z in x;
      }
      CollectAppend(Store(acc, x[0], bound, parseTemplate), x[1..], y, bound, parseTemplate);
    }
  }

  /**
   * A quoted sub-array after a list of items is spread into the array: the
   * result is the array of the outer items followed by the inner ones, later
   * keys overriding earlier ones.
   */
  lemma Spreads(items: seq<Item>, key: string, q: char, inner: seq<Item>, m: nat, parseTemplate: string -> Node)
    requires WellFormedItems(items) && WellFormedItems(inner)
    requires |key| > 0 && AllIn(key, KeyChars) && IsQuote(q) && StopsAt(q, Show(inner), m)
    ensures RecursiveArrayHandler(SpreadText(items, key, q, inner), parseTemplate) == Interpret(items + inner, parseTemplate)
  {
    var s := SpreadText(items, key, q, inner);
    var a := |Show(items)|;
    assert SplitParts(s, 0) == PartsOf(items) + PartsOf(inner) by {
      SpreadLayout(items, key, q, inner);
      SplitItems(s, 0, items);
      SpreadParts(s, a, key, q, inner, m);
    }
    SplitPartsShorter(s, 0);
    assert InnerShorter(PartsOf(items), |s|) && InnerShorter(PartsOf(inner), |s|) by {
      assert forall z :: z in PartsOf(items) ==> z in PartsOf(items) + PartsOf(inner);
      assert forall z :: z in PartsOf(inner) ==> z in PartsOf(items) + PartsOf(inner);
    }
    CollectAppend([], PartsOf(items), PartsOf(inner), |s|, parseTemplate);
    CollectItems([], items, |s|, parseTemplate);
    CollectItems(InterpretOnto([], items, parseTemplate), inner, |s|, parseTemplate);
    InterpretAppend([], items, inner, parseTemplate);
  }
}
