/**
 * The pieces the parser's patterns are built from: character classes, the
 * longest run of one class, brace matching, and `At`, which says where a
 * known text occurs inside the text being scanned.
 */
module Scanning {
  import opened Wrappers
  import opened PhpArrays

  predicate IsLetter(c: char) {
    'a' <= c <= 'z' || 'A' <= c <= 'Z'
  }

  /** What `\s` matches. */
  predicate IsSpace(c: char) {
    c == ' ' || c == '\t' || c == '\n' || c == '\r' || c == '\U{B}' || c == '\U{C}'
  }

  datatype CharClass =
      /** `\s` */
    | Spaces
      /** `[-\w]`: an array key */
    | KeyChars
      /** `[a-zA-Z0-9-_.]`: the rest of a variable path */
    | PathChars
      /** `\d` */
    | Digits
      /** `[a-zA-Z0-9:_-]`: a tag argument name */
    | NameChars

  predicate InClass(c: char, cls: CharClass) {
    match cls
    case Spaces => IsSpace(c)
    case KeyChars => IsLetter(c) || IsDigit(c) || c == '_' || c == '-'
    case PathChars => IsLetter(c) || IsDigit(c) || c == '_' || c == '-' || c == '.'
    case Digits => IsDigit(c)
    case NameChars => IsLetter(c) || IsDigit(c) || c == '_' || c == '-' || c == ':'
  }

  /** Every character of `x` is in the class. */
  predicate AllIn(x: string, cls: CharClass) {
    forall k :: 0 <= k < |x| ==> InClass(x[k], cls)
  }

  /** The end of the longest run of class `cls` that starts at `i`. */
  function RunEnd(s: string, i: nat, cls: CharClass): (j: nat)
    requires i <= |s|
    ensures i <= j <= |s|
    ensures j == |s| || !InClass(s[j], cls)
    decreases |s| - i
  {
    if i == |s| || !InClass(s[i], cls) then i else RunEnd(s, i + 1, cls)
  }

  /** Every character the run passes over is in the class. */
  lemma {:induction false} RunEndIn(s: string, i: nat, cls: CharClass)
    requires i <= |s|
    ensures forall k :: i <= k < RunEnd(s, i, cls) ==> InClass(s[k], cls)
    decreases |s| - i
  {
    if i < |s| && InClass(s[i], cls) {
      RunEndIn(s, i + 1, cls);
    }
  }

  // ---------------------------------------------------------------------------
  // Known texts inside the scanned text

  /** `x` occurs in `s` at position `i`. */
  predicate At(s: string, i: nat, x: string) {
    i + |x| <= |s| && forall k :: 0 <= k < |x| ==> s[i + k] == x[k]
  }

  lemma AtWhole(s: string)
    ensures At(s, 0, s)
  {
  }

  /** An occurrence of `x + y` is an occurrence of `x` followed by one of `y`. */
  lemma AtSplit(s: string, i: nat, x: string, y: string)
    ensures At(s, i, x + y) <==> At(s, i, x) && At(s, i + |x|, y)
  {
    if At(s, i, x) && At(s, i + |x|, y) {
      forall k | 0 <= k < |x + y|
        ensures s[i + k] == (x + y)[k]
      {
        if k >= |x| {
          assert s[i + |x| + (k - |x|)] == y[k - |x|];
        }
      }
    }
    if At(s, i, x + y) {
      forall k | 0 <= k < |x|
        ensures s[i + k] == x[k]
      {
        assert s[i + k] == (x + y)[k];
      }
      forall k | 0 <= k < |y|
        ensures s[i + |x| + k] == y[k]
      {
        assert s[i + (|x| + k)] == (x + y)[|x| + k];
      }
    }
  }

  lemma AtSlice(s: string, i: nat, x: string)
    requires At(s, i, x)
    ensures s[i..i + |x|] == x
  {
  }

  /** A run of one class over a known text ends where the text ends, if the next character is outside the class. */
  lemma RunEndAt(s: string, i: nat, x: string, cls: CharClass)
    requires At(s, i, x) && AllIn(x, cls)
    requires i + |x| == |s| || !InClass(s[i + |x|], cls)
    ensures RunEnd(s, i, cls) == i + |x|
  {
    RunEndIn(s, i, cls);
    forall k | i <= k < i + |x|
      ensures InClass(s[k], cls)
    {
      assert s[i + (k - i)] == x[k - i];
    }
  }

  // ---------------------------------------------------------------------------
  // Braces

  function BraceDelta(c: char): int {
    if c == '{' then 1 else if c == '}' then -1 else 0
  }

  /** Opened minus closed braces among the first `k` characters of `x`. */
  function Depth(x: string, k: nat): int
    requires k <= |x|
  {
    if k == 0 then 0 else Depth(x, k - 1) + BraceDelta(x[k - 1])
  }

  /** Every prefix opens at least as many braces as it closes, and the whole text closes them all. */
  predicate Balanced(x: string) {
    Depth(x, |x|) == 0 && forall k :: 0 <= k <= |x| ==> Depth(x, k) >= 0
  }

  predicate NoBraces(x: string) {
    forall k :: 0 <= k < |x| ==> x[k] != '{' && x[k] != '}'
  }

  /**
   * The index of the `}` that closes a `{` when scanning from `i` with
   * `depth` braces open; nested pairs are skipped. Quotes play no part: a
   * brace inside a quoted text counts like any other.
   */
  function BraceEnd(s: string, i: nat, depth: nat): (r: Option<nat>)
    requires i <= |s| && depth >= 1
    ensures r.Some? ==> i <= r.value < |s| && s[r.value] == '}'
    decreases |s| - i
  {
    if i == |s| then None
    else if s[i] == '{' then BraceEnd(s, i + 1, depth + 1)
    else if s[i] == '}' then (if depth == 1 then Some(i) else BraceEnd(s, i + 1, depth - 1))
    else BraceEnd(s, i + 1, depth)
  }

  /** Scanning over the part of a known text from `k` on changes the depth by that part's net count. */
  lemma {:induction false} BraceSkipFrom(s: string, i: nat, x: string, k: nat, c: nat)
    requires At(s, i, x) && k <= |x| && c >= 1
    requires forall m :: k <= m <= |x| ==> c + Depth(x, m) - Depth(x, k) >= 1
    ensures c + Depth(x, |x|) - Depth(x, k) >= 1
    ensures BraceEnd(s, i + k, c) == BraceEnd(s, i + |x|, c + Depth(x, |x|) - Depth(x, k))
    decreases |x| - k
  {
    assert c + Depth(x, |x|) - Depth(x, k) >= 1;
    if k < |x| {
      assert s[i + k] == x[k];
      assert c + Depth(x, k + 1) - Depth(x, k) >= 1;
      var c' := c + BraceDelta(x[k]);
      forall m | k + 1 <= m <= |x|
        ensures c' + Depth(x, m) - Depth(x, k + 1) >= 1
      {
        assert c + Depth(x, m) - Depth(x, k) >= 1;
      }
      BraceSkipFrom(s, i, x, k + 1, c');
    }
  }

  /** A balanced text is passed over without closing anything. */
  lemma BraceSkip(s: string, i: nat, x: string, depth: nat)
    requires At(s, i, x) && Balanced(x) && depth >= 1
    ensures BraceEnd(s, i, depth) == BraceEnd(s, i + |x|, depth)
  {
    BraceSkipFrom(s, i, x, 0, depth);
  }

  /** Depth of a concatenation: the first part's, then the second's on top of it. */
  lemma {:induction false} DepthConcat(x: string, y: string, m: nat)
    requires m <= |x + y|
    ensures Depth(x + y, m) == if m <= |x| then Depth(x, m) else Depth(x, |x|) + Depth(y, m - |x|)
  {
    if m > 0 {
      DepthConcat(x, y, m - 1);
      if m > |x| {
        assert (x + y)[m - 1] == y[m - 1 - |x|];
      } else {
        assert (x + y)[m - 1] == x[m - 1];
      }
    }
  }

  lemma BalancedConcat(x: string, y: string)
    requires Balanced(x) && Balanced(y)
    ensures Balanced(x + y)
  {
    forall m | 0 <= m <= |x + y|
      ensures Depth(x + y, m) >= 0
    {
      DepthConcat(x, y, m);
    }
    DepthConcat(x, y, |x + y|);
  }

  lemma {:induction false} NoBracesDepth(x: string, m: nat)
    requires NoBraces(x) && m <= |x|
    ensures Depth(x, m) == 0
  {
    if m > 0 {
      NoBracesDepth(x, m - 1);
    }
  }

  lemma NoBracesBalanced(x: string)
    requires NoBraces(x)
    ensures Balanced(x)
  {
    forall m | 0 <= m <= |x|
      ensures Depth(x, m) == 0
    {
      NoBracesDepth(x, m);
    }
  }

  /** A balanced text in a pair of braces is balanced. */
  lemma BalancedWrap(x: string)
    requires Balanced(x)
    ensures Balanced("{" + x + "}")
  {
    assert Depth("{", 1) == 1;
    assert Depth("}", 1) == -1;
    var o := "{" + x;
    forall m | 0 <= m <= |o|
      ensures Depth(o, m) >= 1 || m == 0
    {
      DepthConcat("{", x, m);
    }
    DepthConcat("{", x, |o|);
    forall m | 0 <= m <= |o + "}"|
      ensures Depth(o + "}", m) >= 0
    {
      DepthConcat(o, "}", m);
    }
    DepthConcat(o, "}", |o + "}"|);
  }
}
