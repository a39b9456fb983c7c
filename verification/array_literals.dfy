/**
 * `recursiveArrayHandler`: the array-literal syntax `key: value, ...` read the
 * way a global pattern match reads it. The scanner tries to match one part
 * at each position; where no part starts, it moves on by one character, and
 * after a part it resumes where the part ended. A part is an optional key
 * (`name:` or `name=`), a value, optional white space, and then the end of
 * the text, a `,` or a `}` must follow. A value is a variable path, a quoted
 * string, a `{...}` sub-array or an integer. Keyed parts are written under
 * their key and keyless ones appended, in order, into a PHP array.
 */
module ArrayLiterals {
  import opened Wrappers
  import opened PhpArrays
  import opened Nodes
  import opened Scanning
  import opened Quoting
  import opened QuotedTokens
  import opened ArgumentTrees

  /** A value as the pattern finds it, before it becomes part of the array. */
  datatype RawValue =
      /** `[+-]?\d+` */
    | RawNumber(number: int)
      /** A letter followed by letters, digits, `_`, `-` and `.` */
    | RawPath(path: string)
      /** A quoted string, quotes included */
    | RawQuoted(token: string)
      /** The text between a `{` and its matching `}` */
    | RawBraces(inner: string)

  datatype Part = Part(key: Option<string>, value: RawValue)

  /**
   * A bare `key` then white space, `:` or `=`, white space: the key and where
   * the value starts. Quoted keys are not read as keys.
   */
  function KeyPrefix(s: string, i: nat): (r: Option<(string, nat)>)
    requires i <= |s|
    ensures r.Some? ==> i + |r.value.0| < r.value.1 <= |s| && |r.value.0| > 0
  {
    var e := RunEnd(s, i, KeyChars);
    var c := RunEnd(s, e, Spaces);
    if e > i && c < |s| && (s[c] == ':' || s[c] == '=') then Some((s[i..e], RunEnd(s, c + 1, Spaces)))
    else None
  }

  /**
   * An optional sign and at least one digit: the value and where it ends.
   * Only integers are read; a `.` ends the number (floats are not modelled).
   */
  function NumberAt(s: string, i: nat): (r: Option<(int, nat)>)
    requires i <= |s|
    ensures r.Some? ==> i < r.value.1 <= |s|
  {
    var d := if i < |s| && (s[i] == '+' || s[i] == '-') then i + 1 else i;
    var e := RunEnd(s, d, Digits);
    if e == d then None
    else
      RunEndIn(s, d, Digits);
      var n := DigitsValue(s[d..e]);
      Some((if d > i && s[i] == '-' then 0 - n else n, e))
  }

  /** The value that starts at `i` and where it ends; the first character decides its form. */
  function ValueAt(s: string, i: nat): (r: Option<(RawValue, nat)>)
    requires i <= |s|
    ensures r.Some? ==> i < r.value.1 <= |s|
    ensures r.Some? && r.value.0.RawBraces? ==> |r.value.0.inner| < |s|
  {
    if i == |s| then None
    else if IsLetter(s[i]) then
      var e := RunEnd(s, i, PathChars);
      Some((RawPath(s[i..e]), e))
    else if IsQuote(s[i]) then
      match QuotedTokenEnd(s, i + 1, s[i])
      case Some(e) => Some((RawQuoted(s[i..e + 1]), e + 1))
      case None => None
    else if s[i] == '{' then
      match BraceEnd(s, i + 1, 1)
      case Some(e) => Some((RawBraces(s[i + 1..e]), e + 1))
      case None => None
    else
      match NumberAt(s, i)
      case Some((n, e)) => Some((RawNumber(n), e))
      case None => None
  }

  /** The end of the text, a `,` or a `}` follows position `j`. */
  predicate Follows(s: string, j: nat) {
    j == |s| || (j < |s| && (s[j] == ',' || s[j] == '}'))
  }

  /**
   * The part that matches at `i` and where scanning resumes; `None` at and
   * after the end of the text. A key, when one is there, must be followed by
   * its value; only without one is a bare value tried.
   */
  function PartAt(s: string, i: nat): (r: Option<(Part, nat)>)
    ensures r.Some? ==> i < r.value.1 <= |s| && Follows(s, r.value.1)
    ensures r.Some? && r.value.0.value.RawBraces? ==> |r.value.0.value.inner| < |s|
  {
    if i >= |s| then None
    else
      var (key, v) := match KeyPrefix(s, i) case Some((k, j)) => (Some(k), j) case None => (None, i);
      match ValueAt(s, v)
      case None => None
      case Some((value, e)) =>
        var t := RunEnd(s, e, Spaces);
        if Follows(s, t) then Some((Part(key, value), t)) else None
  }

  /** A pattern that matches forward: a match found at `k` ends after `k`, within the text. */
  ghost predicate Advances<T>(find: (string, nat) -> Option<(T, nat)>) {
    forall t: string, k: nat :: find(t, k).Some? ==> k < find(t, k).value.1 <= |t|
  }

  lemma PartAtAdvances()
    ensures Advances(PartAt)
  {
  }

  /**
   * `preg_match_all` with the pattern `find`: the matches in order, trying
   * every position from `i` on that no earlier match covers.
   */
  function MatchAll<T>(s: string, i: nat, find: (string, nat) -> Option<(T, nat)>): seq<T>
    requires i <= |s| && Advances(find)
    decreases |s| - i
  {
    if i == |s| then []
    else match find(s, i)
      case Some((p, j)) => [p] + MatchAll(s, j, find)
      case None => MatchAll(s, i + 1, find)
  }

  /** Every match has each property every match at any position of the text has. */
  lemma {:induction false} MatchAllKeeps<T>(s: string, i: nat, find: (string, nat) -> Option<(T, nat)>, good: T -> bool)
    requires i <= |s| && Advances(find)
    requires forall k: nat :: find(s, k).Some? ==> good(find(s, k).value.0)
    ensures forall x :: x in MatchAll(s, i, find) ==> good(x)
    decreases |s| - i
  {
    if i < |s| {
      match find(s, i)
      case Some((p, j)) => MatchAllKeeps(s, j, find, good);
      case None => MatchAllKeeps(s, i + 1, find, good);
    }
  }

  /** Every sub-array text in `parts` is shorter than `bound`. */
  predicate InnerShorter(parts: seq<Part>, bound: nat) {
    forall p :: p in parts && p.value.RawBraces? ==> |p.value.inner| < bound
  }

  /** The parts of the text from `i` on. */
  function SplitParts(s: string, i: nat): seq<Part>
    requires i <= |s|
  {
    PartAtAdvances();
    MatchAll(s, i, PartAt)
  }

  /** Every sub-array found inside a text is shorter than the text. */
  lemma SplitPartsShorter(s: string, i: nat)
    requires i <= |s|
    ensures InnerShorter(SplitParts(s, i), |s|)
  {
    PartAtAdvances();
    MatchAllKeeps(s, i, PartAt, (p: Part) => p.value.RawBraces? ==> |p.value.inner| < |s|);
  }

  /** What a value stands for in the array built from it. */
  function ValueOf(v: RawValue, bound: nat, parseTemplate: string -> Node): ArrayValue
    requires v.RawBraces? ==> |v.inner| < bound
    decreases bound, 0, 0
  {
    match v
    case RawNumber(n) => Number(n)
    case RawPath(p) => Element(ObjectAccessorNode(p))
    case RawQuoted(token) => Element(BuildArgumentObjectTree(Unquote(token), parseTemplate))
    case RawBraces(inner) => Element(ArrayNode(RecursiveArrayHandler(inner, parseTemplate)))
  }

  /** Writes the parts into `acc` in order: under the normalised key, or appended when there is none. */
  function Collect(acc: seq<Entry<ArrayValue>>, parts: seq<Part>, bound: nat, parseTemplate: string -> Node)
    : (r: seq<Entry<ArrayValue>>)
    requires InnerShorter(parts, bound)
    ensures DistinctKeys(acc) ==> DistinctKeys(r)
    ensures (forall k :: 0 <= k < |parts| ==> parts[k].key.None?) ==> |r| == |acc| + |parts| && r[..|acc|] == acc
    decreases bound, 0, |parts| + 1
  {
    if parts == [] then acc
    else
      assert parts[0] in parts;
      assert forall x :: x in parts[1..] ==> x in parts;
      assert forall k :: 0 <= k < |parts| - 1 ==> parts[1..][k] == parts[k + 1];
      Collect(Store(acc, parts[0], bound, parseTemplate), parts[1..], bound, parseTemplate)
  }

  /** Writes one part into `acc`: `$a[key] = value`, or `$a[] = value` without a key. */
  function Store(acc: seq<Entry<ArrayValue>>, p: Part, bound: nat, parseTemplate: string -> Node)
    : (r: seq<Entry<ArrayValue>>)
    requires p.value.RawBraces? ==> |p.value.inner| < bound
    ensures DistinctKeys(acc) ==> DistinctKeys(r)
    ensures p.key.None? ==> |r| == |acc| + 1 && r[..|acc|] == acc
    decreases bound, 0, 1
  {
    var v := ValueOf(p.value, bound, parseTemplate);
    match p.key
    case Some(k) => Put(acc, NormalizeKey(k), v)
    case None => Append(acc, v)
  }

  /**
   * The array an array literal stands for. The nodes for quoted values come
   * from `BuildArgumentObjectTree`, which hands values holding template
   * syntax to `parseTemplate`.
   */
  function RecursiveArrayHandler(s: string, parseTemplate: string -> Node): (r: seq<Entry<ArrayValue>>)
    ensures DistinctKeys(r)
    decreases |s|, 1
  {
    SplitPartsShorter(s, 0);
    Collect([], SplitParts(s, 0), |s|, parseTemplate)
  }
}
