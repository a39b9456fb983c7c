/**
 * `buildArgumentObjectTree`: how one unquoted argument value becomes a node.
 * A value with neither `{` nor `<` in it is a number when it reads as an
 * integer and text otherwise; any other value may hold template syntax and is
 * handed to the template parser, which is a parameter here.
 */
module ArgumentTrees {
  import opened PhpArrays
  import opened Nodes

  /** `strpos` finds a `{` or a `<`: the value may hold template syntax. */
  predicate HasDynamicMarker(s: string) {
    '{' in s || '<' in s
  }

  /** The digits of an integer text, after an optional sign. */
  function Unsigned(s: string): string {
    if |s| > 0 && (s[0] == '+' || s[0] == '-') then s[1..] else s
  }

  /**
   * An optional sign followed by decimal digits and nothing else: the
   * integer texts read as numbers here. `is_numeric` also accepts white
   * space around the number and non-integer forms; those stay text here.
   */
  predicate IsIntegerString(s: string) {
    |Unsigned(s)| > 0 && AllDigits(Unsigned(s))
  }

  function IntegerValue(s: string): int
    requires IsIntegerString(s)
  {
    if s[0] == '-' then 0 - DigitsValue(Unsigned(s)) else DigitsValue(Unsigned(s))
  }

  function BuildArgumentObjectTree(text: string, parseTemplate: string -> Node): (n: Node)
    ensures !HasDynamicMarker(text) ==> n.children == [] && (n.kind.Text? || n.kind.Numeric?)
    ensures !HasDynamicMarker(text) && n.kind.Text? ==> n.kind.text == text && !IsIntegerString(text)
    ensures !HasDynamicMarker(text) && n.kind.Numeric? ==> IsIntegerString(text)
  {
    if HasDynamicMarker(text) then parseTemplate(text)
    else if IsIntegerString(text) then NumericNode(IntegerValue(text))
    else TextNode(text)
  }

  /** The decimal digits of `n`, most significant first. */
  function DecimalDigits(n: nat): (d: string)
    ensures |d| > 0 && AllDigits(d)
  {
    var last := ['0' + (n % 10) as char];
    if n < 10 then last else DecimalDigits(n / 10) + last
  }

  lemma {:induction false} DecimalDigitsValue(n: nat)
    ensures DigitsValue(DecimalDigits(n)) == n
  {
    var d := DecimalDigits(n);
    assert d[..|d| - 1] == if n < 10 then [] else DecimalDigits(n / 10);
    if n >= 10 {
      DecimalDigitsValue(n / 10);
    }
  }

  /** `n` written in decimal, with a `-` when it is negative. */
  function IntegerText(n: int): string {
    if n < 0 then "-" + DecimalDigits(0 - n) else DecimalDigits(n)
  }

  /** An integer written in decimal reads back as a numeric node of that integer. */
  lemma IntegerTextReadsBack(n: int, parseTemplate: string -> Node)
    ensures BuildArgumentObjectTree(IntegerText(n), parseTemplate) == NumericNode(n)
  {
    var t := IntegerText(n);
    var d := DecimalDigits(if n < 0 then 0 - n else n);
    assert Unsigned(t) == d;
    DecimalDigitsValue(if n < 0 then 0 - n else n);
    assert !HasDynamicMarker(t) by {
      assert forall k :: 0 <= k < |t| ==> t[k] == '-' || IsDigit(t[k]);
    }
  }
}
