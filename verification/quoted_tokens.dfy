/**
 * Quoted literals inside a longer text: where the scanner finds the closing
 * quote, and the literal written out piece by piece after a prefix, as the
 * parser's test inputs are.
 */
module QuotedTokens {
  import opened Wrappers
  import opened Texts
  import opened Scanning
  import opened Quoting

  // ---------------------------------------------------------------------------
  // Finding where a quoted token ends

  /**
   * The index of the quote `q` that closes a quoted token whose body starts at
   * `i`; a backslash escapes whatever follows it, not only a quote. `None`
   * when the token runs to the end of the text without being closed.
   */
  function QuotedTokenEnd(s: string, i: nat, q: char): (r: Option<nat>)
    requires i <= |s|
    ensures r.Some? ==> i <= r.value < |s| && s[r.value] == q
    decreases |s| - i
  {
    if i >= |s| then None
    else if s[i] == q then Some(i)
    else if s[i] == Backslash then
      if i + 1 < |s| then QuotedTokenEnd(s, i + 2, q) else None
    else QuotedTokenEnd(s, i + 1, q)
  }

  /** The closing quote is the first quote that no backslash escapes. */
  lemma {:induction false} QuotedTokenEndFirst(s: string, i: nat, q: char)
    requires i <= |s| && QuotedTokenEnd(s, i, q).Some?
    ensures forall k :: i <= k < QuotedTokenEnd(s, i, q).value && s[k] == q ==> k > i && s[k - 1] == Backslash
    decreases |s| - i
  {
    if s[i] != q {
      if s[i] == Backslash {
        QuotedTokenEndFirst(s, i + 2, q);
      } else {
        QuotedTokenEndFirst(s, i + 1, q);
      }
    }
  }

  /** The scanner passes over one escaped character. */
  lemma QuotedTokenStep(s: string, i: nat, q: char, c: char)
    requires q != Backslash && At(s, i, EscapeChar(q, c))
    ensures QuotedTokenEnd(s, i, q) == QuotedTokenEnd(s, i + |EscapeChar(q, c)|, q)
  {
    assert s[i + 0] == EscapeChar(q, c)[0];
    if c == Backslash || c == q {
      assert s[i + 1] == EscapeChar(q, c)[1];
    }
  }

  /** The token written by `Quote` is read back whole, whatever follows it. */
  lemma {:induction false} QuotedTokenEndOfEscape(s: string, i: nat, q: char, x: string)
    requires q != Backslash
    requires At(s, i, Escape(q, x)) && i + |Escape(q, x)| < |s| && s[i + |Escape(q, x)|] == q
    ensures QuotedTokenEnd(s, i, q) == Some(i + |Escape(q, x)|)
    decreases |x|
  {
    if x != [] {
      var e0, e := EscapeChar(q, x[0]), Escape(q, x[1..]);
      assert Escape(q, x) == e0 + e;
      AtSplit(s, i, e0, e);
      QuotedTokenStep(s, i, q, x[0]);
      QuotedTokenEndOfEscape(s, i + |e0|, q, x[1..]);
    }
  }

  /** A token whose body is plain text ends at the first quote after it. */
  lemma QuotedTokenPlain(s: string, i: nat, q: char, x: string)
    requires q != Backslash && Plain(q, x)
    requires At(s, i, x) && i + |x| < |s| && s[i + |x|] == q
    ensures QuotedTokenEnd(s, i, q) == Some(i + |x|)
  {
    EscapePlain(q, x);
    QuotedTokenEndOfEscape(s, i, q, x);
  }

  // ---------------------------------------------------------------------------
  // Quoted literals written out after a prefix

  /** `acc` followed by the pieces as they are written between quotes `q`. */
  function WriteEscaped(acc: string, q: char, ps: seq<Piece>): (r: string)
    decreases |ps|
  {
    if ps == [] then acc else WriteEscaped(acc + EscapePiece(q, ps[0]), q, ps[1..])
  }

  /** `acc` followed by the text the pieces stand for. */
  function WriteText(acc: string, q: char, ps: seq<Piece>): (r: string)
    decreases |ps|
  {
    if ps == [] then acc else WriteText(acc + PieceText(q, ps[0]), q, ps[1..])
  }

  lemma {:induction false} WriteEscapedIsConcat(acc: string, q: char, ps: seq<Piece>)
    ensures WriteEscaped(acc, q, ps) == acc + Concat(EscapeEach(q, ps))
    decreases |ps|
  {
    if ps != [] {
      var es := EscapeEach(q, ps);
      assert es[1..] == EscapeEach(q, ps[1..]);
      WriteEscapedIsConcat(acc + EscapePiece(q, ps[0]), q, ps[1..]);
      assert acc + EscapePiece(q, ps[0]) + Concat(es[1..]) == acc + (es[0] + Concat(es[1..]));
    }
  }

  lemma {:induction false} WriteTextIsConcat(acc: string, q: char, ps: seq<Piece>)
    ensures WriteText(acc, q, ps) == acc + Concat(TextEach(q, ps))
    decreases |ps|
  {
    if ps != [] {
      var ts := TextEach(q, ps);
      assert ts[1..] == TextEach(q, ps[1..]);
      WriteTextIsConcat(acc + PieceText(q, ps[0]), q, ps[1..]);
      assert acc + PieceText(q, ps[0]) + Concat(ts[1..]) == acc + (ts[0] + Concat(ts[1..]));
    }
  }

  /** A quoted literal written piece by piece is `Quote` of the text the pieces stand for. */
  lemma WrittenQuote(q: char, ps: seq<Piece>)
    requires IsQuote(q) && PlainRuns(q, ps)
    ensures WriteEscaped([q], q, ps) + [q] == Quote(q, WriteText([], q, ps))
  {
    var x := Concat(TextEach(q, ps));
    WriteEscapedIsConcat([q], q, ps);
    WriteTextIsConcat([], q, ps);
    assert [] + x == x;
    EscapePieces(q, ps);
  }

  /** The scanner finds the closing quote of a literal written by `Quote`. */
  lemma QuotedTokenAt(s: string, i: nat, q: char, x: string)
    requires IsQuote(q) && At(s, i, Quote(q, x))
    ensures QuotedTokenEnd(s, i + 1, q) == Some(i + |Quote(q, x)| - 1)
  {
    AtSplit(s, i, [q] + Escape(q, x), [q]);
    AtSplit(s, i, [q], Escape(q, x));
    assert s[i + |[q] + Escape(q, x)| + 0] == [q][0];
    QuotedTokenEndOfEscape(s, i + 1, q, x);
  }

  /**
   * A quoted literal written piece by piece: the scanner finds its closing
   * quote, and unquoting it gives the text the pieces stand for.
   */
  lemma QuotedPieces(s: string, i: nat, q: char, ps: seq<Piece>)
    requires IsQuote(q) && PlainRuns(q, ps)
    requires At(s, i, WriteEscaped([q], q, ps) + [q])
    ensures |WriteEscaped([q], q, ps)| >= 1
    ensures QuotedTokenEnd(s, i + 1, q) == Some(i + |WriteEscaped([q], q, ps)|)
    ensures Unquote(WriteEscaped([q], q, ps) + [q]) == WriteText([], q, ps)
  {
    QuotedTokenWritten(s, i, q, ps);
    UnquoteWritten(q, ps);
  }

  /** The scanner finds the closing quote of a quoted literal written piece by piece. */
  lemma QuotedTokenWritten(s: string, i: nat, q: char, ps: seq<Piece>)
    requires IsQuote(q) && PlainRuns(q, ps)
    requires At(s, i, WriteEscaped([q], q, ps) + [q])
    ensures |WriteEscaped([q], q, ps)| >= 1
    ensures QuotedTokenEnd(s, i + 1, q) == Some(i + |WriteEscaped([q], q, ps)|)
  {
    var w := WriteEscaped([q], q, ps);
    var x := WriteText([], q, ps);
    WrittenQuote(q, ps);
    assert |Quote(q, x)| == |w| + 1;
    QuotedTokenAt(s, i, q, x);
  }

  /** Unquoting a quoted literal written piece by piece gives the text the pieces stand for. */
  lemma UnquoteWritten(q: char, ps: seq<Piece>)
    requires IsQuote(q) && PlainRuns(q, ps)
    ensures Unquote(WriteEscaped([q], q, ps) + [q]) == WriteText([], q, ps)
  {
    WrittenQuote(q, ps);
    UnquoteQuote(q, WriteText([], q, ps));
  }
}
