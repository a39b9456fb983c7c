/**
 * String literals inside tags and array literals: `"..."` or `'...'`, where a
 * backslash escapes the quote character and a doubled backslash stands for
 * one backslash. `Unquote` is `unquoteString`; `Quote` is the writer it undoes.
 */
module Quoting {
  import opened Wrappers
  import opened Texts

  const Backslash: char := '\\'

  predicate IsQuote(c: char) {
    c == '"' || c == '\''
  }

  /**
   * `str_replace(a . b, c, s)`: scans left to right and replaces every
   * occurrence of the two-character needle, occurrences never overlapping.
   */
  function ReplacePair(s: string, a: char, b: char, c: char): (r: string)
    ensures |r| <= |s|
    decreases |s|
  {
    if |s| < 2 then s
    else if s[0] == a && s[1] == b then [c] + ReplacePair(s[2..], a, b, c)
    else [s[0]] + ReplacePair(s[1..], a, b, c)
  }

  /** An occurrence of the needle at the front is replaced. */
  lemma ReplacePairHit(t: string, a: char, b: char, c: char)
    ensures ReplacePair([a, b] + t, a, b, c) == [c] + ReplacePair(t, a, b, c)
  {
    assert ([a, b] + t)[2..] == t;
  }

  /** A front character that does not start an occurrence is kept. */
  lemma ReplacePairMiss(x: char, t: string, a: char, b: char, c: char)
    requires x != a || t == [] || t[0] != b
    ensures ReplacePair([x] + t, a, b, c) == [x] + ReplacePair(t, a, b, c)
  {
    if t != [] {
      assert ([x] + t)[1..] == t;
    }
  }

  /** A string that does not contain the needle's first character is left alone. */
  lemma {:induction false} ReplacePairUntouched(s: string, a: char, b: char, c: char)
    requires forall k :: 0 <= k < |s| ==> s[k] != a
    ensures ReplacePair(s, a, b, c) == s
    decreases |s|
  {
    if s != [] {
      ReplacePairUntouched(s[1..], a, b, c);
      assert s == [s[0]] + s[1..];
      ReplacePairMiss(s[0], s[1..], a, b, c);
    }
  }

  /** Every backslash doubled: what the `\\` to `\` replacement undoes. */
  function DoubleBackslashes(s: string): (r: string)
    ensures |r| >= |s|
    decreases |s|
  {
    if s == [] then []
    else (if s[0] == Backslash then [Backslash, Backslash] else [s[0]]) + DoubleBackslashes(s[1..])
  }

  /** Collapsing doubled backslashes undoes doubling them. */
  lemma {:induction false} CollapseUndoesDouble(s: string)
    ensures ReplacePair(DoubleBackslashes(s), Backslash, Backslash, Backslash) == s
    decreases |s|
  {
    if s != [] {
      CollapseUndoesDouble(s[1..]);
      var d := DoubleBackslashes(s[1..]);
      if s[0] == Backslash {
        ReplacePairHit(d, Backslash, Backslash, Backslash);
      } else {
        ReplacePairMiss(s[0], d, Backslash, Backslash, Backslash);
      }
      assert s == [s[0]] + s[1..];
    }
  }

  /** One character as it is written between quotes `q`. */
  function EscapeChar(q: char, c: char): string {
    if c == Backslash then [Backslash, Backslash]
    else if c == q then [Backslash, q]
    else [c]
  }

  /** The body of a quoted literal for `s`: backslashes doubled and the quote escaped. */
  function Escape(q: char, s: string): (r: string)
    ensures |r| >= |s|
    ensures r == [] <==> s == []
    decreases |s|
  {
    if s == [] then [] else EscapeChar(q, s[0]) + Escape(q, s[1..])
  }

  /** `s` written as a literal between quotes `q`. */
  function Quote(q: char, s: string): (r: string)
    ensures |r| == |Escape(q, s)| + 2
    ensures r[0] == q && r[|r| - 1] == q
  {
    [q] + Escape(q, s) + [q]
  }

  /** A text with neither the quote nor a backslash in it is its own escaped form. */
  lemma {:induction false} EscapePlain(q: char, s: string)
    requires Plain(q, s)
    ensures Escape(q, s) == s
    decreases |s|
  {
    if s != [] {
      EscapePlain(q, s[1..]);
      assert s == [s[0]] + s[1..];
    }
  }

  /** An escaped body never starts with a bare quote. */
  lemma EscapeHead(q: char, s: string)
    requires q != Backslash && s != []
    ensures Escape(q, s)[0] != q
  {
  }

  /** Unescaping the quote in an escaped body leaves the doubled backslashes. */
  lemma {:induction false} UnescapeQuoteOfEscape(q: char, s: string)
    requires q != Backslash
    ensures ReplacePair(Escape(q, s), Backslash, q, q) == DoubleBackslashes(s)
    decreases |s|
  {
    if s != [] {
      var e := Escape(q, s[1..]);
      UnescapeQuoteOfEscape(q, s[1..]);
      if s[0] == Backslash {
        assert Escape(q, s) == [Backslash] + ([Backslash] + e);
        ReplacePairMiss(Backslash, [Backslash] + e, Backslash, q, q);
        if e != [] {
          EscapeHead(q, s[1..]);
        }
        ReplacePairMiss(Backslash, e, Backslash, q, q);
      } else if s[0] == q {
        ReplacePairHit(e, Backslash, q, q);
      } else {
        ReplacePairMiss(s[0], e, Backslash, q, q);
      }
    }
  }

  /**
   * Drops a leading quote and the same quote at the very end; a missing
   * closing quote is tolerated. This is the pattern `^q|q$` replaced by
   * nothing for texts that do not end in a line break (PCRE's `$` would also
   * match before a final line break, which this model does not follow).
   */
  function StripQuotes(s: string): (r: string)
    requires s != [] && IsQuote(s[0])
    ensures r == if |s| >= 2 && s[|s| - 1] == s[0] then s[1..|s| - 1] else s[1..]
  {
    var inner := s[1..];
    if inner != [] && inner[|inner| - 1] == s[0] then inner[..|inner| - 1] else inner
  }

  /**
   * `unquoteString`: a value that starts with a quote loses that quote and a
   * matching closing one and has the quote unescaped; every value then has
   * its doubled backslashes collapsed.
   */
  function Unquote(s: string): (r: string)
    ensures |r| <= |s|
    ensures (s == [] || !IsQuote(s[0])) && (forall k :: 0 <= k < |s| ==> s[k] != Backslash) ==> r == s
  {
    if s == [] then s
    else if IsQuote(s[0]) then
      ReplacePair(ReplacePair(StripQuotes(s), Backslash, s[0], s[0]), Backslash, Backslash, Backslash)
    else
      ReplacePairUntouchedIfPlain(s);
      ReplacePair(s, Backslash, Backslash, Backslash)
  }

  lemma ReplacePairUntouchedIfPlain(s: string)
    ensures (forall k :: 0 <= k < |s| ==> s[k] != Backslash) ==> ReplacePair(s, Backslash, Backslash, Backslash) == s
  {
    if forall k :: 0 <= k < |s| ==> s[k] != Backslash {
      ReplacePairUntouched(s, Backslash, Backslash, Backslash);
    }
  }

  /** Unquoting a quoted literal gives back exactly the text that was quoted. */
  lemma UnquoteQuote(q: char, s: string)
    requires IsQuote(q)
    ensures Unquote(Quote(q, s)) == s
  {
    var t := Quote(q, s);
    assert t[1..|t| - 1] == Escape(q, s);
    UnescapeQuoteOfEscape(q, s);
    CollapseUndoesDouble(s);
  }

  /** Escaping works character by character, so it distributes over concatenation. */
  lemma {:induction false} EscapeConcat(q: char, x: string, y: string)
    ensures Escape(q, x + y) == Escape(q, x) + Escape(q, y)
    decreases |x|
  {
    if x == [] {
      assert x + y == y;
    } else {
      assert (x + y)[0] == x[0] && (x + y)[1..] == x[1..] + y;
      EscapeConcat(q, x[1..], y);
    }
  }

  /** Neither the quote `q` nor a backslash occurs in `s`. */
  predicate Plain(q: char, s: string) {
    forall k :: 0 <= k < |s| ==> s[k] != q && s[k] != Backslash
  }

  // ---------------------------------------------------------------------------
  // Texts written in pieces: runs of plain characters, quotes and backslashes

  datatype Piece = Run(text: string) | QuoteMark | BackslashMark

  /** What a piece stands for. */
  function PieceText(q: char, p: Piece): string {
    match p
    case Run(t) => t
    case QuoteMark => [q]
    case BackslashMark => [Backslash]
  }

  /** How a piece is written between quotes `q`. */
  function EscapePiece(q: char, p: Piece): string {
    match p
    case Run(t) => t
    case QuoteMark => [Backslash, q]
    case BackslashMark => [Backslash, Backslash]
  }

  /** Every run is plain. */
  predicate PlainRuns(q: char, ps: seq<Piece>) {
    forall k :: 0 <= k < |ps| && ps[k].Run? ==> Plain(q, ps[k].text)
  }

  function TextEach(q: char, ps: seq<Piece>): (r: seq<string>)
    ensures |r| == |ps|
    ensures forall k :: 0 <= k < |ps| ==> r[k] == PieceText(q, ps[k])
    decreases |ps|
  {
    if ps == [] then [] else [PieceText(q, ps[0])] + TextEach(q, ps[1..])
  }

  function EscapeEach(q: char, ps: seq<Piece>): (r: seq<string>)
    ensures |r| == |ps|
    ensures forall k :: 0 <= k < |ps| ==> r[k] == EscapePiece(q, ps[k])
    decreases |ps|
  {
    if ps == [] then [] else [EscapePiece(q, ps[0])] + EscapeEach(q, ps[1..])
  }

  /** Each piece is escaped on its own terms. */
  lemma EscapePieceIsEscape(q: char, p: Piece)
    requires q != Backslash && (p.Run? ==> Plain(q, p.text))
    ensures Escape(q, PieceText(q, p)) == EscapePiece(q, p)
  {
    if p.Run? {
      EscapePlain(q, p.text);
    }
  }

  /** Escaping a text written in pieces escapes each piece. */
  lemma {:induction false} EscapePieces(q: char, ps: seq<Piece>)
    requires q != Backslash && PlainRuns(q, ps)
    ensures Escape(q, Concat(TextEach(q, ps))) == Concat(EscapeEach(q, ps))
    decreases |ps|
  {
    if ps != [] {
      var ts, es := TextEach(q, ps), EscapeEach(q, ps);
      assert ts[1..] == TextEach(q, ps[1..]);
      assert es[1..] == EscapeEach(q, ps[1..]);
      EscapeConcat(q, ts[0], Concat(ts[1..]));
      EscapePieceIsEscape(q, ps[0]);
      EscapePieces(q, ps[1..]);
    }
  }

  /** An escaped text ends in the bare quote exactly when the text ends in the quote. */
  lemma EscapeEndsInQuote(q: char, x: string)
    requires q != Backslash && x != []
    ensures Escape(q, x)[|Escape(q, x)| - 1] == q <==> x[|x| - 1] == q
  {
    var n := |x| - 1;
    assert x == x[..n] + [x[n]];
    EscapeConcat(q, x[..n], [x[n]]);
    assert Escape(q, [x[n]]) == EscapeChar(q, x[n]);
  }

  /**
   * A literal whose closing quote is missing still unquotes to its text,
   * provided the text itself does not end in the quote character.
   */
  lemma UnquoteUnterminated(q: char, x: string)
    requires IsQuote(q)
    requires x == [] || x[|x| - 1] != q
    ensures Unquote([q] + Escape(q, x)) == x
  {
    var t := [q] + Escape(q, x);
    if x != [] {
      EscapeEndsInQuote(q, x);
    }
    assert t[1..] == Escape(q, x);
    UnescapeQuoteOfEscape(q, x);
    CollapseUndoesDouble(x);
  }

  /** A closed literal written piece by piece unquotes to the text the pieces stand for. */
  lemma UnquoteQuotedPieces(q: char, ps: seq<Piece>)
    requires IsQuote(q) && PlainRuns(q, ps)
    ensures Unquote(Concat([[q]] + EscapeEach(q, ps) + [[q]])) == Concat(TextEach(q, ps))
  {
    var es := EscapeEach(q, ps);
    EscapePieces(q, ps);
    ConcatSplit([[q]], es);
    ConcatSplit([[q]] + es, [[q]]);
    assert Concat([[q]] + es + [[q]]) == Quote(q, Concat(TextEach(q, ps)));
    UnquoteQuote(q, Concat(TextEach(q, ps)));
  }

  /**
   * The same without the closing quote, when the text does not end in the
   * quote: its last piece is a backslash or a run that is not empty.
   */
  lemma UnquoteUnterminatedPieces(q: char, ps: seq<Piece>)
    requires IsQuote(q) && PlainRuns(q, ps)
    requires ps != [] ==> ps[|ps| - 1] != QuoteMark && ps[|ps| - 1] != Run([])
    ensures Unquote(Concat([[q]] + EscapeEach(q, ps))) == Concat(TextEach(q, ps))
  {
    var x := Concat(TextEach(q, ps));
    EscapePieces(q, ps);
    ConcatSplit([[q]], EscapeEach(q, ps));
    LastOfPieces(q, ps);
    UnquoteUnterminated(q, x);
  }

  /** The text of pieces ends in what its last piece ends in. */
  lemma LastOfPieces(q: char, ps: seq<Piece>)
    requires q != Backslash && PlainRuns(q, ps)
    requires ps != [] ==> ps[|ps| - 1] != QuoteMark && ps[|ps| - 1] != Run([])
    ensures var x := Concat(TextEach(q, ps)); x == [] || x[|x| - 1] != q
  {
    if ps != [] {
      var ts := TextEach(q, ps);
      var last := ts[|ps| - 1];
      assert last != [] && last[|last| - 1] != q by {
        match ps[|ps| - 1]
        case Run(t) =>
          assert t != [] && Plain(q, t);
        case BackslashMark =>
      }
      ConcatLast(ts);
    }
  }

}
