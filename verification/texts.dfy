/**
 * Texts written as a list of pieces. A concrete text is spelled out as
 * `Concat([...])` of short literals, which lets the lemmas about the
 * parser's string functions work one piece at a time.
 */
module Texts {

  /** The pieces joined in order. */
  function Concat(ps: seq<string>): (r: string)
    ensures |ps| == 1 ==> r == ps[0]
    decreases |ps|
  {
    if ps == [] then [] else ps[0] + Concat(ps[1..])
  }

  /** Joining distributes over splitting the list of pieces. */
  lemma {:induction false} ConcatSplit(xs: seq<string>, ys: seq<string>)
    ensures Concat(xs + ys) == Concat(xs) + Concat(ys)
    decreases |xs|
  {
    if xs == [] {
      assert xs + ys == ys;
    } else {
      assert (xs + ys)[1..] == xs[1..] + ys;
      ConcatSplit(xs[1..], ys);
    }
  }

  /** A join whose last piece is not empty ends in that piece's last character. */
  lemma ConcatLast(ps: seq<string>)
    requires ps != [] && ps[|ps| - 1] != []
    ensures var x, last := Concat(ps), ps[|ps| - 1]; x != [] && x[|x| - 1] == last[|last| - 1]
  {
    var n := |ps| - 1;
    assert ps == ps[..n] + [ps[n]];
    ConcatSplit(ps[..n], [ps[n]]);
  }
}
