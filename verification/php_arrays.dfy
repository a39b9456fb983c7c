/**
 * The part of PHP's ordered array that the parser relies on: keys are
 * integers or strings, a numeric string key is stored as an integer, writing
 * an existing key replaces its value in place, and `$a[] = v` appends under
 * the next free integer key.
 */
module PhpArrays {
  import opened Wrappers

  datatype Key = IntKey(index: int) | StringKey(name: string)

  datatype Entry<V> = Entry(key: Key, value: V)

  /** The keys of an array in order. */
  function Keys<V>(a: seq<Entry<V>>): (ks: seq<Key>)
    ensures |ks| == |a|
    ensures forall i :: 0 <= i < |a| ==> ks[i] == a[i].key
  {
    if a == [] then [] else [a[0].key] + Keys(a[1..])
  }

  /** Every key occurs at most once, as in any PHP array. */
  predicate DistinctKeys<V>(a: seq<Entry<V>>) {
    forall i, j :: 0 <= i < j < |a| ==> a[i].key != a[j].key
  }

  predicate HasKey<V>(a: seq<Entry<V>>, k: Key) {
    exists i :: 0 <= i < |a| && a[i].key == k
  }

  /** `$a[$k] ?? null`. */
  function Lookup<V>(a: seq<Entry<V>>, k: Key): (r: Option<V>)
    ensures r.Some? <==> HasKey(a, k)
    ensures r.Some? ==> exists i :: 0 <= i < |a| && a[i] == Entry(k, r.value)
    ensures DistinctKeys(a) ==> forall i :: 0 <= i < |a| && a[i].key == k ==> r == Some(a[i].value)
  {
    if a == [] then None
    else if a[0].key == k then Some(a[0].value)
    else
      var r := Lookup(a[1..], k);
      assert forall i :: 0 < i < |a| ==> a[i] == a[1..][i - 1];
      assert HasKey(a[1..], k) ==> HasKey(a, k);
      r
  }

  /** `$a[$k] = $v`: an existing key keeps its position and takes the new value, a new key goes to the end. */
  function Put<V>(a: seq<Entry<V>>, k: Key, v: V): (r: seq<Entry<V>>)
    ensures HasKey(a, k) ==> |r| == |a|
    ensures !HasKey(a, k) ==> r == a + [Entry(k, v)]
    ensures forall i :: 0 <= i < |a| ==> r[i] == (if a[i].key == k then Entry(k, v) else a[i])
    ensures DistinctKeys(a) ==> DistinctKeys(r)
    ensures DistinctKeys(a) ==> Lookup(r, k) == Some(v)
    ensures forall k' :: k' != k ==> Lookup(r, k') == Lookup(a, k')
  {
    if HasKey(a, k) then
      var r := seq(|a|, i requires 0 <= i < |a| => if a[i].key == k then Entry(k, v) else a[i]);
      forall k' ensures HasKey(r, k') <==> HasKey(a, k') {
        if HasKey(a, k') {
          var i :| 0 <= i < |a| && a[i].key == k';
          assert r[i].key == k';
        }
        if HasKey(r, k') {
          var i :| 0 <= i < |r| && r[i].key == k';
          assert a[i].key == k';
        }
      }
      LookupReplaced(a, r, k);
      r
    else
      var r := a + [Entry(k, v)];
      LookupAppended(a, k, v);
      assert r[|a|].key == k;
      r
  }

  lemma LookupReplaced<V>(a: seq<Entry<V>>, r: seq<Entry<V>>, k: Key)
    requires |r| == |a|
    requires forall i :: 0 <= i < |a| ==> r[i] == (if a[i].key == k then Entry(k, r[i].value) else a[i])
    ensures forall k' :: k' != k ==> Lookup(r, k') == Lookup(a, k')
  {
    if a != [] {
      assert forall i :: 0 <= i < |a| - 1 ==> r[1..][i] == r[i + 1] && a[1..][i] == a[i + 1];
      LookupReplaced(a[1..], r[1..], k);
    }
  }

  lemma LookupAppended<V>(a: seq<Entry<V>>, k: Key, v: V)
    ensures forall k' :: k' != k ==> Lookup(a + [Entry(k, v)], k') == Lookup(a, k')
  {
    if a != [] {
      assert (a + [Entry(k, v)])[1..] == a[1..] + [Entry(k, v)];
      LookupAppended(a[1..], k, v);
    }
  }

  /** The largest integer key, or -1 when there is none that is not negative. */
  function MaxIndex<V>(a: seq<Entry<V>>): (m: int)
    ensures m >= -1
    ensures forall i :: 0 <= i < |a| && a[i].key.IntKey? ==> a[i].key.index <= m
  {
    if a == [] then -1
    else
      var rest := MaxIndex(a[1..]);
      assert forall i :: 1 <= i < |a| ==> a[i] == a[1..][i - 1];
      if a[0].key.IntKey? && a[0].key.index > rest then a[0].key.index else rest
  }

  /** The key `$a[] = v` uses: one past the largest integer key, and 0 for an array without one. */
  function NextIndex<V>(a: seq<Entry<V>>): (n: nat)
    ensures !HasKey(a, IntKey(n))
    ensures forall i :: 0 <= i < |a| && a[i].key.IntKey? ==> a[i].key.index < n
  {
    MaxIndex(a) + 1
  }

  /** `$a[] = $v`. */
  function Append<V>(a: seq<Entry<V>>, v: V): (r: seq<Entry<V>>)
    ensures r == a + [Entry(IntKey(NextIndex(a)), v)]
    ensures DistinctKeys(a) ==> DistinctKeys(r)
  {
    Put(a, IntKey(NextIndex(a)), v)
  }

  predicate IsDigit(c: char) {
    '0' <= c <= '9'
  }

  predicate AllDigits(s: string) {
    forall i :: 0 <= i < |s| ==> IsDigit(s[i])
  }

  /** The value of a run of decimal digits, as PHP's `"123" + 0`. */
  function DigitsValue(s: string): (n: nat)
    requires AllDigits(s)
    decreases |s|
  {
    if s == [] then 0 else DigitsValue(s[..|s| - 1]) * 10 + (s[|s| - 1] - '0') as nat
  }

  /** A string PHP turns into an integer key: no sign but `-`, no leading zero, no `-0`. */
  predicate IsCanonicalInteger(s: string) {
    if |s| > 0 && s[0] == '-' then
      |s| > 1 && AllDigits(s[1..]) && s[1] != '0'
    else
      |s| > 0 && AllDigits(s) && (s[0] != '0' || |s| == 1)
  }

  /** The key PHP stores for the string key `s`. */
  function NormalizeKey(s: string): (k: Key)
    ensures k.StringKey? ==> k.name == s && !IsCanonicalInteger(s)
    ensures k.IntKey? ==> IsCanonicalInteger(s)
    ensures AllDigits(s) && |s| > 0 && (s[0] != '0' || |s| == 1) ==> k == IntKey(DigitsValue(s))
  {
    if IsCanonicalInteger(s) then
      if s[0] == '-' then IntKey(0 - DigitsValue(s[1..]) as int) else IntKey(DigitsValue(s))
    else StringKey(s)
  }
}
