/**
 * First-occurrence de-duplication of a sequence: the shape shared by the name
 * list of `gather_char_names` (rpt.py:27-34) and the unique-text loop of
 * `main` (rpt.py:236-241).
 */
module Unique {

  predicate NoDuplicates(s: seq<string>) {
    forall i, j :: 0 <= i < j < |s| ==> s[i] != s[j]
  }

  /** The distinct elements of `xs`, each where it first occurs. */
  function FirstOccurrences(xs: seq<string>): (r: seq<string>)
    ensures NoDuplicates(r)
    ensures forall x :: x in r <==> x in xs
    decreases |xs|
  {
    if xs == [] then []
    else
      var r := FirstOccurrences(xs[..|xs| - 1]);
      var x := xs[|xs| - 1];
      if x in r then r else r + [x]
  }

  /** Appending one element: it is kept exactly when it is new. */
  lemma FirstOccurrencesSnoc(xs: seq<string>, x: string)
    ensures FirstOccurrences(xs + [x])
            == if x in FirstOccurrences(xs) then FirstOccurrences(xs) else FirstOccurrences(xs) + [x]
  {
    assert (xs + [x])[..|xs|] == xs;
  }

  /** The position of the first `x` in `xs`. */
  function FirstIndex(xs: seq<string>, x: string): (i: nat)
    requires x in xs
    ensures i < |xs| && xs[i] == x
    ensures forall k :: 0 <= k < i ==> xs[k] != x
  {
    if xs[0] == x then 0 else 1 + FirstIndex(xs[1..], x)
  }

  /** The first occurrence in a prefix is the first occurrence in the whole sequence. */
  lemma FirstIndexInPrefix(xs: seq<string>, n: nat, x: string)
    requires n <= |xs| && x in xs[..n]
    ensures FirstIndex(xs, x) == FirstIndex(xs[..n], x)
  {
    var i := FirstIndex(xs[..n], x);
    var j := FirstIndex(xs, x);
    assert xs[..n][i] == xs[i];
  }

  /**
   * The result lists the elements in the order of their first occurrence in
   * `xs`; with the two contract clauses of FirstOccurrences this determines
   * the result completely.
   */
  lemma {:induction false} FirstOccurrencesOrder(xs: seq<string>, a: nat, b: nat)
    requires a < b < |FirstOccurrences(xs)|
    ensures FirstIndex(xs, FirstOccurrences(xs)[a]) < FirstIndex(xs, FirstOccurrences(xs)[b])
    decreases |xs|
  {
    var p := xs[..|xs| - 1];
    var r' := FirstOccurrences(p);
    var r := FirstOccurrences(xs);
    var x := xs[|xs| - 1];
    assert xs == p + [x];
    if b < |r'| {
      assert r[a] == r'[a] && r[b] == r'[b];
      FirstOccurrencesOrder(p, a, b);
      FirstIndexInPrefix(xs, |xs| - 1, r'[a]);
      FirstIndexInPrefix(xs, |xs| - 1, r'[b]);
    } else {
      assert x !in r' && r == r' + [x] && r[b] == x;
      assert x !in p;
      assert FirstIndex(xs, x) == |xs| - 1;
      assert r[a] in p;
      FirstIndexInPrefix(xs, |xs| - 1, r[a]);
    }
  }

  /** Without repeats, nothing is removed. */
  lemma {:induction false} FirstOccurrencesOfDistinct(xs: seq<string>)
    requires NoDuplicates(xs)
    ensures FirstOccurrences(xs) == xs
    decreases |xs|
  {
    if xs != [] {
      var p := xs[..|xs| - 1];
      FirstOccurrencesOfDistinct(p);
      assert xs[|xs| - 1] !in p;
      assert p + [xs[|xs| - 1]] == xs;
    }
  }
}
