/** The Python list operations the alarm registry relies on, stated on sequences. */
module PyList {

  /** No element occurs twice. */
  predicate Distinct<T(==)>(xs: seq<T>) {
    forall i, j :: 0 <= i < j < |xs| ==> xs[i] != xs[j]
  }

  /** `xs.index(x)`: the position of the first occurrence of `x` (Python raises when
      `x` is absent; callers here test membership first). */
  function FirstIndex<T(==)>(xs: seq<T>, x: T): (i: nat)
    requires x in xs
    ensures i < |xs| && xs[i] == x
    ensures forall j :: 0 <= j < i ==> xs[j] != x
  {
    if xs[0] == x then 0 else 1 + FirstIndex(xs[1..], x)
  }

  /** `[x] * n`: `n` copies of `x`. */
  function Replicate<T>(x: T, n: nat): seq<T> {
    if n == 0 then [] else Replicate(x, n - 1) + [x]
  }

  /** The list `xs.pop(i)` leaves behind, for `0 <= i < len(xs)`. */
  function RemoveAt<T>(xs: seq<T>, i: nat): (r: seq<T>)
    requires i < |xs|
    ensures |r| == |xs| - 1
    ensures forall j :: 0 <= j < i ==> r[j] == xs[j]
    ensures forall j :: i <= j < |r| ==> r[j] == xs[j + 1]
    ensures multiset(r) + multiset{xs[i]} == multiset(xs)
  {
    assert xs == xs[..i] + [xs[i]] + xs[i + 1..];
    xs[..i] + xs[i + 1..]
  }

  /** `xs.remove(x)`: drops the first occurrence of `x`. */
  function Remove<T(==)>(xs: seq<T>, x: T): (r: seq<T>)
    requires x in xs
    ensures |r| == |xs| - 1
    ensures multiset(r) + multiset{x} == multiset(xs)
  {
    RemoveAt(xs, FirstIndex(xs, x))
  }

  /** Removing one position keeps every other element and keeps the list free of repeats. */
  lemma RemoveAtKeepsOthers<T>(xs: seq<T>, i: nat, y: T)
    requires i < |xs| && y in xs && y != xs[i]
    ensures y in RemoveAt(xs, i)
  {
    var k :| 0 <= k < |xs| && xs[k] == y;
    if k < i {
      assert RemoveAt(xs, i)[k] == y;
    } else {
      assert RemoveAt(xs, i)[k - 1] == y;
    }
  }

  lemma RemoveAtKeepsDistinct<T>(xs: seq<T>, i: nat)
    requires i < |xs| && Distinct(xs)
    ensures Distinct(RemoveAt(xs, i))
  {
    var r := RemoveAt(xs, i);
    forall a, b | 0 <= a < b < |r| ensures r[a] != r[b] {
      var a' := if a < i then a else a + 1;
      var b' := if b < i then b else b + 1;
      assert r[a] == xs[a'] && r[b] == xs[b'] && a' < b';
    }
  }

  lemma RemoveAtShrinksMembers<T>(xs: seq<T>, i: nat, y: T)
    requires i < |xs| && y in RemoveAt(xs, i)
    ensures y in xs
  {
    var r := RemoveAt(xs, i);
    var k :| 0 <= k < |r| && r[k] == y;
    if k < i { assert xs[k] == y; } else { assert xs[k + 1] == y; }
  }
}
