/** Sorting of sequences (`Array.prototype.sort` with a comparator).

    A comparator `cmp(a, b)` is represented by the relation
    `le(a, b) := cmp(a, b) <= 0`, "a may stay in front of b". The result is a
    sorted permutation of the input; the order among elements that compare
    equal is not part of the contract.
 */
module Sorting {

  /** Any two elements of `s` are comparable. */
  ghost predicate TotalOn<T>(le: (T, T) -> bool, s: seq<T>) {
    forall a, b :: a in s && b in s ==> le(a, b) || le(b, a)
  }

  /** Every element may stay in front of its successor. */
  ghost predicate Sorted<T>(le: (T, T) -> bool, s: seq<T>) {
    forall i :: 0 < i < |s| ==> le(s[i - 1], s[i])
  }

  /** `x` placed in front of the first element it may precede. */
  function Insert<T>(le: (T, T) -> bool, x: T, s: seq<T>): (r: seq<T>)
    requires forall b :: b in s ==> le(x, b) || le(b, x)
    requires Sorted(le, s)
    ensures Sorted(le, r)
    ensures multiset(r) == multiset(s) + multiset{x}
    ensures |r| == |s| + 1
    ensures r[0] == x || (0 < |s| && r[0] == s[0])
  {
    if |s| == 0 || le(x, s[0]) then [x] + s
    else
      assert s == [s[0]] + s[1..];
      [s[0]] + Insert(le, x, s[1..])
  }

  /** A sorted permutation of `s`, by insertion. */
  function SortBy<T>(le: (T, T) -> bool, s: seq<T>): (r: seq<T>)
    requires TotalOn(le, s)
    ensures Sorted(le, r)
    ensures multiset(r) == multiset(s)
  {
    if |s| == 0 then []
    else
      assert s == [s[0]] + s[1..];
      assert forall b :: b in s[1..] ==> b in s;
      var rest := SortBy(le, s[1..]);
      assert forall b :: b in rest ==> b in multiset(s[1..]);
      Insert(le, s[0], rest)
  }

  /** With a transitive relation, sortedness of neighbours extends to every
      pair of positions. */
  lemma {:induction false} SortedPairwise<T>(le: (T, T) -> bool, s: seq<T>, i: int, j: int)
    requires Sorted(le, s)
    requires forall a, b, c :: a in s && b in s && c in s && le(a, b) && le(b, c) ==> le(a, c)
    requires 0 <= i <= j < |s|
    requires le(s[i], s[i])
    ensures le(s[i], s[j])
    decreases j - i
  {
    if i < j {
      SortedPairwise(le, s, i, j - 1);
      assert le(s[j - 1], s[j]);
    }
  }
}
