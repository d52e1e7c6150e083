/**
 * The two array transforms of the document store that the repositories use on the
 * `members` and `groups` arrays: `arrayUnion(x)` appends `x` unless it is already present,
 * `arrayRemove(x)` deletes every occurrence of `x`. A missing array field behaves as [].
 */
module FieldOps {

  function ArrayUnion(a: seq<string>, x: string): (r: seq<string>)
    ensures forall y :: y in r <==> y in a || y == x
    ensures x in a ==> r == a
    ensures x !in a ==> r == a + [x]
  {
    if x in a then a else a + [x]
  }

  function ArrayRemove(a: seq<string>, x: string): (r: seq<string>)
    ensures forall y :: y in r <==> y in a && y != x
    ensures x !in a ==> r == a
    ensures |r| <= |a|
  {
    if a == [] then []
    else if a[0] == x then ArrayRemove(a[1..], x)
    else [a[0]] + ArrayRemove(a[1..], x)
  }

  predicate NoDuplicates(a: seq<string>) {
    forall i, j :: 0 <= i < j < |a| ==> a[i] != a[j]
  }

  lemma ArrayUnionNoDuplicates(a: seq<string>, x: string)
    requires NoDuplicates(a)
    ensures NoDuplicates(ArrayUnion(a, x))
  {
  }

  /** Removing keeps the remaining elements in their relative order and introduces no duplicates. */
  lemma {:induction false} ArrayRemoveNoDuplicates(a: seq<string>, x: string)
    requires NoDuplicates(a)
    ensures NoDuplicates(ArrayRemove(a, x))
  {
    if a != [] {
      ArrayRemoveNoDuplicates(a[1..], x);
      assert a[0] !in a[1..];
    }
  }

  /** Union then remove of an element that was absent gives back the original array. */
  lemma {:induction false} RemoveUndoesUnion(a: seq<string>, x: string)
    requires x !in a
    ensures ArrayRemove(ArrayUnion(a, x), x) == a
  {
    if a == [] {
    } else {
      assert (a + [x])[1..] == a[1..] + [x];
      RemoveUndoesUnion(a[1..], x);
    }
  }
}
