/** Duplicate removal as JavaScript's `[...new Set(xs)]` does it: a Set keeps
    its elements in insertion order and ignores an element it already holds,
    so the result lists every distinct element once, where it first occurs. */
module Dedup {

  predicate NoDuplicates<T(==,!new)>(s: seq<T>) {
    forall i, j :: 0 <= i < j < |s| ==> s[i] != s[j]
  }

  /** The position of the first occurrence of x in s. */
  function FirstIndex<T(==,!new)>(s: seq<T>, x: T): (i: nat)
    requires x in s
    ensures i < |s| && s[i] == x && x !in s[..i]
  {
    if s[0] == x then 0
    else
      var j := FirstIndex(s[1..], x);
      assert s[..j + 1] == [s[0]] + s[1..][..j];
      j + 1
  }

  /** r lists only elements of s, in strictly increasing order of their
      first occurrence in s. */
  predicate InFirstOccurrenceOrder<T(==,!new)>(s: seq<T>, r: seq<T>) {
    (forall x :: x in r ==> x in s) &&
    forall i, j :: 0 <= i < j < |r| ==> FirstIndex(s, r[i]) < FirstIndex(s, r[j])
  }

  /** Positions before the end of a prefix are found in the prefix. */
  lemma FirstIndexOfPrefix<T(!new)>(s: seq<T>, k: nat, x: T)
    requires k <= |s| && x in s[..k]
    ensures FirstIndex(s[..k], x) == FirstIndex(s, x)
  {
  }

  /** `[...new Set(s)]`. */
  function Distinct<T(==,!new)>(s: seq<T>): (r: seq<T>)
    ensures NoDuplicates(r)
    ensures forall x :: x in r <==> x in s
    ensures InFirstOccurrenceOrder(s, r)
  {
    if s == [] then []
    else
      var init, last := s[..|s| - 1], s[|s| - 1];
      var p := Distinct(init);
      assert forall x :: x in init ==> FirstIndex(init, x) == FirstIndex(s, x) by {
        forall x | x in init ensures FirstIndex(init, x) == FirstIndex(s, x) {
          FirstIndexOfPrefix(s, |s| - 1, x);
        }
      }
      assert s == init + [last];
      if last in init then p
      else
        assert FirstIndex(s, last) == |s| - 1;
        p + [last]
  }

  lemma NonEmptyHasHead<T>(s: seq<T>)
    ensures s != [] ==> s[0] in s
  {
  }

  /** Past a different head, the first index is one more than in the tail. */
  lemma FirstIndexAfterHead<T(!new)>(s: seq<T>, x: T)
    requires x in s && s[0] != x
    ensures x in s[1..] && FirstIndex(s, x) == FirstIndex(s[1..], x) + 1
  {
  }

  /** Two lists in first-occurrence order of s that hold the same elements
      are equal. */
  lemma {:induction false} FirstOccurrenceOrderUnique<T(!new)>(s: seq<T>, a: seq<T>, b: seq<T>)
    requires InFirstOccurrenceOrder(s, a) && InFirstOccurrenceOrder(s, b)
    requires forall x :: x in a <==> x in b
    ensures a == b
    decreases |a|
  {
    if a != [] {
      assert b != [] by { assert a[0] in b; }
      // The head of each list is its element of least first index.
      assert FirstIndex(s, a[0]) <= FirstIndex(s, b[0]) by {
        assert b[0] in b;
        var k :| 0 <= k < |a| && a[k] == b[0];
      }
      assert FirstIndex(s, b[0]) <= FirstIndex(s, a[0]) by {
        assert a[0] in a;
        var k :| 0 <= k < |b| && b[k] == a[0];
      }
      assert a[0] == b[0];
      forall x
        ensures x in a[1..] <==> x in b[1..]
      {
        if x in a[1..] {
          var k :| 0 <= k < |a| - 1 && a[1..][k] == x;
          assert a[k + 1] == x && x != a[0];
          assert x in b;
        }
        if x in b[1..] {
          var k :| 0 <= k < |b| - 1 && b[1..][k] == x;
          assert b[k + 1] == x && x != b[0];
          assert x in a;
        }
      }
      FirstOccurrenceOrderUnique(s, a[1..], b[1..]);
      assert a == [a[0]] + a[1..] && b == [b[0]] + b[1..];
    } else {
      NonEmptyHasHead(b);
    }
  }

  /** Distinct(s) is the one list that holds exactly the elements of s in
      first-occurrence order. */
  lemma DistinctCharacterized<T(!new)>(s: seq<T>, r: seq<T>)
    ensures r == Distinct(s) <==>
            (forall x :: x in r <==> x in s) && InFirstOccurrenceOrder(s, r)
  {
    if (forall x :: x in r <==> x in s) && InFirstOccurrenceOrder(s, r) {
      FirstOccurrenceOrderUnique(s, r, Distinct(s));
    }
  }

  /** A list without duplicates is left as it is. */
  lemma DistinctOfNoDuplicates<T(!new)>(s: seq<T>)
    requires NoDuplicates(s)
    ensures Distinct(s) == s
  {
    assert forall i :: 0 <= i < |s| ==> FirstIndex(s, s[i]) == i;
    DistinctCharacterized(s, s);
  }
}
