/**
 * Sequence operations with the meaning of the .NET List<T> members the model uses:
 * IndexOf, FindIndex, Remove (first occurrence), RemoveAll, Reverse and Sort.
 */
module Sequences {

  /** List<T>.IndexOf: the position of the first element equal to x, or -1. */
  function IndexOf<T(==)>(s: seq<T>, x: T): (r: int)
    ensures -1 <= r < |s|
    ensures r == -1 <==> x !in s
    ensures 0 <= r ==> s[r] == x && x !in s[..r]
  {
    if |s| == 0 then -1
    else if s[0] == x then 0
    else
      var k := IndexOf(s[1..], x);
      assert s[1..][..k + 1] == s[1..k + 2] by { assert k + 1 <= |s[1..]| || k == -1; }
      if k == -1 then -1 else k + 1
  }

  /** List<T>.FindIndex: the position of the first element satisfying p, or -1. */
  function FindIndex<T>(s: seq<T>, p: T -> bool): (r: int)
    ensures -1 <= r < |s|
    ensures r == -1 <==> forall i :: 0 <= i < |s| ==> !p(s[i])
    ensures 0 <= r ==> p(s[r]) && forall i :: 0 <= i < r ==> !p(s[i])
  {
    if |s| == 0 then -1
    else if p(s[0]) then 0
    else
      var k := FindIndex(s[1..], p);
      if k == -1 then -1 else k + 1
  }

  /** List<T>.Remove: drops the first element equal to x, if any. */
  function RemoveFirst<T(==)>(s: seq<T>, x: T): (r: seq<T>)
    ensures x !in s ==> r == s
    ensures x in s ==> |r| == |s| - 1 && r == s[..IndexOf(s, x)] + s[IndexOf(s, x) + 1..]
    ensures multiset(r) == multiset(s) - multiset{x}
  {
    var i := IndexOf(s, x);
    if i < 0 then s
    else
      assert s == s[..i] + [x] + s[i + 1..];
      s[..i] + s[i + 1..]
  }

  /** List<T>.RemoveAll: the elements that do not satisfy p, in their original order. */
  function RemoveWhere<T>(s: seq<T>, p: T -> bool): (r: seq<T>)
    ensures |r| <= |s|
    ensures forall i :: 0 <= i < |r| ==> !p(r[i])
  {
    if |s| == 0 then []
    else if p(s[0]) then RemoveWhere(s[1..], p)
    else [s[0]] + RemoveWhere(s[1..], p)
  }

  /** The number of elements of s that satisfy p. */
  function CountWhere<T>(s: seq<T>, p: T -> bool): nat {
    if |s| == 0 then 0
    else (if p(s[0]) then 1 else 0) + CountWhere(s[1..], p)
  }

  /** RemoveAll removes exactly the matching elements: the count it returns is the number of matches. */
  lemma {:induction false} RemoveWhereCount<T>(s: seq<T>, p: T -> bool)
    ensures |s| - |RemoveWhere(s, p)| == CountWhere(s, p)
  {
    if |s| > 0 {
      RemoveWhereCount(s[1..], p);
    }
  }

  /** RemoveAll keeps every element that does not match, and keeps nothing else. */
  lemma {:induction false} RemoveWhereKeeps<T>(s: seq<T>, p: T -> bool, x: T)
    ensures x in RemoveWhere(s, p) <==> x in s && !p(x)
  {
    if |s| > 0 {
      RemoveWhereKeeps(s[1..], p, x);
      assert x in s <==> x == s[0] || x in s[1..];
    }
  }

  /** No element matches, so the count is zero. */
  lemma {:induction false} CountWhereNone<T>(s: seq<T>, p: T -> bool)
    requires forall i :: 0 <= i < |s| ==> !p(s[i])
    ensures CountWhere(s, p) == 0
  {
    if |s| > 0 {
      assert forall i :: 0 <= i < |s[1..]| ==> s[1..][i] == s[i + 1];
      CountWhereNone(s[1..], p);
    }
  }

  /** Removing nothing leaves the sequence as it was. */
  lemma {:induction false} RemoveWhereNoMatch<T>(s: seq<T>, p: T -> bool)
    requires CountWhere(s, p) == 0
    ensures RemoveWhere(s, p) == s
  {
    if |s| > 0 {
      RemoveWhereNoMatch(s[1..], p);
    }
  }

  /** List<T>.Reverse. */
  function Reversed<T>(s: seq<T>): (r: seq<T>)
    ensures |r| == |s|
  {
    if |s| == 0 then [] else Reversed(s[1..]) + [s[0]]
  }

  lemma {:induction false} ReversedAt<T>(s: seq<T>, k: nat)
    requires k < |s|
    ensures Reversed(s)[k] == s[|s| - 1 - k]
  {
    if k < |s| - 1 {
      ReversedAt(s[1..], k);
    }
  }

  /** Reversing a sequence of fewer than two elements changes nothing. */
  lemma ReversedShort<T>(s: seq<T>)
    requires |s| < 2
    ensures Reversed(s) == s
  {
    if |s| == 1 {
      assert Reversed(s[1..]) == [];
    }
  }

  /** A "less than or equal" relation that is total and transitive on the elements of s. */
  ghost predicate TotalPreorderOn<T>(s: seq<T>, leq: (T, T) -> bool) {
    && (forall a, b :: a in s && b in s ==> leq(a, b) || leq(b, a))
    && (forall a, b, c :: a in s && b in s && c in s && leq(a, b) && leq(b, c) ==> leq(a, c))
  }

  ghost predicate Sorted<T>(s: seq<T>, leq: (T, T) -> bool) {
    forall i, j :: 0 <= i < j < |s| ==> leq(s[i], s[j])
  }

  /** Inserts x into a sorted sequence before the first element it is not above. */
  function Insert<T>(x: T, s: seq<T>, leq: (T, T) -> bool): (r: seq<T>)
    ensures multiset(r) == multiset(s) + multiset{x}
    ensures |r| == |s| + 1
  {
    if |s| == 0 then [x]
    else if leq(x, s[0]) then [x] + s
    else
      assert s == [s[0]] + s[1..];
      [s[0]] + Insert(x, s[1..], leq)
  }

  lemma {:induction false} InsertSorted<T>(x: T, s: seq<T>, leq: (T, T) -> bool)
    requires TotalPreorderOn([x] + s, leq) && Sorted(s, leq)
    ensures Sorted(Insert(x, s, leq), leq)
  {
    if |s| > 0 && !leq(x, s[0]) {
      assert forall y :: y in [x] + s[1..] ==> y in [x] + s;
      InsertSorted(x, s[1..], leq);
      var r := Insert(x, s, leq);
      var tail := Insert(x, s[1..], leq);
      assert r == [s[0]] + tail;
      assert leq(s[0], x) by { assert x in [x] + s && s[0] in [x] + s; }
      forall i, j | 0 <= i < j < |r| ensures leq(r[i], r[j]) {
        if i == 0 {
          assert r[j] in multiset(tail);
          assert r[j] == x || r[j] in s[1..];
          if r[j] != x {
            var k :| 0 <= k < |s[1..]| && s[1..][k] == r[j];
            assert s[k + 1] == r[j];
          }
        }
      }
    }
  }

  /** A sort: insertion sort, producing a sorted permutation. */
  function SortBy<T>(s: seq<T>, leq: (T, T) -> bool): (r: seq<T>)
    ensures multiset(r) == multiset(s)
    ensures |r| == |s|
  {
    if |s| == 0 then []
    else
      assert s == [s[0]] + s[1..];
      Insert(s[0], SortBy(s[1..], leq), leq)
  }

  lemma {:induction false} SortBySorted<T>(s: seq<T>, leq: (T, T) -> bool)
    requires TotalPreorderOn(s, leq)
    ensures Sorted(SortBy(s, leq), leq)
  {
    if |s| > 0 {
      assert forall y :: y in s[1..] ==> y in s;
      SortBySorted(s[1..], leq);
      var sorted := SortBy(s[1..], leq);
      forall y | y in [s[0]] + sorted ensures y in s {
        if y != s[0] {
          assert y in multiset(sorted);
        }
      }
      InsertSorted(s[0], sorted, leq);
    }
  }
}
