/**
 * The stable sort JavaScript's `Array.prototype.sort` performs, for a
 * comparator `le(a, b)` standing for `compare(a, b) <= 0`.
 */
module Sorting {

  /** The comparator orders every pair one way or the other. */
  ghost predicate Total<T(!new)>(le: (T, T) -> bool)
  {
    forall a, b :: le(a, b) || le(b, a)
  }

  ghost predicate Transitive<T(!new)>(le: (T, T) -> bool)
  {
    forall a, b, c :: le(a, b) && le(b, c) ==> le(a, c)
  }

  /** Each element is ordered before its successor. */
  predicate SortedBy<T>(s: seq<T>, le: (T, T) -> bool)
  {
    forall i :: 0 < i < |s| ==> le(s[i - 1], s[i])
  }

  /** Each element is ordered before every later one. */
  predicate PairwiseSortedBy<T>(s: seq<T>, le: (T, T) -> bool)
  {
    forall i, j :: 0 <= i < j < |s| ==> le(s[i], s[j])
  }

  /** Insert x before the first element it is ordered before. */
  function Insert<T>(x: T, s: seq<T>, le: (T, T) -> bool): (r: seq<T>)
    ensures multiset(r) == multiset(s) + multiset{x}
    ensures |r| == |s| + 1
    ensures r[0] == x || (s != [] && r[0] == s[0])
  {
    if s == [] then [x]
    else if le(x, s[0]) then [x] + s
    else
      assert s == [s[0]] + s[1..];
      [s[0]] + Insert(x, s[1..], le)
  }

  /** Insertion sort: earlier elements stay before equal later ones. */
  function SortBy<T>(s: seq<T>, le: (T, T) -> bool): (r: seq<T>)
    ensures multiset(r) == multiset(s)
    ensures |r| == |s|
  {
    if s == [] then []
    else
      assert s == [s[0]] + s[1..];
      Insert(s[0], SortBy(s[1..], le), le)
  }

  lemma {:induction false} InsertSorted<T(!new)>(x: T, s: seq<T>, le: (T, T) -> bool)
    requires Total(le)
    requires SortedBy(s, le)
    ensures SortedBy(Insert(x, s, le), le)
  {
    if s != [] && !le(x, s[0]) {
      assert le(s[0], x);
      InsertSorted(x, s[1..], le);
      var rest := Insert(x, s[1..], le);
      assert rest[0] == x || rest[0] == s[1];
    }
  }

  /** The sort yields a sorted permutation of its input. */
  lemma {:induction false} SortBySorted<T(!new)>(s: seq<T>, le: (T, T) -> bool)
    requires Total(le)
    ensures SortedBy(SortBy(s, le), le)
    ensures multiset(SortBy(s, le)) == multiset(s)
  {
    if s != [] {
      SortBySorted(s[1..], le);
      InsertSorted(s[0], SortBy(s[1..], le), le);
    }
  }

  /** With a transitive comparator, adjacent order gives order between any two positions. */
  lemma {:induction false} SortedIsPairwise<T(!new)>(s: seq<T>, le: (T, T) -> bool)
    requires Transitive(le)
    requires SortedBy(s, le)
    ensures PairwiseSortedBy(s, le)
  {
    if |s| > 1 {
      SortedIsPairwise(s[1..], le);
      forall j | 1 <= j < |s|
        ensures le(s[0], s[j])
      {
        if j > 1 {
          assert le(s[1], s[j]) by {
            assert s[1..][0] == s[1] && s[1..][j - 1] == s[j];
          }
        }
      }
      forall i, j | 0 <= i < j < |s|
        ensures le(s[i], s[j])
      {
        if i > 0 {
          assert s[1..][i - 1] == s[i] && s[1..][j - 1] == s[j];
        }
      }
    }
  }

  /** In a pairwise-sorted sequence the first k elements come before every
      element left out. */
  lemma {:induction false} PrefixBeforeRest<T>(s: seq<T>, k: nat, le: (T, T) -> bool)
    requires k <= |s| && PairwiseSortedBy(s, le)
    ensures multiset(s[..k]) <= multiset(s)
    ensures forall x, y | x in multiset(s) - multiset(s[..k]) && y in s[..k] :: le(y, x)
  {
    var prefix := s[..k];
    var rest := s[k..];
    SplitMultiset(s, k);
    forall x, y | x in multiset(rest) && y in prefix
      ensures le(y, x)
    {
      assert x in rest;
      var j :| 0 <= j < |rest| && rest[j] == x;
      var i :| 0 <= i < |prefix| && prefix[i] == y;
      assert s[k + j] == x && s[i] == y;
    }
  }

  lemma {:induction false} SplitMultiset<T>(s: seq<T>, k: nat)
    requires k <= |s|
    ensures multiset(s[..k]) <= multiset(s)
    ensures multiset(s) - multiset(s[..k]) == multiset(s[k..])
  {
    assert s == s[..k] + s[k..];
  }
}
