/**
 * std::sort with a comparator, modelled as insertion sort. The algorithm std::sort
 * uses is unspecified; what the model relies on is that the result is a
 * permutation of the input and, when the comparator is a strict order on the
 * input, sorted by it.
 */
module Sorting {

  /** Inserts x before the first element it is less than. */
  function Insert<T(==)>(x: T, s: seq<T>, less: (T, T) -> bool): (r: seq<T>)
    ensures |r| == |s| + 1
  {
    if s == [] then [x]
    else if less(x, s[0]) then [x] + s
    else [s[0]] + Insert(x, s[1..], less)
  }

  function Sort<T(==)>(s: seq<T>, less: (T, T) -> bool): (r: seq<T>)
    ensures |r| == |s|
  {
    if s == [] then []
    else Insert(s[0], Sort(s[1..], less), less)
  }

  /**
   * Inserting adds exactly x. The permutation facts are lemmas rather than
   * postconditions so that they enter only the proofs that use them.
   */
  lemma {:induction false} InsertPermutes<T>(x: T, s: seq<T>, less: (T, T) -> bool)
    ensures multiset(Insert(x, s, less)) == multiset(s) + multiset{x}
  {
    if s != [] && !less(x, s[0]) {
      assert s == [s[0]] + s[1..];
      InsertPermutes(x, s[1..], less);
    }
  }

  /** Sorting is a permutation. */
  lemma {:induction false} SortPermutes<T>(s: seq<T>, less: (T, T) -> bool)
    ensures multiset(Sort(s, less)) == multiset(s)
  {
    if s != [] {
      assert s == [s[0]] + s[1..];
      SortPermutes(s[1..], less);
      InsertPermutes(s[0], Sort(s[1..], less), less);
    }
  }

  /** No element is less than an element placed before it. */
  ghost predicate SortedBy<T>(s: seq<T>, less: (T, T) -> bool)
  {
    forall i, j :: 0 <= i < j < |s| ==> !less(s[j], s[i])
  }

  /** less relates no two elements at distinct positions both ways. */
  ghost predicate AsymmetricOn<T>(s: seq<T>, less: (T, T) -> bool)
  {
    forall i, j :: 0 <= i < |s| && 0 <= j < |s| && i != j ==> !(less(s[i], s[j]) && less(s[j], s[i]))
  }

  ghost predicate TransitiveOn<T>(s: seq<T>, less: (T, T) -> bool)
  {
    forall a, b, c :: a in s && b in s && c in s && less(a, b) && less(b, c) ==> less(a, c)
  }

  /**
   * The condition under which sorting is meaningful. It allows an element
   * that occurs once to be less than itself (polyVec::compare does that for
   * the reference vertex).
   */
  ghost predicate StrictOrderOn<T>(s: seq<T>, less: (T, T) -> bool)
  {
    AsymmetricOn(s, less) && TransitiveOn(s, less)
  }

  /** x is less than an element of s only if every element less than x is too. */
  ghost predicate TransitiveThrough<T>(x: T, s: seq<T>, less: (T, T) -> bool)
  {
    forall y, z :: y in s && z in s && less(y, x) && less(x, z) ==> less(y, z)
  }

  lemma {:induction false} InsertSorted<T>(x: T, s: seq<T>, less: (T, T) -> bool)
    requires SortedBy(s, less)
    requires forall y :: y in s ==> !(less(x, y) && less(y, x))
    requires TransitiveThrough(x, s, less)
    ensures SortedBy(Insert(x, s, less), less)
  {
    if s == [] {
    } else if less(x, s[0]) {
      InsertFrontSorted(x, s, less);
    } else {
      var t := s[1..];
      assert forall y :: y in t ==> y in s;
      InsertSorted(x, t, less);
      var tail := Insert(x, t, less);
      InsertPermutes(x, t, less);
      forall y | y in tail ensures !less(y, s[0]) {
        assert y in multiset(tail);
        if y != x {
          var j :| 0 <= j < |t| && t[j] == y;
          assert s[j + 1] == y;
        }
      }
      ConsSorted(s[0], tail, less);
    }
  }

  lemma InsertFrontSorted<T>(x: T, s: seq<T>, less: (T, T) -> bool)
    requires s != [] && less(x, s[0])
    requires SortedBy(s, less)
    requires forall y :: y in s ==> !(less(x, y) && less(y, x))
    requires TransitiveThrough(x, s, less)
    ensures SortedBy([x] + s, less)
  {
    forall y | y in s ensures !less(y, x) {
      var j :| 0 <= j < |s| && s[j] == y;
      if j > 0 {
        assert !less(s[j], s[0]);
      }
    }
    ConsSorted(x, s, less);
  }

  lemma ConsSorted<T>(x: T, s: seq<T>, less: (T, T) -> bool)
    requires SortedBy(s, less)
    requires forall y :: y in s ==> !less(y, x)
    ensures SortedBy([x] + s, less)
  {
    var r := [x] + s;
    forall i, j | 0 <= i < j < |r| ensures !less(r[j], r[i]) {
      if i == 0 {
        assert r[j] == s[j - 1];
      } else {
        assert r[j] == s[j - 1] && r[i] == s[i - 1];
      }
    }
  }

  lemma {:induction false} SortSorted<T>(s: seq<T>, less: (T, T) -> bool)
    requires StrictOrderOn(s, less)
    ensures SortedBy(Sort(s, less), less)
  {
    if s != [] {
      var t := s[1..];
      assert forall a :: a in t ==> a in s;
      assert StrictOrderOn(t, less) by {
        forall i, j | 0 <= i < |t| && 0 <= j < |t| && i != j
          ensures !(less(t[i], t[j]) && less(t[j], t[i]))
        {
          assert t[i] == s[i + 1] && t[j] == s[j + 1];
        }
      }
      SortSorted(t, less);
      var st := Sort(t, less);
      SortPermutes(t, less);
      forall y | y in st ensures !(less(s[0], y) && less(y, s[0])) {
        assert y in multiset(st);
        assert y in t;
        var j :| 0 <= j < |t| && t[j] == y;
        assert s[j + 1] == y;
      }
      forall y, z | y in st && z in st && less(y, s[0]) && less(s[0], z) ensures less(y, z) {
        assert y in multiset(st) && z in multiset(st);
        assert y in s && z in s;
      }
      InsertSorted(s[0], st, less);
    }
  }

  /** less orders any two distinct elements one way or the other. */
  ghost predicate TotalOn<T>(s: seq<T>, less: (T, T) -> bool)
  {
    forall i, j :: 0 <= i < |s| && 0 <= j < |s| && s[i] != s[j] ==> less(s[i], s[j]) || less(s[j], s[i])
  }

  lemma SortedTail<T>(s: seq<T>, less: (T, T) -> bool)
    requires s != [] && SortedBy(s, less)
    ensures SortedBy(s[1..], less)
  {
    forall i, j | 0 <= i < j < |s[1..]| ensures !less(s[1..][j], s[1..][i]) {
      assert s[1..][j] == s[j + 1] && s[1..][i] == s[i + 1];
    }
  }

  lemma TotalTail<T>(s: seq<T>, less: (T, T) -> bool)
    requires s != [] && TotalOn(s, less)
    ensures TotalOn(s[1..], less)
  {
    forall a, b | 0 <= a < |s[1..]| && 0 <= b < |s[1..]| && s[1..][a] != s[1..][b]
      ensures less(s[1..][a], s[1..][b]) || less(s[1..][b], s[1..][a])
    {
      assert s[1..][a] == s[a + 1] && s[1..][b] == s[b + 1];
    }
  }

  lemma SortedHeadsEqual<T>(r1: seq<T>, r2: seq<T>, less: (T, T) -> bool)
    requires r1 != [] && r2 != [] && multiset(r1) == multiset(r2)
    requires SortedBy(r1, less) && SortedBy(r2, less)
    requires TotalOn(r1, less)
    ensures r1[0] == r2[0]
  {
    assert r1[0] in multiset(r2) && r2[0] in multiset(r1);
    var i :| 0 <= i < |r1| && r1[i] == r2[0];
    var j :| 0 <= j < |r2| && r2[j] == r1[0];
  }

  /**
   * Under a total order there is only one sorted permutation: whatever
   * algorithm sorts, the result is the same.
   */
  lemma {:induction false} SortedUnique<T>(r1: seq<T>, r2: seq<T>, less: (T, T) -> bool)
    requires multiset(r1) == multiset(r2)
    requires SortedBy(r1, less) && SortedBy(r2, less)
    requires TotalOn(r1, less)
    ensures r1 == r2
  {
    if r1 == [] {
      assert |r2| == |multiset(r2)| == 0;
    } else {
      assert |r2| == |multiset(r2)| == |r1|;
      SortedHeadsEqual(r1, r2, less);
      assert r1 == [r1[0]] + r1[1..] && r2 == [r2[0]] + r2[1..];
      assert multiset(r1[1..]) == multiset(r1) - multiset{r1[0]};
      assert multiset(r2[1..]) == multiset(r2) - multiset{r2[0]};
      SortedTail(r1, less);
      SortedTail(r2, less);
      TotalTail(r1, less);
      SortedUnique(r1[1..], r2[1..], less);
    }
  }
}
