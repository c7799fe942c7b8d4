/** Sequence helpers: concatenation of a sequence of groups and element-wise mapping. */
module Seqs {

  /** The concatenation of all groups, in order. */
  function Flatten<T>(ss: seq<seq<T>>): seq<T>
  {
    if ss == [] then [] else ss[0] + Flatten(ss[1..])
  }

  lemma {:induction false} FlattenAppend<T>(a: seq<seq<T>>, b: seq<seq<T>>)
    ensures Flatten(a + b) == Flatten(a) + Flatten(b)
  {
    if a == [] {
      assert a + b == b;
    } else {
      assert (a + b)[1..] == a[1..] + b;
      FlattenAppend(a[1..], b);
    }
  }

  lemma FlattenCons<T>(g: seq<T>, ss: seq<seq<T>>)
    ensures Flatten([g] + ss) == g + Flatten(ss)
  {
    assert ([g] + ss)[1..] == ss;
  }

  lemma {:induction false} FlattenLength<T>(ss: seq<seq<T>>)
    ensures |Flatten(ss)| == SumOfLengths(ss)
  {
    if ss != [] {
      FlattenLength(ss[1..]);
    }
  }

  /** The sum of the groups' sizes. */
  function SumOfLengths<T>(ss: seq<seq<T>>): nat
  {
    if ss == [] then 0 else |ss[0]| + SumOfLengths(ss[1..])
  }

  /** An element of any group is an element of the concatenation. */
  lemma {:induction false} FlattenMember<T>(ss: seq<seq<T>>, i: nat, x: T)
    requires i < |ss| && x in ss[i]
    ensures x in Flatten(ss)
  {
    if i > 0 {
      FlattenMember(ss[1..], i - 1, x);
    }
  }

  /** Permuting every group permutes the concatenation. */
  lemma {:induction false} FlattenPermutation<T>(a: seq<seq<T>>, b: seq<seq<T>>)
    requires |a| == |b|
    requires forall i :: 0 <= i < |a| ==> multiset(a[i]) == multiset(b[i])
    ensures multiset(Flatten(a)) == multiset(Flatten(b))
  {
    if a != [] {
      FlattenPermutation(a[1..], b[1..]);
    }
  }

  /** f applied to every element, in order. */
  function Map<T, U>(f: T -> U, s: seq<T>): (r: seq<U>)
    ensures |r| == |s|
    ensures forall k :: 0 <= k < |s| ==> r[k] == f(s[k])
  {
    seq(|s|, k requires 0 <= k < |s| => f(s[k]))
  }

  lemma AppendAssoc<T>(a: seq<T>, b: seq<T>, c: seq<T>)
    ensures a + b + c == a + (b + c)
  {
  }

  lemma MapAppend<T, U>(f: T -> U, a: seq<T>, b: seq<T>)
    ensures Map(f, a + b) == Map(f, a) + Map(f, b)
  {
    assert forall k :: 0 <= k < |a + b| ==> Map(f, a + b)[k] == (Map(f, a) + Map(f, b))[k];
  }

  lemma MapCons<T, U>(f: T -> U, s: seq<T>)
    requires s != []
    ensures Map(f, s) == [f(s[0])] + Map(f, s[1..])
  {
  }

  /** Mapping two permutations of each other gives two permutations of each other. */
  lemma {:induction false} MapPermutation<T, U>(f: T -> U, s: seq<T>, t: seq<T>)
    requires multiset(s) == multiset(t)
    ensures multiset(Map(f, s)) == multiset(Map(f, t))
  {
    if s == [] {
      assert |t| == |multiset(t)| == 0;
    } else {
      var x := s[0];
      assert x in multiset(t);
      var i :| 0 <= i < |t| && t[i] == x;
      var rest := t[..i] + t[i + 1..];
      RemoveAt(t, i);
      assert s == [x] + s[1..];
      assert multiset(s[1..]) == multiset(rest);
      MapPermutation(f, s[1..], rest);
      MapRemoveAt(f, t, i);
      MapCons(f, s);
    }
  }

  /** Removing position i removes one occurrence of t[i]. */
  lemma RemoveAt<T>(t: seq<T>, i: nat)
    requires i < |t|
    ensures multiset(t[..i] + t[i + 1..]) == multiset(t) - multiset{t[i]}
  {
    assert t == t[..i] + [t[i]] + t[i + 1..];
  }

  /** Mapping, position i contributes f(t[i]) and the rest the mapped remainder. */
  lemma MapRemoveAt<T, U>(f: T -> U, t: seq<T>, i: nat)
    requires i < |t|
    ensures multiset(Map(f, t)) == multiset{f(t[i])} + multiset(Map(f, t[..i] + t[i + 1..]))
  {
    assert t == t[..i] + [t[i]] + t[i + 1..];
    MapAppend(f, t[..i] + [t[i]], t[i + 1..]);
    MapAppend(f, t[..i], [t[i]]);
    MapAppend(f, t[..i], t[i + 1..]);
  }

  /** An element found at two different positions occurs at least twice. */
  lemma TwoPositions<T>(s: seq<T>, i: nat, j: nat)
    requires i < j < |s| && s[i] == s[j]
    ensures multiset(s)[s[i]] >= 2
  {
    assert s == s[..i] + [s[i]] + s[i + 1..j] + [s[j]] + s[j + 1..];
  }

  /** An element that does not occur again after the head occurs exactly once. */
  lemma HeadOnce<T>(s: seq<T>)
    requires s != [] && s[0] !in s[1..]
    ensures multiset(s)[s[0]] == 1
  {
    assert s == [s[0]] + s[1..];
  }
}
