/**
 * The dual-graph construction of src/voronoi.cc: the convex hull's index
 * buffer is cut into triangles, each triangle yields one dual (Voronoi)
 * vertex, (point, triangle) associations are sorted and split into one group
 * of triangle indices per generator point, and each group is put in
 * rotational order around its cell.
 *
 * The hull builder is not modelled: its index buffer is a parameter. The
 * circumcenter, centre and orientation geometry come from the Kernel.
 */
module Voronoi {
  import opened Geometry
  import opened Seqs
  import opened Sorting
  import opened PolyOrder

  /** A glm::uvec2 association: a generator point index and a hull triangle index. */
  datatype Assoc = Assoc(point: nat, tri: nat)

  function PointOf(x: Assoc): nat { x.point }
  function TriOf(x: Assoc): nat { x.tri }

  /** The point components of the associations, in order. */
  function Points(a: seq<Assoc>): seq<nat> { Map<Assoc, nat>(PointOf, a) }

  /** The triangle components of the associations, in order. */
  function Tris(a: seq<Assoc>): seq<nat> { Map<Assoc, nat>(TriOf, a) }

  lemma ComponentsPermutation(s: seq<Assoc>, a: seq<Assoc>)
    requires multiset(s) == multiset(a)
    ensures multiset(Points(s)) == multiset(Points(a))
    ensures multiset(Tris(s)) == multiset(Tris(a))
  {
    MapPermutation<Assoc, nat>(PointOf, s, a);
    MapPermutation<Assoc, nat>(TriOf, s, a);
  }

  /** compareUvec: first by point index, then by triangle index. */
  predicate CompareUvec(v1: Assoc, v2: Assoc)
  {
    if v1.point < v2.point then true
    else if v1.point > v2.point then false
    else v1.tri < v2.tri
  }

  lemma CompareUvecIsLexicographic(v1: Assoc, v2: Assoc)
    ensures CompareUvec(v1, v2) <==> v1.point < v2.point || (v1.point == v2.point && v1.tri < v2.tri)
  {
  }

  /** compareUvec is irreflexive, transitive and total on distinct pairs. */
  lemma CompareUvecIsStrictTotalOrder(v1: Assoc, v2: Assoc, v3: Assoc)
    ensures !CompareUvec(v1, v1)
    ensures CompareUvec(v1, v2) && CompareUvec(v2, v3) ==> CompareUvec(v1, v3)
    ensures v1 != v2 ==> CompareUvec(v1, v2) || CompareUvec(v2, v1)
  {
  }

  lemma CompareUvecOrdersAll(s: seq<Assoc>)
    ensures StrictOrderOn(s, CompareUvec) && TotalOn(s, CompareUvec)
  {
    forall a, b, c | a in s && b in s && c in s && CompareUvec(a, b) && CompareUvec(b, c)
      ensures CompareUvec(a, c)
    {
      CompareUvecIsStrictTotalOrder(a, b, c);
    }
  }

  /** The std::sort call on the associations (src/voronoi.cc:57). */
  function SortAssociations(a: seq<Assoc>): (r: seq<Assoc>)
    ensures |r| == |a|
  {
    Sort(a, CompareUvec)
  }

  /** The sorted associations are ordered by compareUvec. */
  lemma SortAssociationsSorted(a: seq<Assoc>)
    ensures SortedBy(SortAssociations(a), CompareUvec)
  {
    CompareUvecOrdersAll(a);
    SortSorted(a, CompareUvec);
  }

  /** Sorting the associations keeps each of them, as often as it occurs. */
  lemma SortAssociationsPermutes(a: seq<Assoc>)
    ensures multiset(SortAssociations(a)) == multiset(a)
  {
    SortPermutes(a, CompareUvec);
  }

  /** Any sorted permutation of the associations is the one SortAssociations gives. */
  lemma SortAssociationsUnique(a: seq<Assoc>, r: seq<Assoc>)
    requires multiset(r) == multiset(a) && SortedBy(r, CompareUvec)
    ensures r == SortAssociations(a)
  {
    CompareUvecOrdersAll(r);
    SortAssociationsPermutes(a);
    SortAssociationsSorted(a);
    SortedUnique(r, SortAssociations(a), CompareUvec);
  }

  // ---------------------------------------------------------------------------
  // Triangles, dual vertices and associations

  /** The hull's index buffer read as consecutive triples. */
  function TriSimplices(pointIndices: seq<nat>): (r: seq<Tri>)
    requires |pointIndices| % 3 == 0
    ensures |r| == |pointIndices| / 3
    decreases |pointIndices|
  {
    if pointIndices == [] then []
    else [Tri(pointIndices[0], pointIndices[1], pointIndices[2])] + TriSimplices(pointIndices[3..])
  }

  /** Triangle i is buffer entries 3i, 3i + 1 and 3i + 2. */
  lemma {:induction false} TriSimplexAt(pointIndices: seq<nat>, i: nat)
    requires |pointIndices| % 3 == 0 && i < |pointIndices| / 3
    ensures TriSimplices(pointIndices)[i] == Tri(pointIndices[3 * i], pointIndices[3 * i + 1], pointIndices[3 * i + 2])
    decreases i
  {
    if i > 0 {
      var rest := pointIndices[3..];
      TriSimplexAt(rest, i - 1);
      assert rest[3 * (i - 1)] == pointIndices[3 * i];
      assert rest[3 * (i - 1) + 1] == pointIndices[3 * i + 1];
      assert rest[3 * (i - 1) + 2] == pointIndices[3 * i + 2];
    }
  }

  /** All triangles at once. */
  lemma TriSimplicesAt(pointIndices: seq<nat>)
    requires |pointIndices| % 3 == 0
    ensures forall i :: 0 <= i < |pointIndices| / 3 ==>
      TriSimplices(pointIndices)[i] == Tri(pointIndices[3 * i], pointIndices[3 * i + 1], pointIndices[3 * i + 2])
  {
    forall i | 0 <= i < |pointIndices| / 3
      ensures TriSimplices(pointIndices)[i] == Tri(pointIndices[3 * i], pointIndices[3 * i + 1], pointIndices[3 * i + 2])
    {
      TriSimplexAt(pointIndices, i);
    }
  }

  predicate TriBelow(t: Tri, n: nat)
  {
    t.a < n && t.b < n && t.c < n
  }

  predicate TrisBelow(tris: seq<Tri>, n: nat)
  {
    forall i :: 0 <= i < |tris| ==> TriBelow(tris[i], n)
  }

  lemma TriSimplicesBelow(pointIndices: seq<nat>, n: nat)
    requires |pointIndices| % 3 == 0 && AllBelow(pointIndices, n)
    ensures TrisBelow(TriSimplices(pointIndices), n)
  {
    var tris := TriSimplices(pointIndices);
    TriSimplicesAt(pointIndices);
    forall i | 0 <= i < |tris| ensures TriBelow(tris[i], n) {
      assert 3 * i + 2 < |pointIndices|;
    }
  }

  /** The dual vertex of each triangle, in triangle order. */
  function DualVertices(points: seq<Vec3>, tris: seq<Tri>, k: Kernel): (r: seq<Vec3>)
    requires TrisBelow(tris, |points|)
    ensures |r| == |tris|
  {
    seq(|tris|, i requires 0 <= i < |tris| =>
      k.circumcenter(points[tris[i].a], points[tris[i].b], points[tris[i].c]))
  }

  /** tri_indices: every triangle index three times, in order. */
  function TriIndexSeq(n: nat): (r: seq<nat>)
    ensures |r| == 3 * n
  {
    seq(3 * n, k requires 0 <= k < 3 * n => k / 3)
  }

  lemma TriIndexSeqStep(n: nat)
    ensures TriIndexSeq(n + 1) == TriIndexSeq(n) + [n, n, n]
  {
    var a, b := TriIndexSeq(n + 1), TriIndexSeq(n) + [n, n, n];
    forall k | 0 <= k < 3 * n + 3 ensures a[k] == b[k] {
      if k >= 3 * n {
        assert k / 3 == n;
      }
    }
  }

  /** Every triangle index occurs exactly three times in tri_indices. */
  lemma {:induction false} TriIndexCount(n: nat, t: nat)
    ensures multiset(TriIndexSeq(n))[t] == if t < n then 3 else 0
  {
    if n > 0 {
      TriIndexSeqStep(n - 1);
      TriIndexCount(n - 1, t);
    }
  }

  /** array_associations before sorting: entry k pairs pointIndices[k] with k / 3. */
  function Associations(pointIndices: seq<nat>): (r: seq<Assoc>)
    ensures |r| == |pointIndices|
  {
    seq(|pointIndices|, k requires 0 <= k < |pointIndices| => Assoc(pointIndices[k], k / 3))
  }

  lemma AssociationsComponents(pointIndices: seq<nat>)
    requires |pointIndices| % 3 == 0
    ensures Points(Associations(pointIndices)) == pointIndices
    ensures Tris(Associations(pointIndices)) == TriIndexSeq(|pointIndices| / 3)
  {
  }

  /** Each triangle index occurs in exactly three associations, sorted or not. */
  lemma {:induction false} SortedAssociationsTriCount(pointIndices: seq<nat>, t: nat)
    requires |pointIndices| % 3 == 0
    ensures multiset(Tris(SortAssociations(Associations(pointIndices))))[t]
         == if t < |pointIndices| / 3 then 3 else 0
  {
    var a := Associations(pointIndices);
    AssociationsComponents(pointIndices);
    SortAssociationsPermutes(a);
    ComponentsPermutation(SortAssociations(a), a);
    TriIndexCount(|pointIndices| / 3, t);
  }

  // ---------------------------------------------------------------------------
  // Grouping (generateGroups)

  /**
   * The groups generateGroups pushes for the associations a, when the loop is
   * at group number cur and has collected curGroup so far.
   */
  function GroupsFrom(a: seq<Assoc>, cur: nat, curGroup: seq<nat>): (r: seq<seq<nat>>)
    ensures |r| >= 1
    decreases |a|
  {
    if a == [] then [curGroup]
    else if a[0].point != cur then [curGroup] + GroupsFrom(a[1..], cur + 1, [a[0].tri])
    else GroupsFrom(a[1..], cur, curGroup + [a[0].tri])
  }

  lemma TrisCons(a: seq<Assoc>)
    requires a != []
    ensures Tris(a) == [a[0].tri] + Tris(a[1..])
  {
    MapCons<Assoc, nat>(TriOf, a);
  }

  /** Grouping loses and invents no triangle, and keeps their order. */
  lemma {:induction false} GroupsFromFlatten(a: seq<Assoc>, cur: nat, curGroup: seq<nat>)
    ensures Flatten<nat>(GroupsFrom(a, cur, curGroup)) == curGroup + Tris(a)
    decreases |a|
  {
    if a == [] {
      FlattenCons(curGroup, []);
    } else if a[0].point != cur {
      GroupsFromFlatten(a[1..], cur + 1, [a[0].tri]);
      GroupsFromNewGroup(a, cur, curGroup);
    } else {
      GroupsFromFlatten(a[1..], cur, curGroup + [a[0].tri]);
      GroupsFromSameGroup(a, cur, curGroup);
    }
  }

  /** The step of GroupsFromFlatten where the association starts a new group. */
  lemma GroupsFromNewGroup(a: seq<Assoc>, cur: nat, curGroup: seq<nat>)
    requires a != [] && a[0].point != cur
    requires Flatten<nat>(GroupsFrom(a[1..], cur + 1, [a[0].tri])) == [a[0].tri] + Tris(a[1..])
    ensures Flatten<nat>(GroupsFrom(a, cur, curGroup)) == curGroup + Tris(a)
  {
    var gs := GroupsFrom(a[1..], cur + 1, [a[0].tri]);
    assert GroupsFrom(a, cur, curGroup) == [curGroup] + gs;
    FlattenCons(curGroup, gs);
    TrisCons(a);
  }

  /** The step of GroupsFromFlatten where the association extends the current group. */
  lemma GroupsFromSameGroup(a: seq<Assoc>, cur: nat, curGroup: seq<nat>)
    requires a != [] && a[0].point == cur
    requires Flatten<nat>(GroupsFrom(a[1..], cur, curGroup + [a[0].tri])) == curGroup + [a[0].tri] + Tris(a[1..])
    ensures Flatten<nat>(GroupsFrom(a, cur, curGroup)) == curGroup + Tris(a)
  {
    TrisCons(a);
    AppendAssoc(curGroup, [a[0].tri], Tris(a[1..]));
  }

  /** generateGroups, starting from group 0 with an empty current group. */
  function Groups(a: seq<Assoc>): (r: seq<seq<nat>>)
    ensures |r| >= 1
    ensures Flatten<nat>(r) == Tris(a)
  {
    GroupsFromFlatten(a, 0, []);
    GroupsFrom(a, 0, [])
  }

  /** The triangle components, in order, of p's associations. */
  function Incident(a: seq<Assoc>, p: nat): seq<nat>
  {
    if a == [] then []
    else (if a[0].point == p then [a[0].tri] else []) + Incident(a[1..], p)
  }

  /** Each triangle index occurs in Incident(a, p) as often as (p, t) occurs in a. */
  lemma {:induction false} IncidentCount(a: seq<Assoc>, p: nat, t: nat)
    ensures multiset(Incident(a, p))[t] == multiset(a)[Assoc(p, t)]
  {
    if a != [] {
      IncidentCount(a[1..], p, t);
      assert a == [a[0]] + a[1..];
    }
  }

  /**
   * The point indices start at cur or cur + 1 and, from one association to
   * the next, stay the same or go up by one.
   */
  ghost predicate StepsFrom(a: seq<Assoc>, cur: nat)
  {
    && (|a| > 0 ==> cur <= a[0].point <= cur + 1)
    && forall k :: 0 <= k < |a| - 1 ==> a[k].point <= a[k + 1].point <= a[k].point + 1
  }

  lemma {:induction false} IncidentOfSmaller(a: seq<Assoc>, p: nat)
    requires a != [] && StepsFrom(a, a[0].point) && p < a[0].point
    ensures Incident(a, p) == []
  {
    if |a| > 1 {
      IncidentOfSmaller(a[1..], p);
    }
  }

  /** The shape GroupsFrom has when point indices step by at most one. */
  ghost predicate ContiguousGroups(r: seq<seq<nat>>, a: seq<Assoc>, cur: nat, curGroup: seq<nat>)
  {
    && |r| == (if a == [] then 1 else a[|a| - 1].point - cur + 1)
    && |r| > 0
    && r[0] == curGroup + Incident(a, cur)
    && forall j :: 0 < j < |r| ==> r[j] == Incident(a, cur + j)
  }

  /**
   * When the point indices step by at most one, group j of GroupsFrom holds
   * exactly the triangles of point cur + j.
   */
  lemma {:induction false} GroupsFromContiguous(a: seq<Assoc>, cur: nat, curGroup: seq<nat>)
    requires StepsFrom(a, cur)
    ensures ContiguousGroups(GroupsFrom(a, cur, curGroup), a, cur, curGroup)
    decreases |a|
  {
    if a != [] {
      var t := a[0].tri;
      assert StepsFrom(a[1..], a[0].point) by {
        forall k | 0 <= k < |a[1..]| - 1
          ensures a[1..][k].point <= a[1..][k + 1].point <= a[1..][k].point + 1
        {
          assert a[1..][k] == a[k + 1] && a[1..][k + 1] == a[k + 2];
        }
        if |a| > 1 {
          assert a[1..][0] == a[1];
        }
      }
      if a[0].point == cur {
        GroupsFromContiguous(a[1..], cur, curGroup + [t]);
        SameGroupStep(a, cur, curGroup);
      } else {
        GroupsFromContiguous(a[1..], cur + 1, [t]);
        IncidentOfSmaller(a, cur);
        NewGroupStep(a, cur, curGroup);
      }
    }
  }

  lemma SameGroupStep(a: seq<Assoc>, cur: nat, curGroup: seq<nat>)
    requires a != [] && a[0].point == cur
    requires ContiguousGroups(GroupsFrom(a[1..], cur, curGroup + [a[0].tri]), a[1..], cur, curGroup + [a[0].tri])
    ensures ContiguousGroups(GroupsFrom(a, cur, curGroup), a, cur, curGroup)
  {
    var r := GroupsFrom(a, cur, curGroup);
    assert r == GroupsFrom(a[1..], cur, curGroup + [a[0].tri]);
    assert Incident(a, cur) == [a[0].tri] + Incident(a[1..], cur);
    forall j | 0 < j < |r| ensures r[j] == Incident(a, cur + j) {
      assert Incident(a, cur + j) == Incident(a[1..], cur + j);
    }
  }

  lemma NewGroupStep(a: seq<Assoc>, cur: nat, curGroup: seq<nat>)
    requires a != [] && a[0].point == cur + 1
    requires Incident(a, cur) == []
    requires ContiguousGroups(GroupsFrom(a[1..], cur + 1, [a[0].tri]), a[1..], cur + 1, [a[0].tri])
    ensures ContiguousGroups(GroupsFrom(a, cur, curGroup), a, cur, curGroup)
  {
    var rest := GroupsFrom(a[1..], cur + 1, [a[0].tri]);
    var r := GroupsFrom(a, cur, curGroup);
    assert r == [curGroup] + rest;
    assert Incident(a, cur + 1) == [a[0].tri] + Incident(a[1..], cur + 1);
    forall j | 0 < j < |r| ensures r[j] == Incident(a, cur + j) {
      assert r[j] == rest[j - 1];
      if j > 1 {
        assert Incident(a, cur + j) == Incident(a[1..], cur + j);
      }
    }
  }

  /** Every point index below n occurs in the buffer, and no other. */
  ghost predicate CoversPoints(pointIndices: seq<nat>, n: nat)
  {
    AllBelow(pointIndices, n) && forall p :: 0 <= p < n ==> p in pointIndices
  }

  /** The point components ascend along a. */
  ghost predicate PointsAscend(a: seq<Assoc>)
  {
    forall i, j :: 0 <= i < j < |a| ==> a[i].point <= a[j].point
  }

  /** Sorting by CompareUvec puts the point components in ascending order. */
  lemma SortedPointsAscend(a: seq<Assoc>)
    requires SortedBy(a, CompareUvec)
    ensures PointsAscend(a)
  {
    forall i, j | 0 <= i < j < |a| ensures a[i].point <= a[j].point {
      assert !CompareUvec(a[j], a[i]);
    }
  }

  /** Associations whose points ascend and cover 0 .. n - 1 step from 0 by at most one. */
  lemma SortedCoveringSteps(a: seq<Assoc>, n: nat)
    requires PointsAscend(a)
    requires n > 0 && CoversPoints(Points(a), n)
    ensures StepsFrom(a, 0) && a != [] && a[|a| - 1].point == n - 1
  {
    var ps := Points(a);
    assert 0 in ps;
    assert (n - 1) in ps;
    forall k | 0 <= k < |a| - 1 ensures a[k].point <= a[k + 1].point <= a[k].point + 1 {
      var q := a[k].point + 1;
      assert a[k + 1].point in ps;
      if q < n {
        assert q in ps;
        var m :| 0 <= m < |a| && a[m].point == q;
        assert k < m;
      }
    }
  }

  /** The triangle components of p's associations ascend along a. */
  ghost predicate TrisAscendPerPoint(a: seq<Assoc>)
  {
    forall i, j :: 0 <= i < j < |a| && a[i].point == a[j].point ==> a[i].tri <= a[j].tri
  }

  predicate NatLess(x: nat, y: nat) { x < y }

  lemma {:induction false} IncidentAscending(a: seq<Assoc>, p: nat)
    requires TrisAscendPerPoint(a)
    ensures SortedBy(Incident(a, p), NatLess)
  {
    if a != [] {
      IncidentAscending(a[1..], p);
      var rest := Incident(a[1..], p);
      if a[0].point == p {
        forall y | y in rest ensures !NatLess(y, a[0].tri) {
          IncidentCount(a[1..], p, y);
          assert y in multiset(rest);
          assert Assoc(p, y) in a[1..];
          var m :| 0 <= m < |a[1..]| && a[1..][m] == Assoc(p, y);
          assert a[m + 1] == Assoc(p, y);
        }
        ConsSorted(a[0].tri, rest, NatLess);
      }
    }
  }

  /** Sorting keeps every point index of the buffer, and adds none. */
  lemma SortedAssociationsCover(pointIndices: seq<nat>, n: nat)
    requires |pointIndices| % 3 == 0 && CoversPoints(pointIndices, n)
    ensures CoversPoints(Points(SortAssociations(Associations(pointIndices))), n)
  {
    var a := Associations(pointIndices);
    var s := SortAssociations(a);
    AssociationsComponents(pointIndices);
    SortAssociationsPermutes(a);
    ComponentsPermutation(s, a);
    var ps := Points(s);
    assert Points(a) == pointIndices;
    forall p | 0 <= p < n ensures p in ps {
      assert p in pointIndices;
      assert p in multiset(Points(a));
    }
    forall k | 0 <= k < |ps| ensures ps[k] < n {
      assert ps[k] in multiset(Points(a));
    }
  }

  /** p's triangles, read from the sorted associations, are p's triangles in buffer order. */
  lemma SortedIncident(pointIndices: seq<nat>, p: nat)
    ensures Incident(SortAssociations(Associations(pointIndices)), p) == Incident(Associations(pointIndices), p)
  {
    var a := Associations(pointIndices);
    var s := SortAssociations(a);
    assert TrisAscendPerPoint(s) by {
      SortAssociationsSorted(a);
      forall i, j | 0 <= i < j < |s| && s[i].point == s[j].point ensures s[i].tri <= s[j].tri {
        assert !CompareUvec(s[j], s[i]);
      }
    }
    IncidentAscending(s, p);
    IncidentAscending(a, p);
    SortAssociationsPermutes(a);
    forall t ensures multiset(Incident(s, p))[t] == multiset(Incident(a, p))[t] {
      IncidentCount(s, p, t);
      IncidentCount(a, p, t);
    }
    assert multiset(Incident(s, p)) == multiset(Incident(a, p));
    SortedUnique(Incident(s, p), Incident(a, p), NatLess);
  }

  /**
   * generateGroups on the sorted associations of a hull buffer in which every
   * point index 0 .. n - 1 occurs: there are n groups and group p is the
   * ascending list of the triangles that have p as a corner (with
   * multiplicity), i.e. of the k / 3 with pointIndices[k] == p.
   */
  lemma GroupsAreIncidentTriangles(pointIndices: seq<nat>, n: nat)
    requires |pointIndices| % 3 == 0 && n > 0 && CoversPoints(pointIndices, n)
    ensures var gs := Groups(SortAssociations(Associations(pointIndices)));
      && |gs| == n
      && forall p :: 0 <= p < n ==> gs[p] == Incident(Associations(pointIndices), p)
  {
    var s := SortAssociations(Associations(pointIndices));
    SortedAssociationsCover(pointIndices, n);
    SortAssociationsSorted(Associations(pointIndices));
    SortedPointsAscend(s);
    SortedCoveringSteps(s, n);
    GroupsFromContiguous(s, 0, []);
    forall p | 0 <= p < n ensures Groups(s)[p] == Incident(Associations(pointIndices), p) {
      SortedIncident(pointIndices, p);
    }
  }

  /**
   * When a point index is skipped, the counter lags behind and one point's
   * triangles are spread over several groups: point 2's triangles 1 and 2
   * below end up in two groups of their own.
   */
  lemma GroupsSplitOnSkippedPoint()
    ensures Groups([Assoc(0, 0), Assoc(2, 1), Assoc(2, 2)]) == [[0], [1], [2]]
  {
    var a := [Assoc(0, 0), Assoc(2, 1), Assoc(2, 2)];
    var a1 := [Assoc(2, 1), Assoc(2, 2)];
    var a2 := [Assoc(2, 2)];
    assert a[1..] == a1 && a1[1..] == a2 && a2[1..] == [];
    var e: seq<nat> := [];
    assert e + [0] == [0];
    assert GroupsFrom(a2, 1, [1]) == [[1]] + GroupsFrom([], 2, [2]);
    assert GroupsFrom(a1, 0, [0]) == [[0]] + GroupsFrom(a2, 1, [1]);
    assert GroupsFrom(a, 0, e) == GroupsFrom(a1, 0, e + [0]);
  }

  /** With no associations there is still one (empty) group. */
  lemma GroupsOfNothing()
    ensures Groups([]) == [[]]
  {
  }

  // ---------------------------------------------------------------------------
  // Putting each group in rotational order (sortGroups)

  /** Every index of every group points into an array of length n. */
  predicate GroupsBelow(groups: seq<seq<nat>>, n: nat)
  {
    forall i :: 0 <= i < |groups| ==> AllBelow(groups[i], n)
  }

  /**
   * The polyVecs sortGroups builds for one group: the reference ("top") point
   * is the group's first vertex and the centre is the mean of its vertices.
   */
  function PolygonKeys(group: seq<nat>, vertices: seq<Vec3>, k: Kernel): (r: seq<PolyVec>)
    requires AllBelow(group, |vertices|)
    ensures |r| == |group|
    ensures forall j :: 0 <= j < |r| ==> r[j].idx == group[j]
    ensures forall j :: 0 <= j < |r| ==> (r[j].isTop <==> vertices[group[j]] == vertices[group[0]])
  {
    if group == [] then []
    else
      var polygon := Gather(group, vertices);
      var center := k.mean(polygon);
      seq(|group|, j requires 0 <= j < |group| => MakePolyVec(vertices[group[j]], center, polygon[0], group[j], k))
  }

  function IdxOf(v: PolyVec): nat { v.idx }

  /** The vertex indices of a sequence of polyVecs, in order. */
  function Indices(vs: seq<PolyVec>): seq<nat> { Map<PolyVec, nat>(IdxOf, vs) }

  /** One group after sortGroups: its indices, in the order the sorted polyVecs give. */
  function SortedGroup(group: seq<nat>, vertices: seq<Vec3>, k: Kernel): (r: seq<nat>)
    requires AllBelow(group, |vertices|)
    ensures |r| == |group|
  {
    Indices(Sort(PolygonKeys(group, vertices, k), Compare))
  }

  /** Sorting a group reorders its indices and changes none. */
  lemma SortedGroupPermutes(group: seq<nat>, vertices: seq<Vec3>, k: Kernel)
    requires AllBelow(group, |vertices|)
    ensures multiset(SortedGroup(group, vertices, k)) == multiset(group)
  {
    var keys := PolygonKeys(group, vertices, k);
    var sorted := Sort(keys, Compare);
    SortPermutes(keys, Compare);
    MapPermutation<PolyVec, nat>(IdxOf, sorted, keys);
    assert Indices(keys) == group;
  }

  /** No vertex of the group other than the first has the first one's coordinates. */
  predicate OnlyFirstAtTop(group: seq<nat>, vertices: seq<Vec3>)
    requires AllBelow(group, |vertices|)
  {
    |group| > 0 && forall j :: 0 < j < |group| ==> vertices[group[j]] != vertices[group[0]]
  }

  /** When only its head is a top key, every permutation has exactly that one top key. */
  lemma OneTopAfterSorting(keys: seq<PolyVec>, sorted: seq<PolyVec>)
    requires multiset(sorted) == multiset(keys)
    requires keys != [] && forall j :: 0 <= j < |keys| ==> (keys[j].isTop <==> j == 0)
    ensures AtMostOneTop(keys) && AtMostOneTop(sorted)
    ensures forall i :: 0 <= i < |sorted| && sorted[i].isTop ==> sorted[i] == keys[0]
    ensures keys[0] in sorted
  {
    forall i | 0 <= i < |sorted| && sorted[i].isTop ensures sorted[i] == keys[0] {
      assert sorted[i] in multiset(keys);
      var m :| 0 <= m < |keys| && keys[m] == sorted[i];
    }
    assert keys[0] in multiset(sorted);
    assert keys[0] !in keys[1..] by {
      forall m | 0 <= m < |keys[1..]| ensures keys[1..][m] != keys[0] {
        assert keys[1..][m] == keys[m + 1];
      }
    }
    HeadOnce(keys);
    forall i, j | 0 <= i < |sorted| && 0 <= j < |sorted| && i != j
      ensures !(sorted[i].isTop && sorted[j].isTop)
    {
      if sorted[i].isTop && sorted[j].isTop {
        if i < j {
          TwoPositions(sorted, i, j);
        } else {
          TwoPositions(sorted, j, i);
        }
      }
    }
  }

  /**
   * When no other vertex of a group shares the first vertex's coordinates, the
   * sorted polyVecs are in rotational order around the cell (top vertex, then
   * CCW by decreasing dot, then CW by increasing dot) and the sorted group
   * starts with the group's first index.
   */
  lemma SortedGroupIsRotational(group: seq<nat>, vertices: seq<Vec3>, k: Kernel)
    requires AllBelow(group, |vertices|) && OnlyFirstAtTop(group, vertices)
    ensures RotationalOrder(Sort(PolygonKeys(group, vertices, k), Compare))
    ensures SortedGroup(group, vertices, k)[0] == group[0]
  {
    var keys := PolygonKeys(group, vertices, k);
    var sorted := Sort(keys, Compare);
    SortPermutes(keys, Compare);
    OneTopAfterSorting(keys, sorted);
    CompareIsStrictOrder(keys);
    SortSorted(keys, Compare);
    var t :| 0 <= t < |sorted| && sorted[t] == keys[0];
    SortedIsRotational(sorted, t);
    assert Indices(sorted)[0] == sorted[0].idx;
  }

  /** sortGroups on all groups. */
  function SortedGroups(groups: seq<seq<nat>>, vertices: seq<Vec3>, k: Kernel): (r: seq<seq<nat>>)
    requires GroupsBelow(groups, |vertices|)
    ensures |r| == |groups|
    ensures GroupsBelow(r, |vertices|)
  {
    var r := seq(|groups|, i requires 0 <= i < |groups| => SortedGroup(groups[i], vertices, k));
    assert GroupsBelow(r, |vertices|) by {
      forall i, j | 0 <= i < |r| && 0 <= j < |r[i]| ensures r[i][j] < |vertices| {
        SortedGroupPermutes(groups[i], vertices, k);
        assert r[i][j] in multiset(groups[i]);
      }
    }
    r
  }

  /** Each group keeps its indices under sortGroups. */
  lemma SortedGroupsPermute(groups: seq<seq<nat>>, vertices: seq<Vec3>, k: Kernel)
    requires GroupsBelow(groups, |vertices|)
    ensures forall i :: 0 <= i < |groups| ==> multiset(SortedGroups(groups, vertices, k)[i]) == multiset(groups[i])
  {
    forall i | 0 <= i < |groups| ensures multiset(SortedGroups(groups, vertices, k)[i]) == multiset(groups[i]) {
      SortedGroupPermutes(groups[i], vertices, k);
    }
  }

  /** getCenters: the mean of each group's vertices. */
  function Centers(groups: seq<seq<nat>>, vertices: seq<Vec3>, k: Kernel): (r: seq<Vec3>)
    requires GroupsBelow(groups, |vertices|)
    ensures |r| == |groups|
  {
    seq(|groups|, i requires 0 <= i < |groups| => k.mean(Gather(groups[i], vertices)))
  }

  // ---------------------------------------------------------------------------
  // What the Voronoi object ends up holding

  /** The groups generateGroups produces for a hull index buffer. */
  function UnsortedGroups(pointIndices: seq<nat>): seq<seq<nat>>
  {
    Groups(SortAssociations(Associations(pointIndices)))
  }

  /** Every group refers to hull triangles only. */
  lemma {:induction false} UnsortedGroupsBelow(pointIndices: seq<nat>)
    requires |pointIndices| % 3 == 0
    ensures GroupsBelow(UnsortedGroups(pointIndices), |pointIndices| / 3)
  {
    var s := SortAssociations(Associations(pointIndices));
    var gs := Groups(s);
    forall i, j | 0 <= i < |gs| && 0 <= j < |gs[i]| ensures gs[i][j] < |pointIndices| / 3 {
      var t := gs[i][j];
      FlattenMember(gs, i, t);
      assert t in multiset(Tris(s));
      SortedAssociationsTriCount(pointIndices, t);
    }
  }

  /** The final groups: generateGroups, then sortGroups. */
  function CellGroups(pointIndices: seq<nat>, vertices: seq<Vec3>, k: Kernel): (r: seq<seq<nat>>)
    requires |pointIndices| % 3 == 0 && |vertices| == |pointIndices| / 3
    ensures GroupsBelow(r, |vertices|)
  {
    UnsortedGroupsBelow(pointIndices);
    SortedGroups(UnsortedGroups(pointIndices), vertices, k)
  }

  /** Each index below n occurs exactly three times across the groups, and no other index occurs. */
  ghost predicate OwnedThrice(groups: seq<seq<nat>>, n: nat)
  {
    forall v: nat :: multiset(Flatten<nat>(groups))[v] == if v < n then 3 else 0
  }

  /** sortGroups permutes the concatenation of the groups. */
  lemma SortedGroupsFlatten(groups: seq<seq<nat>>, vertices: seq<Vec3>, k: Kernel)
    requires GroupsBelow(groups, |vertices|)
    ensures multiset(Flatten<nat>(SortedGroups(groups, vertices, k))) == multiset(Flatten<nat>(groups))
  {
    SortedGroupsPermute(groups, vertices, k);
    FlattenPermutation<nat>(SortedGroups(groups, vertices, k), groups);
  }

  /**
   * Across all final groups, each dual vertex (one per hull triangle) occurs
   * exactly three times and no other index occurs.
   */
  lemma DualVertexOwnedThrice(pointIndices: seq<nat>, vertices: seq<Vec3>, k: Kernel, t: nat)
    requires |pointIndices| % 3 == 0 && |vertices| == |pointIndices| / 3
    ensures multiset(Flatten<nat>(CellGroups(pointIndices, vertices, k)))[t] == if t < |vertices| then 3 else 0
  {
    UnsortedGroupsBelow(pointIndices);
    SortedGroupsFlatten(UnsortedGroups(pointIndices), vertices, k);
    SortedAssociationsTriCount(pointIndices, t);
  }

  /** Hence the final groups give every dual vertex exactly three cells. */
  lemma CellGroupsOwnedThrice(pointIndices: seq<nat>, vertices: seq<Vec3>, k: Kernel)
    requires |pointIndices| % 3 == 0 && |vertices| == |pointIndices| / 3
    ensures OwnedThrice(CellGroups(pointIndices, vertices, k), |vertices|)
  {
    forall t: nat ensures multiset(Flatten<nat>(CellGroups(pointIndices, vertices, k)))[t] == if t < |vertices| then 3 else 0 {
      DualVertexOwnedThrice(pointIndices, vertices, k, t);
    }
  }

  /** Point p has triangle t in its list exactly when p is one of t's three corners. */
  lemma IncidentIsCorner(pointIndices: seq<nat>, p: nat, t: nat)
    requires |pointIndices| % 3 == 0 && t < |pointIndices| / 3
    ensures t in Incident(Associations(pointIndices), p) <==>
      (pointIndices[3 * t] == p || pointIndices[3 * t + 1] == p || pointIndices[3 * t + 2] == p)
  {
    var a := Associations(pointIndices);
    IncidentCount(a, p, t);
    assert t in Incident(a, p) <==> Assoc(p, t) in a by {
      assert t in Incident(a, p) <==> t in multiset(Incident(a, p));
      assert Assoc(p, t) in a <==> Assoc(p, t) in multiset(a);
    }
    if Assoc(p, t) in a {
      var k :| 0 <= k < |a| && a[k] == Assoc(p, t);
      assert 3 * t <= k < 3 * t + 3;
      assert k == 3 * t || k == 3 * t + 1 || k == 3 * t + 2;
    }
    assert (3 * t + 1) / 3 == t && (3 * t + 2) / 3 == t;
    assert a[3 * t] == Assoc(pointIndices[3 * t], t);
    assert a[3 * t + 1] == Assoc(pointIndices[3 * t + 1], t);
    assert a[3 * t + 2] == Assoc(pointIndices[3 * t + 2], t);
  }

  /**
   * When every point index 0 .. n - 1 occurs in the buffer, the final groups
   * that hold dual vertex t are exactly those of the three corners of hull
   * triangle t.
   */
  lemma CellsOfDualVertex(pointIndices: seq<nat>, n: nat, vertices: seq<Vec3>, k: Kernel, t: nat)
    requires |pointIndices| % 3 == 0 && |vertices| == |pointIndices| / 3
    requires n > 0 && CoversPoints(pointIndices, n) && t < |vertices|
    ensures var gs := CellGroups(pointIndices, vertices, k);
      && |gs| == n
      && (set p | 0 <= p < n && t in gs[p]) == {pointIndices[3 * t], pointIndices[3 * t + 1], pointIndices[3 * t + 2]}
  {
    var gs := CellGroups(pointIndices, vertices, k);
    var us := UnsortedGroups(pointIndices);
    GroupsAreIncidentTriangles(pointIndices, n);
    UnsortedGroupsBelow(pointIndices);
    SortedGroupsPermute(us, vertices, k);
    forall p | 0 <= p < n
      ensures t in gs[p] <==> (pointIndices[3 * t] == p || pointIndices[3 * t + 1] == p || pointIndices[3 * t + 2] == p)
    {
      assert t in gs[p] <==> t in multiset(gs[p]);
      assert t in us[p] <==> t in multiset(us[p]);
      IncidentIsCorner(pointIndices, p, t);
    }
    assert pointIndices[3 * t] < n && pointIndices[3 * t + 1] < n && pointIndices[3 * t + 2] < n;
  }

  /** A hull triangle with three distinct corners puts its dual vertex into exactly three distinct cells. */
  lemma DualVertexInThreeCells(pointIndices: seq<nat>, n: nat, vertices: seq<Vec3>, k: Kernel, t: nat)
    requires |pointIndices| % 3 == 0 && |vertices| == |pointIndices| / 3
    requires n > 0 && CoversPoints(pointIndices, n) && t < |vertices|
    requires pointIndices[3 * t] != pointIndices[3 * t + 1]
    requires pointIndices[3 * t + 1] != pointIndices[3 * t + 2]
    requires pointIndices[3 * t + 2] != pointIndices[3 * t]
    ensures var gs := CellGroups(pointIndices, vertices, k);
      |gs| == n && |set p | 0 <= p < n && t in gs[p]| == 3
  {
    CellsOfDualVertex(pointIndices, n, vertices, k, t);
    var c0, c1, c2 := pointIndices[3 * t], pointIndices[3 * t + 1], pointIndices[3 * t + 2];
    assert |{c0, c1, c2}| == 3 by {
      assert {c0, c1, c2} == {c0} + {c1} + {c2};
      assert |{c0} + {c1}| == 2;
    }
  }

  // ---------------------------------------------------------------------------
  // Hull wireframe

  /** The wireframe of one triangle: (a, b), (b, c), then (c, a). */
  function TriEdges(t: Tri): seq<Edge>
  {
    [Edge(t.a, t.b), Edge(t.b, t.c), Edge(t.c, t.a)]
  }

  /** The three edges of every triangle, triangle by triangle. */
  function HullEdges(tris: seq<Tri>): (r: seq<Edge>)
    ensures |r| == 3 * |tris|
    decreases |tris|
  {
    if tris == [] then [] else HullEdges(tris[..|tris| - 1]) + TriEdges(tris[|tris| - 1])
  }

  /** Edges 3i, 3i + 1 and 3i + 2 are triangle i's wireframe. */
  lemma {:induction false} HullEdgesAt(tris: seq<Tri>, i: nat)
    requires i < |tris|
    ensures HullEdges(tris)[3 * i] == Edge(tris[i].a, tris[i].b)
    ensures HullEdges(tris)[3 * i + 1] == Edge(tris[i].b, tris[i].c)
    ensures HullEdges(tris)[3 * i + 2] == Edge(tris[i].c, tris[i].a)
    decreases |tris|
  {
    var pre := tris[..|tris| - 1];
    if i < |tris| - 1 {
      HullEdgesAt(pre, i);
      assert pre[i] == tris[i];
    }
  }

  /** Wireframe edges join corners of the hull only. */
  lemma HullEdgesBelow(tris: seq<Tri>, n: nat)
    requires TrisBelow(tris, n)
    ensures forall e :: e in HullEdges(tris) ==> e.a < n && e.b < n
  {
    var r := HullEdges(tris);
    forall e | e in r ensures e.a < n && e.b < n {
      var j :| 0 <= j < |r| && r[j] == e;
      var i := j / 3;
      assert j == 3 * i || j == 3 * i + 1 || j == 3 * i + 2;
      HullEdgesAt(tris, i);
      assert TriBelow(tris[i], n);
    }
  }

  // ---------------------------------------------------------------------------
  // The loops of the constructor that build local vectors

  /** tri_indices: i pushed three times for every triangle i. */
  method BuildTriIndices(triCount: nat) returns (triIndices: seq<nat>)
    ensures triIndices == TriIndexSeq(triCount)
  {
    triIndices := [];
    var i := 0;
    while i < triCount
      invariant 0 <= i <= triCount
      invariant triIndices == TriIndexSeq(i)
    {
      TriIndexSeqStep(i);
      triIndices := triIndices + [i];
      triIndices := triIndices + [i];
      triIndices := triIndices + [i];
      i := i + 1;
    }
  }

  /** Two sequences of associations with the same components are equal. */
  lemma SameComponents(r: seq<Assoc>, a: seq<Assoc>)
    requires Points(r) == Points(a) && Tris(r) == Tris(a)
    ensures r == a
  {
    assert |r| == |Points(r)| == |a|;
    forall j | 0 <= j < |r| ensures r[j] == a[j] {
      assert Points(r)[j] == r[j].point && Tris(r)[j] == r[j].tri;
    }
  }

  /**
   * array_associations: the point index and triangle index at each position,
   * paired up; reading both components back gives the two inputs again.
   */
  method BuildAssociations(pointIndices: seq<nat>, triIndices: seq<nat>) returns (assocs: seq<Assoc>)
    requires |triIndices| <= |pointIndices|
    ensures Points(assocs) == pointIndices[..|triIndices|]
    ensures Tris(assocs) == triIndices
  {
    assocs := [];
    var i := 0;
    while i < |triIndices|
      invariant 0 <= i <= |triIndices|
      invariant Points(assocs) == pointIndices[..i]
      invariant Tris(assocs) == triIndices[..i]
    {
      MapAppend<Assoc, nat>(PointOf, assocs, [Assoc(pointIndices[i], triIndices[i])]);
      MapAppend<Assoc, nat>(TriOf, assocs, [Assoc(pointIndices[i], triIndices[i])]);
      assert pointIndices[..i + 1] == pointIndices[..i] + [pointIndices[i]];
      assert triIndices[..i + 1] == triIndices[..i] + [triIndices[i]];
      assocs := assocs + [Assoc(pointIndices[i], triIndices[i])];
      i := i + 1;
    }
    assert triIndices[..i] == triIndices;
  }

  /** The associations the constructor builds are those of the index buffer. */
  lemma BuiltAssociations(pointIndices: seq<nat>, assocs: seq<Assoc>)
    requires |pointIndices| % 3 == 0
    requires Points(assocs) == pointIndices[..|TriIndexSeq(|pointIndices| / 3)|]
    requires Tris(assocs) == TriIndexSeq(|pointIndices| / 3)
    ensures assocs == Associations(pointIndices)
  {
    assert pointIndices[..|pointIndices|] == pointIndices;
    AssociationsComponents(pointIndices);
    SameComponents(assocs, Associations(pointIndices));
  }

  // ---------------------------------------------------------------------------
  // The Voronoi object

  class Voronoi {
    /** The dual (Voronoi) vertices, one per hull triangle. */
    var vertices: seq<Vec3>
    /** One group of vertex indices per Voronoi cell. */
    var groups: seq<seq<nat>>
    /** The hull triangles. */
    var triSimplices: seq<Tri>

    /** Every group refers to existing vertices. */
    ghost predicate Valid()
      reads this
    {
      GroupsBelow(groups, |vertices|)
    }

    /**
     * Voronoi(points), with the hull builder's index buffer given: the
     * cell groups are generateGroups then sortGroups on the sorted
     * associations of the buffer.
     */
    constructor (points: seq<Vec3>, pointIndices: seq<nat>, k: Kernel)
      requires |pointIndices| % 3 == 0 && AllBelow(pointIndices, |points|)
      ensures triSimplices == TriSimplices(pointIndices) && TrisBelow(triSimplices, |points|)
      ensures vertices == DualVertices(points, triSimplices, k)
      ensures |vertices| == |pointIndices| / 3
      ensures groups == CellGroups(pointIndices, vertices, k)
      ensures Valid() && OwnedThrice(groups, |vertices|)
    {
      vertices := [];
      groups := [];
      triSimplices := [];
      new;
      GetTriSimplices(pointIndices);
      TriSimplicesBelow(pointIndices, |points|);
      GenerateVertices(points, k);
      var triIndices := BuildTriIndices(|triSimplices|);
      var assocs := BuildAssociations(pointIndices, triIndices);
      BuiltAssociations(pointIndices, assocs);
      var sorted := SortAssociations(assocs);
      GenerateGroups(sorted);
      UnsortedGroupsBelow(pointIndices);
      SortGroups(k);
      CellGroupsOwnedThrice(pointIndices, vertices, k);
    }

    /** getTriSimplices: appends one triangle per three buffer entries. */
    method GetTriSimplices(pointIndices: seq<nat>)
      requires |pointIndices| % 3 == 0
      modifies this
      ensures triSimplices == old(triSimplices) + TriSimplices(pointIndices)
      ensures vertices == old(vertices) && groups == old(groups)
    {
      ghost var all := TriSimplices(pointIndices);
      TriSimplicesAt(pointIndices);
      var i := 0;
      while i < |pointIndices|
        invariant 0 <= i <= |pointIndices| && i % 3 == 0
        invariant triSimplices == old(triSimplices) + all[..i / 3]
        invariant vertices == old(vertices) && groups == old(groups)
      {
        assert all[i / 3] == Tri(pointIndices[i], pointIndices[i + 1], pointIndices[i + 2]) by {
          assert 3 * (i / 3) == i;
        }
        assert all[..i / 3 + 1] == all[..i / 3] + [all[i / 3]];
        triSimplices := triSimplices + [Tri(pointIndices[i], pointIndices[i + 1], pointIndices[i + 2])];
        i := i + 3;
      }
      assert all[..i / 3] == all;
    }

    /** generateVertices: appends one dual vertex per hull triangle, in triangle order. */
    method GenerateVertices(points: seq<Vec3>, k: Kernel)
      requires TrisBelow(triSimplices, |points|)
      modifies this
      ensures triSimplices == old(triSimplices) && groups == old(groups)
      ensures vertices == old(vertices) + DualVertices(points, triSimplices, k)
    {
      ghost var all := DualVertices(points, triSimplices, k);
      var i := 0;
      while i < |triSimplices|
        invariant triSimplices == old(triSimplices) && groups == old(groups)
        invariant 0 <= i <= |triSimplices|
        invariant vertices == old(vertices) + all[..i]
      {
        var t := triSimplices[i];
        assert TriBelow(t, |points|);
        assert all[..i + 1] == all[..i] + [all[i]];
        vertices := vertices + [k.circumcenter(points[t.a], points[t.b], points[t.c])];
        i := i + 1;
      }
      assert all[..i] == all;
    }

    /**
     * generateGroups: a new group starts whenever the association's point
     * index differs from the group counter, which then goes up by one.
     */
    method GenerateGroups(assocs: seq<Assoc>)
      modifies this
      ensures groups == old(groups) + Groups(assocs)
      ensures vertices == old(vertices) && triSimplices == old(triSimplices)
    {
      var curGroupIdx: nat := 0;
      var curGroup: seq<nat> := [];
      var i := 0;
      while i < |assocs|
        invariant 0 <= i <= |assocs|
        invariant groups + GroupsFrom(assocs[i..], curGroupIdx, curGroup) == old(groups) + Groups(assocs)
        invariant vertices == old(vertices) && triSimplices == old(triSimplices)
      {
        var assoc := assocs[i];
        assert assocs[i..][1..] == assocs[i + 1..];
        if assoc.point != curGroupIdx {
          assert GroupsFrom(assocs[i..], curGroupIdx, curGroup)
              == [curGroup] + GroupsFrom(assocs[i + 1..], curGroupIdx + 1, [assoc.tri]);
          assert groups + [curGroup] + GroupsFrom(assocs[i + 1..], curGroupIdx + 1, [assoc.tri])
              == groups + ([curGroup] + GroupsFrom(assocs[i + 1..], curGroupIdx + 1, [assoc.tri]));
          groups := groups + [curGroup];
          curGroup := [];
          assert curGroup + [assoc.tri] == [assoc.tri];
          curGroupIdx := curGroupIdx + 1;
        } else {
          assert GroupsFrom(assocs[i..], curGroupIdx, curGroup)
              == GroupsFrom(assocs[i + 1..], curGroupIdx, curGroup + [assoc.tri]);
        }
        curGroup := curGroup + [assoc.tri];
        i := i + 1;
      }
      groups := groups + [curGroup];
    }

    /** The vertices of one group, in group order. */
    method PolygonVertices(group: seq<nat>) returns (polygon: seq<Vec3>)
      requires AllBelow(group, |vertices|)
      ensures polygon == Gather(group, vertices)
    {
      polygon := [];
      var i := 0;
      while i < |group|
        invariant 0 <= i <= |group|
        invariant polygon == Gather(group, vertices)[..i]
      {
        polygon := polygon + [vertices[group[i]]];
        i := i + 1;
      }
    }

    /** The body of the loop in sortGroups, for one group. */
    method SortPolygon(group: seq<nat>, k: Kernel) returns (sortedIndices: seq<nat>)
      requires AllBelow(group, |vertices|)
      ensures sortedIndices == SortedGroup(group, vertices, k)
    {
      var polygon := PolygonVertices(group);
      var center := k.mean(polygon);
      ghost var keys := PolygonKeys(group, vertices, k);
      var polyVecs: seq<PolyVec> := [];
      var i := 0;
      while i < |group|
        invariant 0 <= i <= |group|
        invariant polyVecs == keys[..i]
      {
        polyVecs := polyVecs + [MakePolyVec(vertices[group[i]], center, polygon[0], group[i], k)];
        i := i + 1;
      }
      assert polyVecs == keys;
      var sorted := Sort(polyVecs, Compare);
      sortedIndices := [];
      var j := 0;
      while j < |sorted|
        invariant 0 <= j <= |sorted|
        invariant sortedIndices == Indices(sorted)[..j]
      {
        sortedIndices := sortedIndices + [sorted[j].idx];
        j := j + 1;
      }
    }

    /** sortGroups: every group is replaced by its rotationally sorted version. */
    method SortGroups(k: Kernel)
      requires Valid()
      modifies this
      ensures vertices == old(vertices) && triSimplices == old(triSimplices)
      ensures groups == SortedGroups(old(groups), vertices, k)
      ensures Valid()
    {
      ghost var all := SortedGroups(groups, vertices, k);
      var newGroups: seq<seq<nat>> := [];
      var i := 0;
      while i < |groups|
        invariant groups == old(groups) && vertices == old(vertices) && triSimplices == old(triSimplices)
        invariant 0 <= i <= |groups|
        invariant newGroups == all[..i]
      {
        var sortedIndices := SortPolygon(groups[i], k);
        newGroups := newGroups + [sortedIndices];
        i := i + 1;
      }
      groups := newGroups;
    }

    /** getCenters: one centre per group. */
    method GetCenters(k: Kernel) returns (centers: seq<Vec3>)
      requires Valid()
      ensures centers == Centers(groups, vertices, k)
    {
      centers := [];
      var i := 0;
      while i < |groups|
        invariant 0 <= i <= |groups|
        invariant centers == Centers(groups, vertices, k)[..i]
      {
        var polygon := PolygonVertices(groups[i]);
        centers := centers + [k.mean(polygon)];
        i := i + 1;
      }
    }

    /** getHullIndices: three wireframe edges per triangle appended after what indices held. */
    method GetHullIndices(indices: seq<Edge>) returns (result: seq<Edge>)
      ensures result == indices + HullEdges(triSimplices)
    {
      result := indices;
      var i := 0;
      while i < |triSimplices|
        invariant 0 <= i <= |triSimplices|
        invariant result == indices + HullEdges(triSimplices[..i])
      {
        var t := triSimplices[i];
        assert triSimplices[..i + 1][..i] == triSimplices[..i];
        result := result + [Edge(t.a, t.b)];
        result := result + [Edge(t.b, t.c)];
        result := result + [Edge(t.c, t.a)];
        i := i + 1;
      }
      assert triSimplices[..i] == triSimplices;
    }

    /** getHullFaces: the faces become the hull triangles, whatever they held before. */
    method GetHullFaces() returns (faces: seq<Tri>)
      ensures faces == triSimplices
    {
      faces := triSimplices;
    }

    /** getVerticesGroups: copies of the dual vertices and the cell groups. */
    method GetVerticesGroups() returns (vs: seq<Vec3>, gs: seq<seq<nat>>)
      ensures vs == vertices && gs == groups
    {
      vs := vertices;
      gs := groups;
    }
  }
}
