/**
 * The ordering of a Voronoi cell's vertices around the cell (struct polyVec in
 * src/voronoi.h). The geometric part of the key, what setCCW_dot computes,
 * comes from the uninterpreted Kernel.orientation; the comparator's logic over
 * that key is modelled exactly.
 */
module PolyOrder {
  import opened Geometry
  import opened Sorting

  /**
   * A polyVec with its key already computed: whether its point equals the
   * reference ("top") point, whether it lies counter-clockwise of the
   * reference, the dot product of the two directions, and the vertex index.
   */
  datatype PolyVec = PolyVec(isTop: bool, ccw: bool, dot: real, idx: nat)

  /** polyVec(pt, cen, tp, index) together with the key setCCW_dot produces. */
  function MakePolyVec(point: Vec3, center: Vec3, top: Vec3, idx: nat, k: Kernel): (v: PolyVec)
    ensures v.isTop <==> point == top
    ensures v.idx == idx
  {
    var key := k.orientation(point, center, top);
    PolyVec(point == top, key.0, key.1, idx)
  }

  /** polyVec::compare: does v1 go before v2? */
  predicate Compare(v1: PolyVec, v2: PolyVec)
  {
    if v1.isTop then true
    else if v2.isTop then false
    else if v1.ccw && v2.ccw then v1.dot > v2.dot
    else if v1.ccw then true
    else if v2.ccw then false
    else v1.dot < v2.dot
  }

  // An independent statement of the same order: classes top < CCW < CW, and
  // inside a class the signed dot product (negated for CCW) in increasing order.

  function Class(v: PolyVec): nat
  {
    if v.isTop then 0 else if v.ccw then 1 else 2
  }

  function SignedDot(v: PolyVec): real
  {
    if v.ccw then -v.dot else v.dot
  }

  predicate RankLess(v1: PolyVec, v2: PolyVec)
  {
    Class(v1) < Class(v2) || (Class(v1) == Class(v2) && Class(v1) > 0 && SignedDot(v1) < SignedDot(v2))
  }

  /** Except between two top vertices, compare is the class-then-signed-dot order. */
  lemma CompareIsRankOrder(v1: PolyVec, v2: PolyVec)
    requires !(v1.isTop && v2.isTop)
    ensures Compare(v1, v2) <==> RankLess(v1, v2)
  {
  }

  /** The top vertex goes before every other vertex... */
  lemma TopFirst(top: PolyVec, v: PolyVec)
    requires top.isTop
    ensures Compare(top, v)
    ensures !v.isTop ==> !Compare(v, top)
  {
  }

  /** ...but also before itself: compare is not irreflexive on a top vertex. */
  lemma TopBeforeItself(top: PolyVec)
    requires top.isTop
    ensures Compare(top, top)
  {
  }

  /** Among non-top vertices, CCW before CW, CCW by decreasing dot, CW by increasing dot. */
  lemma NonTopOrder(v1: PolyVec, v2: PolyVec)
    requires !v1.isTop && !v2.isTop
    ensures v1.ccw && !v2.ccw ==> Compare(v1, v2) && !Compare(v2, v1)
    ensures v1.ccw && v2.ccw ==> (Compare(v1, v2) <==> v1.dot > v2.dot)
    ensures !v1.ccw && !v2.ccw ==> (Compare(v1, v2) <==> v1.dot < v2.dot)
    ensures !Compare(v1, v1)
  {
  }

  lemma CompareTransitive(a: PolyVec, b: PolyVec, c: PolyVec)
    requires Compare(a, b) && Compare(b, c)
    ensures Compare(a, c)
  {
  }

  /** At most one element of the sequence is a top vertex. */
  ghost predicate AtMostOneTop(vs: seq<PolyVec>)
  {
    forall i, j :: 0 <= i < |vs| && 0 <= j < |vs| && i != j ==> !(vs[i].isTop && vs[j].isTop)
  }

  /** With at most one top vertex, compare is an order std::sort can work with. */
  lemma {:induction false} CompareIsStrictOrder(vs: seq<PolyVec>)
    requires AtMostOneTop(vs)
    ensures StrictOrderOn(vs, Compare)
  {
    forall i, j | 0 <= i < |vs| && 0 <= j < |vs| && i != j
      ensures !(Compare(vs[i], vs[j]) && Compare(vs[j], vs[i]))
    {
      if !vs[i].isTop && !vs[j].isTop {
        NonTopOrder(vs[i], vs[j]);
      }
    }
    forall a, b, c | a in vs && b in vs && c in vs && Compare(a, b) && Compare(b, c)
      ensures Compare(a, c)
    {
      CompareTransitive(a, b, c);
    }
  }

  /**
   * What a sorted cell boundary looks like: the top vertex first, then the
   * CCW vertices by decreasing dot, then the CW vertices by increasing dot.
   */
  ghost predicate RotationalOrder(vs: seq<PolyVec>)
  {
    && |vs| > 0 && vs[0].isTop
    && (forall i :: 0 < i < |vs| ==> !vs[i].isTop)
    && (forall i, j :: 0 < i < j < |vs| && vs[j].ccw ==> vs[i].ccw)
    && (forall i, j :: 0 < i < j < |vs| && vs[i].ccw && vs[j].ccw ==> vs[i].dot >= vs[j].dot)
    && (forall i, j :: 0 < i < j < |vs| && !vs[i].ccw && !vs[j].ccw ==> vs[i].dot <= vs[j].dot)
  }

  /** Any sequence sorted by compare that holds exactly one top vertex is in rotational order. */
  lemma {:induction false} SortedIsRotational(vs: seq<PolyVec>, t: nat)
    requires t < |vs| && vs[t].isTop
    requires AtMostOneTop(vs)
    requires SortedBy(vs, Compare)
    ensures RotationalOrder(vs)
  {
    assert t == 0 || !Compare(vs[t], vs[0]);
    forall i | 0 < i < |vs| ensures !vs[i].isTop {
      assert i != 0;
    }
    forall i, j | 0 < i < j < |vs| ensures !Compare(vs[j], vs[i]) && !vs[i].isTop && !vs[j].isTop {
    }
  }
}
