/**
 * The region and mesh assembly of src/mesh.cc: every non-empty Voronoi group
 * becomes a Region that appends its centre to the shared vertex array, the
 * regions get an elevation multiplier from the noise function, every vertex is
 * scaled by the mean multiplier of the regions that own it, and every region
 * is fanned into lines and triangles around its centre.
 *
 * Regions are modelled as objects that remember their indices and their
 * centre's index; the vertex array they point to in the source is the Mesh's
 * vertex sequence, which the Region constructor appends to.
 */
module Mesh {
  import opened Geometry
  import opened Config
  import opened Seqs
  import opened Voronoi

  // ---------------------------------------------------------------------------
  // Value-level view of the regions

  /** What a Region holds that does not change after construction. */
  datatype Cell = Cell(indices: seq<nat>, center: nat)

  /** make_regions' filter: the non-empty groups, in order. */
  function NonEmpty(groups: seq<seq<nat>>): (r: seq<seq<nat>>)
    ensures forall i :: 0 <= i < |r| ==> |r[i]| > 0
    ensures forall i :: 0 <= i < |r| ==> r[i] in groups
    ensures |r| <= |groups|
    decreases |groups|
  {
    if groups == [] then []
    else
      var init, last := groups[..|groups| - 1], groups[|groups| - 1];
      NonEmpty(init) + (if |last| > 0 then [last] else [])
  }

  /** The filter drops nothing but empty groups. */
  lemma {:induction false} NonEmptyKeeps(groups: seq<seq<nat>>)
    ensures Flatten<nat>(NonEmpty(groups)) == Flatten<nat>(groups)
    decreases |groups|
  {
    if groups != [] {
      var init, last := groups[..|groups| - 1], groups[|groups| - 1];
      NonEmptyKeeps(init);
      assert groups == init + [last];
      FlattenAppend<nat>(init, [last]);
      FlattenAppend<nat>(NonEmpty(init), if |last| > 0 then [last] else []);
      FlattenCons<nat>(last, []);
    }
  }

  /** The cells make_regions creates from the non-empty groups, centres numbered from start. */
  function CellsOf(groups: seq<seq<nat>>, start: nat): (r: seq<Cell>)
    ensures |r| == |groups|
    ensures forall i :: 0 <= i < |r| ==> r[i].indices == groups[i] && r[i].center == start + i
  {
    seq(|groups|, i requires 0 <= i < |groups| => Cell(groups[i], start + i))
  }

  /** How often v occurs in s, counted from the front. */
  function Count(s: seq<nat>, v: nat): nat
    decreases |s|
  {
    if s == [] then 0 else Count(s[..|s| - 1], v) + if s[|s| - 1] == v then 1 else 0
  }

  /** Count is the multiplicity of v in the multiset of s. */
  lemma {:induction false} CountIsMultiplicity(s: seq<nat>, v: nat)
    ensures Count(s, v) == multiset(s)[v]
    decreases |s|
  {
    if s != [] {
      var n := |s| - 1;
      CountIsMultiplicity(s[..n], v);
      assert s == s[..n] + [s[n]];
    }
  }

  /** Extending a prefix by one element adds one occurrence of that element only. */
  lemma CountStep(s: seq<nat>, i: nat)
    requires i < |s|
    ensures forall v :: Count(s[..i + 1], v) == Count(s[..i], v) + if v == s[i] then 1 else 0
  {
    assert s[..i + 1][..i] == s[..i];
  }

  /** How often update_affected counts vertex v for one region. */
  function Occurrences(c: Cell, v: nat): nat
  {
    Count(c.indices, v) + if v == c.center then 1 else 0
  }

  /** owned_regions[v] after update_affected has run for every cell, in order. */
  function OwnerCount(cells: seq<Cell>, v: nat): nat
    decreases |cells|
  {
    if cells == [] then 0
    else OwnerCount(cells[..|cells| - 1], v) + Occurrences(cells[|cells| - 1], v)
  }

  /** m added c times to 0, as update_affected's float accumulation does. */
  function Repeated(c: nat, m: real): real
  {
    if c == 0 then 0.0 else Repeated(c - 1, m) + m
  }

  /** multipliers[v] after update_affected, cell i contributing ms[i] per occurrence. */
  function MultiplierSum(cells: seq<Cell>, ms: seq<real>, v: nat): real
    requires |ms| == |cells|
    decreases |cells|
  {
    if cells == [] then 0.0
    else
      var n := |cells| - 1;
      MultiplierSum(cells[..n], ms[..n], v) + Repeated(Occurrences(cells[n], v), ms[n])
  }

  /**
   * Counting over the cells of make_regions: a vertex is owned once per
   * occurrence in the groups, plus once if it is one of the new centres.
   */
  lemma {:induction false} OwnerCountOfCells(groups: seq<seq<nat>>, start: nat, v: nat)
    ensures OwnerCount(CellsOf(groups, start), v)
         == multiset(Flatten<nat>(groups))[v] + if start <= v < start + |groups| then 1 else 0
    decreases |groups|
  {
    if groups != [] {
      var n := |groups| - 1;
      var cells := CellsOf(groups, start);
      assert cells[..n] == CellsOf(groups[..n], start);
      OwnerCountOfCells(groups[..n], start, v);
      assert OwnerCount(cells, v) == OwnerCount(cells[..n], v) + Occurrences(cells[n], v);
      assert groups == groups[..n] + [groups[n]];
      FlattenAppend<nat>(groups[..n], [groups[n]]);
      FlattenCons<nat>(groups[n], []);
      CountIsMultiplicity(groups[n], v);
      assert multiset(Flatten<nat>(groups))[v] == multiset(Flatten<nat>(groups[..n]))[v] + multiset(groups[n])[v];
    }
  }

  /**
   * When every dual vertex lies in exactly three groups, as the groups of a
   * hull do (OwnedThrice), every dual vertex is owned by exactly three regions
   * and every centre by exactly one, so the division in elevation_sim never
   * divides by zero.
   */
  lemma CellOwnership(groups: seq<seq<nat>>, n: nat, v: nat)
    requires OwnedThrice(groups, n)
    ensures var cells := CellsOf(NonEmpty(groups), n);
      OwnerCount(cells, v) == if v < n then 3 else if v < n + |cells| then 1 else 0
  {
    NonEmptyKeeps(groups);
    OwnerCountOfCells(NonEmpty(groups), n, v);
  }

  /** Hence every vertex of the mesh, dual vertex or centre, has an owner. */
  lemma CellsAllOwned(groups: seq<seq<nat>>, n: nat)
    requires OwnedThrice(groups, n)
    ensures var ne := NonEmpty(groups);
      AllOwned(CellsOf(ne, n), n + |ne|)
  {
    var ne := NonEmpty(groups);
    forall v | 0 <= v < n + |ne| ensures OwnerCount(CellsOf(ne, n), v) > 0 {
      CellOwnership(groups, n, v);
    }
  }

  /** Multipliers within plus or minus 10% (what MultiplierBounds gives). */
  predicate InRange(m: real)
  {
    0.9 <= m <= 1.1
  }

  /**
   * The factor a vertex is scaled by is the mean of its owners' multipliers,
   * so it stays within the multipliers' bounds.
   */
  lemma {:induction false} MultiplierSumBounds(cells: seq<Cell>, ms: seq<real>, v: nat)
    requires |ms| == |cells|
    requires forall i :: 0 <= i < |ms| ==> InRange(ms[i])
    ensures 0.9 * (OwnerCount(cells, v) as real) <= MultiplierSum(cells, ms, v)
    ensures MultiplierSum(cells, ms, v) <= 1.1 * (OwnerCount(cells, v) as real)
    decreases |cells|
  {
    if cells != [] {
      var n := |cells| - 1;
      MultiplierSumBounds(cells[..n], ms[..n], v);
      RepeatedBounds(Occurrences(cells[n], v), ms[n]);
    }
  }

  /** c copies of a multiplier within plus or minus 10% add up to within 10% of c. */
  lemma {:induction false} RepeatedBounds(c: nat, m: real)
    requires InRange(m)
    ensures 0.9 * (c as real) <= Repeated(c, m) <= 1.1 * (c as real)
  {
    if c > 0 {
      RepeatedBounds(c - 1, m);
    }
  }

  /** The scaling factor of elevation_sim for vertex v. */
  function ScaleFactor(cells: seq<Cell>, ms: seq<real>, v: nat): real
    requires |ms| == |cells| && OwnerCount(cells, v) > 0
  {
    MultiplierSum(cells, ms, v) / OwnerCount(cells, v) as real
  }

  /** With every multiplier within plus or minus 10%, so is every vertex's scaling factor. */
  lemma ScaleFactorBounds(cells: seq<Cell>, ms: seq<real>, v: nat)
    requires |ms| == |cells| && OwnerCount(cells, v) > 0
    requires forall i :: 0 <= i < |ms| ==> InRange(ms[i])
    ensures InRange(ScaleFactor(cells, ms, v))
  {
    MultiplierSumBounds(cells, ms, v);
    DivBounds(MultiplierSum(cells, ms, v), OwnerCount(cells, v) as real);
  }

  lemma DivBounds(s: real, c: real)
    requires c > 0.0 && 0.9 * c <= s <= 1.1 * c
    ensures InRange(s / c)
  {
    var f := s / c;
    assert f * c == s;
  }

  // ---------------------------------------------------------------------------
  // Elevation

  /** set_elevation's multiplier for a noise value: 1 + noise / elevation_divisor. */
  function ElevationMultiplier(noise: real): real
  {
    1.0 + noise / ElevationDivisor
  }

  /** Noise in [-1, 1] gives a multiplier in [0.9, 1.1], i.e. plus or minus 10%. */
  lemma MultiplierBounds(noise: real)
    requires -1.0 <= noise <= 1.0
    ensures InRange(ElevationMultiplier(noise))
  {
  }

  /** The noise sampled at a point, with the elevation parameters and 24 octaves. */
  function NoiseAt(k: Kernel, seed: nat, p: Vec3): real
  {
    k.fractal(ElevationNoise(seed), ElevationOctaves, p.x, p.y, p.z)
  }

  /** The noise function's values lie in [-1, 1]. */
  ghost predicate NoiseBounded(k: Kernel)
  {
    forall params, octaves, x, y, z :: -1.0 <= k.fractal(params, octaves, x, y, z) <= 1.0
  }

  /** The multipliers set_elevation gives the cells, sampled at their centres. */
  function CellMultipliers(cells: seq<Cell>, vertices: seq<Vec3>, seed: nat, k: Kernel): (r: seq<real>)
    requires forall i :: 0 <= i < |cells| ==> cells[i].center < |vertices|
    ensures |r| == |cells|
    ensures NoiseBounded(k) ==> forall i :: 0 <= i < |r| ==> InRange(r[i])
  {
    var r := seq(|cells|, i requires 0 <= i < |cells| => ElevationMultiplier(NoiseAt(k, seed, vertices[cells[i].center])));
    assert NoiseBounded(k) ==> forall i :: 0 <= i < |r| ==> InRange(r[i]) by {
      if NoiseBounded(k) {
        forall i | 0 <= i < |r| ensures InRange(r[i]) {
          MultiplierBounds(NoiseAt(k, seed, vertices[cells[i].center]));
        }
      }
    }
    r
  }

  /** Every vertex has at least one owner. */
  ghost predicate AllOwned(cells: seq<Cell>, n: nat)
  {
    forall v :: 0 <= v < n ==> OwnerCount(cells, v) > 0
  }

  /** The vertices after elevation_sim: each scaled by its mean owner multiplier. */
  function ScaledVertices(vertices: seq<Vec3>, cells: seq<Cell>, ms: seq<real>): (r: seq<Vec3>)
    requires |ms| == |cells| && AllOwned(cells, |vertices|)
    ensures |r| == |vertices|
  {
    seq(|vertices|, v requires 0 <= v < |vertices| => Scale(vertices[v], ScaleFactor(cells, ms, v)))
  }

  // ---------------------------------------------------------------------------
  // Fan triangulation (addMeshData)

  /** The boundary lines of a region: line i joins indices i and i + 1, wrapping around. */
  function FanLines(indices: seq<nat>): (r: seq<Edge>)
    ensures |r| == |indices|
  {
    seq(|indices|, i requires 0 <= i < |indices| => Edge(indices[i], indices[(i + 1) % |indices|]))
  }

  /** The triangles of a region: the centre with each boundary line. */
  function FanFaces(center: nat, indices: seq<nat>): (r: seq<Tri>)
    ensures |r| == |indices|
  {
    seq(|indices|, i requires 0 <= i < |indices| => Tri(center, indices[i], indices[(i + 1) % |indices|]))
  }

  /**
   * The fan closes: the lines form one cycle through the indices in order, and
   * every triangle is the centre together with the matching line.
   */
  lemma FanIsClosed(center: nat, indices: seq<nat>)
    requires |indices| > 0
    ensures forall i :: 0 <= i < |indices| ==> FanLines(indices)[i].a == indices[i]
    ensures forall i :: 0 <= i < |indices| - 1 ==> FanLines(indices)[i].b == FanLines(indices)[i + 1].a
    ensures FanLines(indices)[|indices| - 1].b == indices[0]
    ensures forall i :: 0 <= i < |indices| ==>
      FanFaces(center, indices)[i] == Tri(center, FanLines(indices)[i].a, FanLines(indices)[i].b)
  {
    var k, lines := |indices|, FanLines(indices);
    forall i | 1 <= i < k ensures lines[i - 1].b == indices[i] == lines[i].a {
      WrapNext(i - 1, k);
    }
    WrapNext(k - 1, k);
  }

  /** Fan line and triangle i, as addMeshData's loop and its closing step compute them. */
  lemma FanStep(center: nat, indices: seq<nat>, i: nat)
    requires i < |indices|
    ensures var j := if i < |indices| - 1 then i + 1 else 0;
      && FanLines(indices)[..i + 1] == FanLines(indices)[..i] + [Edge(indices[i], indices[j])]
      && FanFaces(center, indices)[..i + 1] == FanFaces(center, indices)[..i] + [Tri(center, indices[i], indices[j])]
  {
    WrapNext(i, |indices|);
  }

  /** The index after i on a cycle of length n. */
  lemma WrapNext(i: nat, n: nat)
    requires i < n
    ensures (i + 1) % n == if i < n - 1 then i + 1 else 0
  {
  }

  /** All lines populate_mesh_data appends, region by region. */
  function AllFanLines(cells: seq<Cell>): (r: seq<Edge>)
    decreases |cells|
  {
    if cells == [] then [] else AllFanLines(cells[..|cells| - 1]) + FanLines(cells[|cells| - 1].indices)
  }

  /** All triangles populate_mesh_data appends, region by region. */
  function AllFanFaces(cells: seq<Cell>): (r: seq<Tri>)
    decreases |cells|
  {
    if cells == [] then []
    else AllFanFaces(cells[..|cells| - 1]) + FanFaces(cells[|cells| - 1].center, cells[|cells| - 1].indices)
  }

  /** What populate_mesh_data appends for cell i, after the cells before it. */
  lemma AllFanStep(cells: seq<Cell>, i: nat, lines0: seq<Edge>, faces0: seq<Tri>)
    requires i < |cells|
    ensures lines0 + AllFanLines(cells[..i]) + FanLines(cells[i].indices) == lines0 + AllFanLines(cells[..i + 1])
    ensures faces0 + AllFanFaces(cells[..i]) + FanFaces(cells[i].center, cells[i].indices) ==
      faces0 + AllFanFaces(cells[..i + 1])
  {
    assert cells[..i + 1][..i] == cells[..i];
  }

  /** The indices of each cell, in order. */
  function CellIndices(cells: seq<Cell>): (r: seq<seq<nat>>)
    ensures |r| == |cells| && forall i :: 0 <= i < |r| ==> r[i] == cells[i].indices
  {
    seq(|cells|, i requires 0 <= i < |cells| => cells[i].indices)
  }

  /** One line and one triangle per index of every region. */
  lemma {:induction false} AllFanLength(cells: seq<Cell>)
    ensures |AllFanLines(cells)| == |AllFanFaces(cells)| == |Flatten<nat>(CellIndices(cells))|
    decreases |cells|
  {
    if cells != [] {
      var n := |cells| - 1;
      AllFanLength(cells[..n]);
      assert CellIndices(cells) == CellIndices(cells[..n]) + [cells[n].indices];
      FlattenAppend<nat>(CellIndices(cells[..n]), [cells[n].indices]);
      FlattenCons<nat>(cells[n].indices, []);
    }
  }

  /**
   * The mesh built from a hull index buffer has one line and one triangle per
   * buffer entry: three per hull triangle.
   */
  lemma MeshLineCount(pointIndices: seq<nat>, duals: seq<Vec3>, k: Kernel)
    requires |pointIndices| % 3 == 0 && |duals| == |pointIndices| / 3
    ensures var cells := CellsOf(NonEmpty(CellGroups(pointIndices, duals, k)), |duals|);
      |AllFanLines(cells)| == |AllFanFaces(cells)| == |pointIndices|
  {
    var gs := CellGroups(pointIndices, duals, k);
    var cells := CellsOf(NonEmpty(gs), |duals|);
    AllFanLength(cells);
    assert CellIndices(cells) == NonEmpty(gs);
    NonEmptyKeeps(gs);
    assert |Flatten<nat>(NonEmpty(gs))| == |Flatten<nat>(gs)|;
    FlattenedCellGroupsLength(pointIndices, duals, k);
  }

  /** The final groups hold as many indices as the hull buffer has entries. */
  lemma FlattenedCellGroupsLength(pointIndices: seq<nat>, duals: seq<Vec3>, k: Kernel)
    requires |pointIndices| % 3 == 0 && |duals| == |pointIndices| / 3
    ensures |Flatten<nat>(CellGroups(pointIndices, duals, k))| == |pointIndices|
  {
    UnsortedGroupsBelow(pointIndices);
    var s := SortAssociations(Associations(pointIndices));
    var unsorted := Groups(s);
    assert CellGroups(pointIndices, duals, k) == SortedGroups(unsorted, duals, k);
    SortedGroupsFlatten(unsorted, duals, k);
    assert |multiset(Flatten<nat>(SortedGroups(unsorted, duals, k)))| == |multiset(Tris(s))|;
    var a := Associations(pointIndices);
    SortAssociationsPermutes(a);
    assert |s| == |multiset(s)| == |multiset(a)| == |a|;
  }

  // ---------------------------------------------------------------------------
  // Regions

  /** The centre the Region constructor computes: the normalised mean of the group's vertices. */
  function RegionCenter(indices: seq<nat>, vertices: seq<Vec3>, k: Kernel): Vec3
    requires AllBelow(indices, |vertices|)
  {
    k.normalize(k.mean(Gather(indices, vertices)))
  }

  /** The centres make_regions appends, one per group, all read from the same dual vertices. */
  function RegionCenters(groups: seq<seq<nat>>, vertices: seq<Vec3>, k: Kernel): (r: seq<Vec3>)
    requires GroupsBelow(groups, |vertices|)
    ensures |r| == |groups|
    ensures forall i :: 0 <= i < |r| ==> r[i] == RegionCenter(groups[i], vertices, k)
  {
    seq(|groups|, i requires 0 <= i < |groups| => RegionCenter(groups[i], vertices, k))
  }

  /** Appending vertices does not change what existing indices refer to. */
  lemma GatherPrefix(indices: seq<nat>, a: seq<Vec3>, b: seq<Vec3>)
    requires AllBelow(indices, |a|)
    ensures AllBelow(indices, |a + b|) && Gather(indices, a + b) == Gather(indices, a)
  {
  }

  class Region {
    /** The cell's dual-vertex indices, in boundary order. */
    const indices: seq<nat>
    /** Where the constructor put the cell's centre in the vertex array. */
    const centerIdx: nat
    /** What set_elevation computed for this region. */
    var elevationMultiplier: real

    /** The region's indices and centre, as a value. */
    function AsCell(): Cell
    {
      Cell(indices, centerIdx)
    }

    /**
     * Region(idx_data, &vertices): keeps the indices, and appends the cell's
     * centre to the mesh's vertex array, remembering where it went.
     */
    constructor (idxData: seq<nat>, mesh: Mesh, k: Kernel)
      requires AllBelow(idxData, |mesh.vertices|)
      modifies mesh`vertices
      ensures indices == idxData
      ensures centerIdx == old(|mesh.vertices|)
      ensures mesh.vertices == old(mesh.vertices) + [RegionCenter(idxData, old(mesh.vertices), k)]
    {
      indices := idxData;
      var center := RegionCenter(idxData, mesh.vertices, k);
      centerIdx := |mesh.vertices|;
      new;
      mesh.vertices := mesh.vertices + [center];
    }

    /** set_elevation: 1 plus the noise at the centre divided by elevation_divisor. */
    method SetElevation(vertices: seq<Vec3>, seed: nat, k: Kernel)
      requires centerIdx < |vertices|
      modifies this
      ensures elevationMultiplier == ElevationMultiplier(NoiseAt(k, seed, vertices[centerIdx]))
    {
      var center := vertices[centerIdx];
      elevationMultiplier := 1.0;
      elevationMultiplier := elevationMultiplier + k.fractal(ElevationNoise(seed), ElevationOctaves, center.x, center.y, center.z) / ElevationDivisor;
    }

    /**
     * update_affected: one more owner and one more multiplier for every
     * occurrence of a vertex among the indices, and for the centre; no
     * other slot changes.
     */
    method UpdateAffected(owned: array<int>, mults: array<real>)
      requires owned.Length == mults.Length
      requires AllBelow(indices, owned.Length) && centerIdx < owned.Length
      modifies owned, mults
      ensures forall v :: 0 <= v < owned.Length ==> owned[v] == old(owned[v]) + Occurrences(AsCell(), v)
      ensures forall v :: 0 <= v < mults.Length ==>
        mults[v] == old(mults[v]) + Repeated(Occurrences(AsCell(), v), elevationMultiplier)
    {
      CountIndices(owned, mults);
      owned[centerIdx] := owned[centerIdx] + 1;
      mults[centerIdx] := mults[centerIdx] + elevationMultiplier;
    }

    /** The loop of update_affected over the boundary indices. */
    method CountIndices(owned: array<int>, mults: array<real>)
      requires owned.Length == mults.Length && AllBelow(indices, owned.Length)
      modifies owned, mults
      ensures forall v :: 0 <= v < owned.Length ==> owned[v] == old(owned[v]) + Count(indices, v)
      ensures forall v :: 0 <= v < mults.Length ==>
        mults[v] == old(mults[v]) + Repeated(Count(indices, v), elevationMultiplier)
    {
      var m := elevationMultiplier;
      var i := 0;
      while i < |indices|
        invariant 0 <= i <= |indices|
        invariant forall v :: 0 <= v < owned.Length ==> owned[v] == old(owned[v]) + Count(indices[..i], v)
        invariant forall v :: 0 <= v < mults.Length ==>
          mults[v] == old(mults[v]) + Repeated(Count(indices[..i], v), m)
      {
        var idx := indices[i];
        CountStep(indices, i);
        owned[idx] := owned[idx] + 1;
        mults[idx] := mults[idx] + m;
        i := i + 1;
      }
      assert indices[..i] == indices;
    }

    /**
     * addMeshData: appends the region's boundary lines and its fan of
     * triangles around the centre. An empty region would make the loop bound
     * indices.size() - 1 wrap around, so the region must not be empty.
     */
    method AddMeshData(lines: seq<Edge>, faces: seq<Tri>) returns (lines': seq<Edge>, faces': seq<Tri>)
      requires |indices| > 0
      ensures lines' == lines + FanLines(indices)
      ensures faces' == faces + FanFaces(centerIdx, indices)
    {
      ghost var allLines, allFaces := FanLines(indices), FanFaces(centerIdx, indices);
      lines', faces' := lines, faces;
      var n := |indices|;
      var i := 0;
      while i < n - 1
        invariant 0 <= i <= n - 1
        invariant lines' == lines + allLines[..i]
        invariant faces' == faces + allFaces[..i]
      {
        var idx1, idx2 := indices[i], indices[i + 1];
        FanStep(centerIdx, indices, i);
        lines' := lines' + [Edge(idx1, idx2)];
        faces' := faces' + [Tri(centerIdx, idx1, idx2)];
        i := i + 1;
      }
      var firstIdx, lastIdx := indices[0], indices[n - 1];
      FanStep(centerIdx, indices, n - 1);
      assert allLines[..n] == allLines && allFaces[..n] == allFaces;
      lines' := lines' + [Edge(lastIdx, firstIdx)];
      faces' := faces' + [Tri(centerIdx, lastIdx, firstIdx)];
    }
  }


  /** The values of a sequence of regions. */
  function CellsOfRegions(rs: seq<Region>): (r: seq<Cell>)
    ensures |r| == |rs| && forall i :: 0 <= i < |rs| ==> r[i] == rs[i].AsCell()
  {
    seq(|rs|, i requires 0 <= i < |rs| => rs[i].AsCell())
  }

  /** What update_affected on cell i adds to the counts over the cells before it. */
  lemma CountOwnersStep(cells: seq<Cell>, ms: seq<real>, i: nat)
    requires i < |cells| == |ms|
    ensures forall v :: OwnerCount(cells[..i + 1], v) == OwnerCount(cells[..i], v) + Occurrences(cells[i], v)
    ensures forall v ::
      MultiplierSum(cells[..i + 1], ms[..i + 1], v) ==
      MultiplierSum(cells[..i], ms[..i], v) + Repeated(Occurrences(cells[i], v), ms[i])
  {
    assert cells[..i + 1][..i] == cells[..i] && ms[..i + 1][..i] == ms[..i];
  }

  /** The elevation multipliers of a sequence of regions. */
  function MultipliersOf(rs: seq<Region>): (r: seq<real>)
    reads rs
    ensures |r| == |rs| && forall i :: 0 <= i < |rs| ==> r[i] == rs[i].elevationMultiplier
  {
    seq(|rs|, i requires 0 <= i < |rs| reads rs => rs[i].elevationMultiplier)
  }

  lemma CellsOfRegionsSnoc(rs: seq<Region>, r: Region)
    ensures CellsOfRegions(rs + [r]) == CellsOfRegions(rs) + [r.AsCell()]
  {
  }

  /** One step of make_regions: what the filter, the cells and the centres gain from group i. */
  lemma MakeRegionsStep(groups: seq<seq<nat>>, i: nat, n0: nat, vs0: seq<Vec3>, k: Kernel)
    requires i < |groups| && GroupsBelow(groups, |vs0|)
    ensures var ne, g := NonEmpty(groups[..i]), groups[i];
      && NonEmpty(groups[..i + 1]) == ne + (if |g| > 0 then [g] else [])
      && GroupsBelow(ne, |vs0|)
  {
    assert groups[..i + 1][..i] == groups[..i] && groups[..i + 1][i] == groups[i];
    var ne := NonEmpty(groups[..i]);
    forall j | 0 <= j < |ne| ensures AllBelow(ne[j], |vs0|) {
      assert ne[j] in groups[..i];
    }
  }

  /** Appending the cell of one more group to the cells made so far. */
  lemma CellsStep(ne: seq<seq<nat>>, g: seq<nat>, n0: nat)
    ensures CellsOf(ne, n0) + [Cell(g, n0 + |ne|)] == CellsOf(ne + [g], n0)
  {
  }

  /** Appending the centre of one more group, computed over the vertices so far. */
  lemma CentersStep(ne: seq<seq<nat>>, g: seq<nat>, vs0: seq<Vec3>, k: Kernel)
    requires GroupsBelow(ne, |vs0|) && AllBelow(g, |vs0|)
    ensures GroupsBelow(ne + [g], |vs0|)
    ensures var before := vs0 + RegionCenters(ne, vs0, k);
      before + [RegionCenter(g, before, k)] == vs0 + RegionCenters(ne + [g], vs0, k)
  {
    var before := vs0 + RegionCenters(ne, vs0, k);
    GatherPrefix(g, vs0, RegionCenters(ne, vs0, k));
    assert RegionCenter(g, before, k) == RegionCenter(g, vs0, k);
    var rc := RegionCenters(ne + [g], vs0, k);
    assert rc == RegionCenters(ne, vs0, k) + [RegionCenter(g, vs0, k)];
  }

  /** Every cell is non-empty and refers to existing vertices, its centre included. */
  ghost predicate CellsValid(cells: seq<Cell>, n: nat)
  {
    forall i :: 0 <= i < |cells| ==>
      |cells[i].indices| > 0 && AllBelow(cells[i].indices, n) && cells[i].center < n
  }

  /** Appending a vertex and a cell that is valid with it keeps the cells valid. */
  lemma CellsValidGrow(cells: seq<Cell>, n: nat, c: Cell)
    requires CellsValid(cells, n)
    requires |c.indices| > 0 && AllBelow(c.indices, n + 1) && c.center < n + 1
    ensures CellsValid(cells + [c], n + 1)
  {
  }

  /**
   * Mesh(num_points, noise_seed) from the generator points and the hull
   * builder's index buffer: the Voronoi object, then the mesh built from it.
   * Every hull triangle's three corners become one line and one triangle
   * each.
   */
  method NewMesh(points: seq<Vec3>, hullBuffer: seq<nat>, noiseSeed: nat, k: Kernel) returns (m: Mesh)
    requires |hullBuffer| % 3 == 0 && AllBelow(hullBuffer, |points|)
    ensures m.hullPoints == points && m.hullFaces == TriSimplices(hullBuffer)
    ensures m.hullIndices == HullEdges(TriSimplices(hullBuffer))
    ensures m.Valid() && |m.lines| == |m.faces| == |hullBuffer|
    ensures var tris := TriSimplices(hullBuffer);
      && TrisBelow(tris, |points|)
      && var duals := DualVertices(points, tris, k);
      && m.Cells() == CellsOf(NonEmpty(CellGroups(hullBuffer, duals, k)), |duals|)
    ensures forall v: nat :: OwnerCount(m.Cells(), v) == if v < |hullBuffer| / 3 then 3 else if v < |m.vertices| then 1 else 0
  {
    var voronoi := new Voronoi(points, hullBuffer, k);
    MeshLineCount(hullBuffer, voronoi.vertices, k);
    m := new Mesh(points, voronoi, noiseSeed, k);
    forall v: nat ensures OwnerCount(m.Cells(), v) == if v < |hullBuffer| / 3 then 3 else if v < |m.vertices| then 1 else 0 {
      CellOwnership(voronoi.groups, |voronoi.vertices|, v);
    }
  }

  class Mesh {
    /** The generator points on the sphere. */
    var hullPoints: seq<Vec3>
    /** The hull's wireframe. */
    var hullIndices: seq<Edge>
    /** The hull's triangles. */
    var hullFaces: seq<Tri>
    /** The dual vertices followed by one centre per region. */
    var vertices: seq<Vec3>
    /** The regions' boundary lines. */
    var lines: seq<Edge>
    /** The regions' fan triangles. */
    var faces: seq<Tri>
    var regions: seq<Region>

    /** What the regions hold, as values. */
    ghost function Cells(): seq<Cell>
      reads this`regions
    {
      CellsOfRegions(regions)
    }

    ghost predicate Valid()
      reads this`regions, this`vertices
    {
      CellsValid(Cells(), |vertices|)
    }

    /**
     * Mesh(num_points, noise_seed), given the generator points and the Voronoi
     * object built from them: the hull's wireframe and faces, the dual vertices
     * and their groups, then make_regions, elevation_sim and populate_mesh_data.
     */
    constructor (points: seq<Vec3>, voronoi: Voronoi, noiseSeed: nat, k: Kernel)
      requires voronoi.Valid() && OwnedThrice(voronoi.groups, |voronoi.vertices|)
      ensures hullPoints == points
      ensures hullIndices == HullEdges(voronoi.triSimplices) && hullFaces == voronoi.triSimplices
      ensures var ne := NonEmpty(voronoi.groups);
        && Valid() && Cells() == CellsOf(ne, |voronoi.vertices|)
        && |vertices| == |voronoi.vertices| + |ne| && AllOwned(Cells(), |vertices|)
        && MultipliersOf(regions) == CellMultipliers(Cells(), voronoi.vertices + RegionCenters(ne, voronoi.vertices, k), noiseSeed, k)
        && vertices == ScaledVertices(voronoi.vertices + RegionCenters(ne, voronoi.vertices, k), Cells(), MultipliersOf(regions))
      ensures lines == AllFanLines(Cells()) && faces == AllFanFaces(Cells())
    {
      hullPoints := points;
      var hi := voronoi.GetHullIndices([]);
      var hf := voronoi.GetHullFaces();
      var duals, groups := voronoi.GetVerticesGroups();
      hullIndices, hullFaces, vertices := hi, hf, duals;
      lines := [];
      faces := [];
      regions := [];
      new;
      CellsAllOwned(groups, |duals|);
      BuildRegions(groups, noiseSeed, k, CellsOf(NonEmpty(groups), |duals|), duals + RegionCenters(NonEmpty(groups), duals, k));
    }

    /**
     * The mesh part of the constructor: make_regions, elevation_sim and
     * populate_mesh_data on the groups, given that every vertex the regions
     * will have is owned by one of them. The cells and the vertices
     * make_regions produces are passed in as ghost values.
     */
    method BuildRegions(groups: seq<seq<nat>>, noiseSeed: nat, k: Kernel, ghost cells: seq<Cell>, ghost unscaled: seq<Vec3>)
      requires GroupsBelow(groups, |vertices|) && regions == [] && lines == [] && faces == []
      requires cells == CellsOf(NonEmpty(groups), |vertices|)
      requires unscaled == vertices + RegionCenters(NonEmpty(groups), vertices, k)
      requires AllOwned(cells, |unscaled|)
      modifies this`vertices, this`regions, this`lines, this`faces
      ensures hullPoints == old(hullPoints) && hullIndices == old(hullIndices) && hullFaces == old(hullFaces)
      ensures Valid() && Cells() == cells
      ensures |vertices| == |unscaled| && AllOwned(Cells(), |vertices|)
      ensures MultipliersOf(regions) == CellMultipliers(Cells(), unscaled, noiseSeed, k)
      ensures vertices == ScaledVertices(unscaled, Cells(), MultipliersOf(regions))
      ensures lines == AllFanLines(Cells()) && faces == AllFanFaces(Cells())
    {
      MakeRegions(groups, k);
      assert Cells() == cells && vertices == unscaled;
      assert lines == [] && faces == [];
      ElevationSim(noiseSeed, k);
      assert Cells() == cells && lines == [] && faces == [];
      assert vertices == ScaledVertices(unscaled, cells, MultipliersOf(regions));
      ghost var ms, scaled := MultipliersOf(regions), vertices;
      PopulateMeshData();
      assert Cells() == cells && vertices == scaled && MultipliersOf(regions) == ms;
    }

    /** make_regions: one Region per non-empty group, in group order. */
    method MakeRegions(groups: seq<seq<nat>>, k: Kernel)
      requires Valid() && GroupsBelow(groups, |vertices|) && regions == []
      modifies this`vertices, this`regions
      ensures lines == old(lines) && faces == old(faces)
      ensures hullPoints == old(hullPoints) && hullIndices == old(hullIndices) && hullFaces == old(hullFaces)
      ensures Valid()
      ensures Cells() == CellsOf(NonEmpty(groups), old(|vertices|))
      ensures vertices == old(vertices) + RegionCenters(NonEmpty(groups), old(vertices), k)
      ensures forall r :: r in regions ==> fresh(r)
    {
      ghost var n0, vs0 := |vertices|, vertices;
      ghost var ne: seq<seq<nat>> := [];
      var i := 0;
      while i < |groups|
        invariant 0 <= i <= |groups|
        invariant ne == NonEmpty(groups[..i]) && GroupsBelow(ne, |vs0|)
        invariant Cells() == CellsOf(ne, n0)
        invariant vertices == vs0 + RegionCenters(ne, vs0, k)
        invariant forall r :: r in regions ==> fresh(r)
        invariant Valid()
      {
        ne := MakeRegion(groups, i, k, ne, vs0);
        i := i + 1;
      }
      assert groups[..i] == groups;
    }

    /** One turn of make_regions' loop: a region for groups[i] unless it is empty. */
    method MakeRegion(groups: seq<seq<nat>>, i: nat, k: Kernel, ghost ne: seq<seq<nat>>, ghost vs0: seq<Vec3>)
      returns (ghost ne': seq<seq<nat>>)
      requires i < |groups| && GroupsBelow(groups, |vs0|)
      requires ne == NonEmpty(groups[..i]) && GroupsBelow(ne, |vs0|)
      requires Valid() && Cells() == CellsOf(ne, |vs0|) && vertices == vs0 + RegionCenters(ne, vs0, k)
      modifies this`vertices, this`regions
      ensures ne' == NonEmpty(groups[..i + 1]) && GroupsBelow(ne', |vs0|)
      ensures Valid() && Cells() == CellsOf(ne', |vs0|) && vertices == vs0 + RegionCenters(ne', vs0, k)
      ensures forall r :: r in regions ==> r in old(regions) || fresh(r)
    {
      var g := groups[i];
      MakeRegionsStep(groups, i, |vs0|, vs0, k);
      ne' := ne;
      if |g| > 0 {
        PushRegion(g, k, ne, vs0);
        ne' := ne + [g];
      }
    }

    /**
     * regions.push_back(new Region(g, &vertices)): one more region, whose centre
     * is appended to the vertices. ne are the groups turned into regions so far
     * and vs0 the vertices before the first of them.
     */
    method PushRegion(g: seq<nat>, k: Kernel, ghost ne: seq<seq<nat>>, ghost vs0: seq<Vec3>)
      requires |g| > 0 && AllBelow(g, |vs0|) && GroupsBelow(ne, |vs0|)
      requires Valid() && Cells() == CellsOf(ne, |vs0|) && vertices == vs0 + RegionCenters(ne, vs0, k)
      modifies this`vertices, this`regions
      ensures GroupsBelow(ne + [g], |vs0|)
      ensures Cells() == CellsOf(ne + [g], |vs0|) && vertices == vs0 + RegionCenters(ne + [g], vs0, k)
      ensures |regions| > 0 && regions == old(regions) + [regions[|regions| - 1]]
      ensures fresh(regions[|regions| - 1])
      ensures Valid()
    {
      CentersStep(ne, g, vs0, k);
      CellsStep(ne, g, |vs0|);
      var r := new Region(g, this, k);
      CellsValidGrow(Cells(), |vertices| - 1, r.AsCell());
      CellsOfRegionsSnoc(regions, r);
      regions := regions + [r];
    }

    /**
     * elevation_sim: every region samples its multiplier at its centre, every
     * vertex's owners and multipliers are accumulated, and every vertex is
     * scaled by the mean multiplier of its owners. The division is unguarded
     * in the source, so every vertex must have an owner.
     */
    method ElevationSim(noiseSeed: nat, k: Kernel)
      requires Valid() && AllOwned(Cells(), |vertices|)
      modifies this`vertices, set r | r in regions
      ensures regions == old(regions) && lines == old(lines) && faces == old(faces)
      ensures hullPoints == old(hullPoints) && hullIndices == old(hullIndices) && hullFaces == old(hullFaces)
      ensures Cells() == old(Cells())
      ensures MultipliersOf(regions) == CellMultipliers(Cells(), old(vertices), noiseSeed, k)
      ensures vertices == ScaledVertices(old(vertices), Cells(), MultipliersOf(regions))
      ensures Valid()
    {
      SetElevations(noiseSeed, k);
      var owned, mults := CountOwners();
      ScaleVertices(owned, mults);
    }

    /** The first loop of elevation_sim: set_elevation on every region. */
    method SetElevations(noiseSeed: nat, k: Kernel)
      requires Valid()
      modifies set r | r in regions
      ensures regions == old(regions) && vertices == old(vertices) && lines == old(lines) && faces == old(faces)
      ensures hullPoints == old(hullPoints) && hullIndices == old(hullIndices) && hullFaces == old(hullFaces)
      ensures Cells() == old(Cells()) && Valid()
      ensures MultipliersOf(regions) == CellMultipliers(Cells(), vertices, noiseSeed, k)
    {
      ghost var cells := Cells();
      var i := 0;
      while i < |regions|
        invariant 0 <= i <= |regions|
        invariant forall j :: 0 <= j < i ==>
          regions[j].elevationMultiplier == ElevationMultiplier(NoiseAt(k, noiseSeed, vertices[cells[j].center]))
      {
        assert cells[i].center == regions[i].centerIdx;
        regions[i].SetElevation(vertices, noiseSeed, k);
        i := i + 1;
      }
    }

    /** The second loop of elevation_sim: update_affected on every region, into fresh arrays. */
    method CountOwners() returns (owned: array<int>, mults: array<real>)
      requires Valid()
      ensures fresh(owned) && fresh(mults)
      ensures owned.Length == mults.Length == |vertices|
      ensures forall v :: 0 <= v < owned.Length ==> owned[v] == OwnerCount(Cells(), v)
      ensures forall v :: 0 <= v < mults.Length ==> mults[v] == MultiplierSum(Cells(), MultipliersOf(regions), v)
    {
      ghost var cells, ms := Cells(), MultipliersOf(regions);
      owned := new int[|vertices|](_ => 0);
      mults := new real[|vertices|](_ => 0.0);
      var i := 0;
      while i < |regions|
        modifies owned, mults
        invariant 0 <= i <= |regions|
        invariant forall v :: 0 <= v < owned.Length ==> owned[v] == OwnerCount(cells[..i], v)
        invariant forall v :: 0 <= v < mults.Length ==> mults[v] == MultiplierSum(cells[..i], ms[..i], v)
      {
        CountRegion(i, owned, mults, cells, ms);
        i := i + 1;
      }
      assert cells[..i] == cells && ms[..i] == ms;
    }

    /** One iteration of that loop: update_affected on region i. */
    method CountRegion(i: nat, owned: array<int>, mults: array<real>, ghost cells: seq<Cell>, ghost ms: seq<real>)
      requires Valid() && i < |regions| && cells == Cells() && ms == MultipliersOf(regions)
      requires owned.Length == mults.Length == |vertices|
      requires forall v :: 0 <= v < owned.Length ==> owned[v] == OwnerCount(cells[..i], v)
      requires forall v :: 0 <= v < mults.Length ==> mults[v] == MultiplierSum(cells[..i], ms[..i], v)
      modifies owned, mults
      ensures forall v :: 0 <= v < owned.Length ==> owned[v] == OwnerCount(cells[..i + 1], v)
      ensures forall v :: 0 <= v < mults.Length ==> mults[v] == MultiplierSum(cells[..i + 1], ms[..i + 1], v)
    {
      CountOwnersStep(cells, ms, i);
      assert cells[i] == regions[i].AsCell() && ms[i] == regions[i].elevationMultiplier;
      regions[i].UpdateAffected(owned, mults);
    }

    /** The third loop of elevation_sim: every vertex times its owners' mean multiplier. */
    method ScaleVertices(owned: array<int>, mults: array<real>)
      requires Valid() && AllOwned(Cells(), |vertices|)
      requires owned.Length == mults.Length == |vertices|
      requires forall v :: 0 <= v < owned.Length ==> owned[v] == OwnerCount(Cells(), v)
      requires forall v :: 0 <= v < mults.Length ==> mults[v] == MultiplierSum(Cells(), MultipliersOf(regions), v)
      modifies this`vertices
      ensures vertices == ScaledVertices(old(vertices), Cells(), MultipliersOf(regions))
      ensures Valid()
    {
      ghost var cells, ms, vs0 := Cells(), MultipliersOf(regions), vertices;
      var i := 0;
      while i < |vertices|
        invariant 0 <= i <= |vertices| == |vs0|
        invariant forall v :: 0 <= v < i ==> vertices[v] == Scale(vs0[v], ScaleFactor(cells, ms, v))
        invariant forall v :: i <= v < |vertices| ==> vertices[v] == vs0[v]
      {
        vertices := vertices[i := Scale(vertices[i], mults[i] / (owned[i] as real))];
        i := i + 1;
      }
    }

    /** populate_mesh_data: every region's lines and triangles, region by region. */
    method PopulateMeshData()
      requires Valid()
      modifies this`lines, this`faces
      ensures regions == old(regions) && vertices == old(vertices)
      ensures hullPoints == old(hullPoints) && hullIndices == old(hullIndices) && hullFaces == old(hullFaces)
      ensures MultipliersOf(regions) == old(MultipliersOf(regions))
      ensures lines == old(lines) + AllFanLines(Cells())
      ensures faces == old(faces) + AllFanFaces(Cells())
    {
      ghost var cells := Cells();
      var i := 0;
      while i < |regions|
        invariant 0 <= i <= |regions|
        invariant lines == old(lines) + AllFanLines(cells[..i])
        invariant faces == old(faces) + AllFanFaces(cells[..i])
      {
        assert cells[i] == regions[i].AsCell();
        AllFanStep(cells, i, old(lines), old(faces));
        lines, faces := regions[i].AddMeshData(lines, faces);
        i := i + 1;
      }
      assert cells[..i] == cells;
    }
  }
}
