# Spherical Voronoi planet generator: a Dafny model of the mesh pipeline

This project models the combinatorial core of the planet generator. Points on
the unit sphere are turned into a convex hull. The hull triangles become the
vertices of a spherical Voronoi diagram, and each generator point becomes a
region. The regions are raised or lowered by a noise function, and the mesh is
fanned into lines and triangles for drawing. Command-line helpers read colour
codes, check the parameters and build the floor.

The model keeps everything that is about indices, counts and order. It does
not interpret the floating-point geometry.

- `Voronoi` (voronoi.dfy) holds the class `Voronoi` of src/voronoi.cc:
  - the hull index buffer is cut into triangles;
  - each triangle gives one dual vertex;
  - (point, triangle) associations are built, sorted by `compareUvec` and
    split into groups by the counter-driven loop of `generateGroups`;
  - each group is sorted around its cell;
  - the hull's wireframe and faces are produced.
- `PolyOrder` (poly_order.dfy) holds `polyVec::compare` of src/voronoi.h over
  its key (is-top, counter-clockwise, dot). The key itself comes from
  `setCCW_dot`, which is kept abstract.
- `Sorting` (sorting.dfy) models `std::sort` with a comparator as insertion
  sort. It proves that the result is a permutation and that it is sorted when
  the comparator is a strict order on the input. It also proves that any two
  sorted permutations under a total order are equal.
- `Mesh` (mesh.dfy) holds the classes `Region` and `Mesh` of src/mesh.cc:
  - `make_regions` builds one region per non-empty group, and each region
    appends its centre to the shared vertex array;
  - `set_elevation`, `update_affected` and the scaling loop make up
    `elevation_sim`, with the ownership counters and multiplier sums
    accumulated in arrays;
  - the fan triangulation of `addMeshData` is driven by `populate_mesh_data`;
  - a counting argument shows that every dual vertex occurs exactly three
    times across the regions' index lists and every centre once, so the
    division in `elevation_sim` is never by zero. When every generator
    appears in the hull buffer, the cells holding dual vertex t are exactly
    the cells of the corners of hull triangle t. So a triangle with three
    distinct corners puts its dual vertex into three distinct cells.
- `MainProgram` (main_program.dfy) holds `parseHexCode` with integer channels,
  the range checks of `main` on the region count and ocean height, and
  `create_floor`.
- `Geometry` and `Config` hold the vector and index types, and the constants
  of src/config.h.

Modelling conventions:

- **Float geometry.** The circumcenter, `normalize`, the mean of
  `getCenter`, `setCCW_dot` and `SimplexNoise::fractal` are the function
  fields of a `Kernel` value. Every operation that uses them takes the kernel
  as a parameter. Floats are reals.
- **Shared vertex array.** The raw `std::vector<glm::vec3>*` a `Region` keeps
  in the source is replaced by the Mesh's own vertex sequence. The `Region`
  constructor appends to it and records the index it used.
- **Arrays and vectors.** `owned_regions` and `multipliers` are fixed-size
  arrays. The vectors the source passes by reference go in and come out as
  sequences: `getHullIndices`, `addMeshData` and `create_floor`.
- **Hull builder.** QuickHull is external. Its index buffer is a parameter,
  whose length must be a multiple of 3 and whose entries must index the
  points.
- **Mesh construction.** The `Mesh` constructor takes the generator points and
  the `Voronoi` built from them. `Mesh.NewMesh` composes the two, as
  `Mesh(num_points, noise_seed)` does after `generate_vertices`.

Generators missing from the hull buffer. QuickHull runs with a tolerance of
1e-6 (src/voronoi.cc:106), so it may leave out a generator that coincides, or
nearly coincides, with another. `make_regions` skips empty groups
(src/mesh.cc:64), which would suggest that such a generator simply gets no
region. `generateGroups` does not produce that outcome. It compares each
association's point index with a counter that goes up by only one per new
group. A point index that does not occur in the buffer therefore leaves the
counter behind the point indices, and the triangles of a single later point
end up spread over several groups. `Voronoi.GroupsSplitOnSkippedPoint` shows
this on a three-association input, and the model follows the code.
`Voronoi.GroupsAreIncidentTriangles` and the lemmas built on it, which tie
groups to points, assume that every point index from 0 to n - 1 occurs in the
buffer, that is, that the hull builder keeps every generator.

## Model

| member | source | states |
|---|---|---|
| Voronoi.CompareUvecIsLexicographic | src/voronoi.cc:19-28 | compareUvec(v1, v2) holds exactly when v1 comes first in lexicographic order of (point index, triangle index) |
| Voronoi.CompareUvecIsStrictTotalOrder | src/voronoi.cc:19-28 | compareUvec is irreflexive and transitive, and any two distinct associations are ordered one way or the other |
| Voronoi.CompareUvecOrdersAll | src/voronoi.cc:19-28 | on any sequence of associations compareUvec is a strict and total order, which is what sorting by it needs |
| Voronoi.SortAssociationsSorted | src/voronoi.cc:57 | the sorted associations are in compareUvec order |
| Voronoi.SortAssociationsPermutes | src/voronoi.cc:57 | sorting the associations permutes them |
| Voronoi.SortAssociationsUnique | src/voronoi.cc:57 | any compareUvec-sorted permutation of the associations equals the model's sort result, so the result does not depend on the algorithm std::sort uses |
| Sorting.SortPermutes | src/voronoi.cc:199 | sorting with any comparator returns a permutation of its input |
| Sorting.InsertPermutes | src/voronoi.cc:199 | one insertion step adds exactly the inserted element |
| Sorting.SortSorted | src/voronoi.cc:199 | when the comparator is asymmetric between positions and transitive on the input, the result is sorted by it |
| Sorting.SortedUnique | src/voronoi.cc:57 | two permutations of one another that are both sorted by an order total on them are equal |
| Voronoi.TriSimplexAt | src/voronoi.cc:110-116 | triangle i of the buffer is (pi[3i], pi[3i+1], pi[3i+2]) |
| Voronoi.TriSimplicesAt | src/voronoi.cc:110-116 | every triangle i below |pi| / 3 is (pi[3i], pi[3i+1], pi[3i+2]) |
| Voronoi.TriSimplicesBelow | src/voronoi.cc:110-116 | when the buffer indexes the points, so does every corner of every triangle |
| Voronoi.Voronoi.GetTriSimplices | src/voronoi.cc:110-116 | appends exactly the |pi| / 3 triangles of the buffer after the triangles already held; vertices and groups unchanged |
| Voronoi.Voronoi.GenerateVertices | src/voronoi.cc:118-158 | appends exactly one circumcenter per hull triangle, in triangle order; triangles and groups unchanged |
| Voronoi.BuildTriIndices | src/voronoi.cc:42-48 | the loop yields each triangle index i three times in a row, for i from 0 to the triangle count |
| Voronoi.TriIndexSeqStep | src/voronoi.cc:43-48 | one turn of the loop appends [i, i, i] |
| Voronoi.TriIndexCount | src/voronoi.cc:42-48 | every triangle index below the triangle count occurs exactly three times in tri_indices, and no other index occurs |
| Voronoi.BuildAssociations | src/voronoi.cc:51-55 | association k pairs point_indices[k] with tri_indices[k], for every k of tri_indices |
| Voronoi.AssociationsComponents | src/voronoi.cc:42-55 | the point components of the associations are the buffer and the triangle components are tri_indices, so association k pairs pi[k] with k / 3 |
| Voronoi.BuiltAssociations | src/voronoi.cc:42-55 | what the two loops build is the association sequence of the buffer |
| Voronoi.SortedAssociationsTriCount | src/voronoi.cc:42-57 | after sorting, every triangle index below |pi| / 3 occurs in exactly three associations and no other triangle index occurs |
| Voronoi.SortedIncident | src/voronoi.cc:57 | for every point, the list of its triangles is the same before and after sorting: the buffer already lists each point's triangles in ascending order |
| Voronoi.IncidentCount | src/voronoi.cc:57 | the triangles listed for a point p occur as often as the association (p, t) does |
| Voronoi.Voronoi.GenerateGroups | src/voronoi.cc:161-177 | appends exactly the groups of the counter-driven split of the associations; vertices and triangles unchanged |
| Voronoi.Groups | src/voronoi.cc:161-177 | there is at least one group, and the concatenation of the groups is the sequence of triangle components of the associations, in order |
| Voronoi.GroupsFromFlatten | src/voronoi.cc:161-177 | from any point of the loop, the groups still to be pushed concatenate to the current group followed by the remaining triangle components |
| Voronoi.GroupsOfNothing | src/voronoi.cc:176 | with no associations one empty group is still pushed |
| Voronoi.GroupsFromContiguous | src/voronoi.cc:163-174 | when point indices start at the counter and rise by at most one per association, each group holds exactly one point's triangles |
| Voronoi.SortedCoveringSteps | src/voronoi.cc:163-174 | sorted associations whose point indices are exactly 0 to n - 1 start at point 0 and rise by at most one per step, ending at n - 1 |
| Voronoi.GroupsAreIncidentTriangles | src/voronoi.cc:163-174 | when the buffer's point indices are exactly 0 to n - 1, there are n groups and group p is the ascending list of triangles incident to point p |
| Voronoi.GroupsSplitOnSkippedPoint | src/voronoi.cc:163-174 | with point 1 missing, point 2's two triangles land in two separate groups |
| Voronoi.IncidentAscending | src/voronoi.cc:57 | when triangle components do not decrease within each point, each point's triangle list is non-decreasing: no entry is smaller than an earlier one |
| Voronoi.UnsortedGroupsBelow | src/voronoi.cc:161-177 | every entry of every group is a triangle index below |pi| / 3 |
| PolyOrder.MakePolyVec | src/voronoi.cc:196-197 | a key is top exactly when its point equals the group's first vertex, and it keeps its vertex index |
| PolyOrder.TopFirst | src/voronoi.h:27-30 | the top vertex precedes every vertex, and no non-top vertex precedes the top |
| PolyOrder.TopBeforeItself | src/voronoi.h:27-28 | compare(top, top) is true: the comparator is not irreflexive on top keys |
| PolyOrder.NonTopOrder | src/voronoi.h:33-47 | between non-top keys, CCW precedes CW, two CCW keys go by decreasing dot, two CW keys by increasing dot, and no key precedes itself |
| PolyOrder.CompareIsRankOrder | src/voronoi.h:24-48 | for any pair not both top, compare is the order of the rank (top, CCW, CW) and then of the signed dot |
| PolyOrder.CompareTransitive | src/voronoi.h:24-48 | compare is transitive |
| PolyOrder.CompareIsStrictOrder | src/voronoi.h:24-48 | on a sequence with at most one top key, compare is asymmetric between distinct positions and transitive |
| PolyOrder.SortedIsRotational | src/voronoi.h:24-48 | a sequence sorted by compare with exactly one top key has the top key first, then the CCW keys by decreasing dot, then the CW keys by increasing dot |
| Voronoi.PolygonKeys | src/voronoi.cc:193-198 | one key per group entry, carrying that entry's index, top exactly when its vertex equals the group's first vertex |
| Voronoi.SortedGroupPermutes | src/voronoi.cc:193-205 | the sorted group is a permutation of the group |
| Voronoi.OneTopAfterSorting | src/voronoi.cc:196-199 | when only the first key is top, every permutation of the keys has that key as its only top key |
| Voronoi.SortedGroupIsRotational | src/voronoi.cc:184-205 | when no vertex but the first has the first one's coordinates, the sorted keys are in rotational order and the sorted group starts with the group's first index |
| Voronoi.SortedGroups | src/voronoi.cc:179-209 | sorting keeps the number of groups and every index stays in range |
| Voronoi.SortedGroupsPermute | src/voronoi.cc:179-209 | each new group is a permutation of the old group at the same position |
| Voronoi.SortedGroupsFlatten | src/voronoi.cc:179-209 | the concatenation of the sorted groups is a permutation of the concatenation of the old groups |
| Voronoi.Voronoi.PolygonVertices | src/voronoi.cc:185-189 | the group's vertices, in group order |
| Voronoi.Voronoi.SortPolygon | src/voronoi.cc:184-205 | the loop body of sortGroups returns the group sorted by compare on its keys |
| Voronoi.Voronoi.SortGroups | src/voronoi.cc:179-209 | every group is replaced by its sorted version; vertices and triangles unchanged |
| Voronoi.Centers | src/voronoi.cc:64-77 | exactly one centre per group |
| Voronoi.Voronoi.GetCenters | src/voronoi.cc:64-77 | returns the mean of each group's vertices, one per group, in group order |
| Voronoi.HullEdges | src/voronoi.cc:80-88 | three edges per triangle |
| Voronoi.HullEdgesAt | src/voronoi.cc:80-88 | edges 3i, 3i+1 and 3i+2 are (t0, t1), (t1, t2) and (t2, t0) of triangle i |
| Voronoi.HullEdgesBelow | src/voronoi.cc:80-88 | when the triangles index the points, so does every edge |
| Voronoi.Voronoi.GetHullIndices | src/voronoi.cc:80-88 | appends the hull edges after the entries already there, which are kept |
| Voronoi.Voronoi.GetHullFaces | src/voronoi.cc:90-93 | the faces become the hull triangles, whatever they held before |
| Voronoi.Voronoi.GetVerticesGroups | src/voronoi.cc:95-99 | copies of the dual vertices and the groups |
| Voronoi.DualVertexOwnedThrice | src/voronoi.cc:42-61 | every dual vertex index occurs exactly three times across the final groups, and no other index occurs |
| Voronoi.CellGroupsOwnedThrice | src/voronoi.cc:42-61 | every dual vertex occurs exactly three times, counted with repetition, across the final groups; Voronoi.DualVertexInThreeCells gives the three distinct groups |
| Voronoi.IncidentIsCorner | src/voronoi.cc:42-55 | triangle t is in point p's list of associations exactly when p is one of the three corners pi[3t], pi[3t+1], pi[3t+2] |
| Voronoi.CellsOfDualVertex | src/voronoi.cc:31-62 | when every point 0 .. n - 1 occurs in the buffer, there are n final groups and the groups holding dual vertex t are exactly those of t's three corners |
| Voronoi.DualVertexInThreeCells | src/voronoi.cc:31-62 | a hull triangle with three distinct corners has its dual vertex in exactly three distinct final groups |
| Voronoi.Voronoi.constructor | src/voronoi.cc:31-62 | the triangles are the buffer's triangles; there is one dual vertex per triangle; the groups are the sorted groups of the sorted associations, refer to existing vertices, and own every dual vertex exactly three times |
| Mesh.NonEmpty | src/mesh.cc:61-65 | the kept groups are all non-empty, each is one of the input groups, and there are no more of them than input groups |
| Mesh.NonEmptyKeeps | src/mesh.cc:61-65 | dropping the empty groups loses no index: the concatenation is unchanged |
| Mesh.CellsOf | src/mesh.cc:61-65 | region i holds group i and its centre index is the starting vertex count plus i: centre indices are consecutive |
| Mesh.Region.constructor | src/mesh.cc:95-111 | keeps the group as its indices, sets the centre index to the vertex count before the append, and appends exactly the centre, leaving earlier vertices unchanged |
| Mesh.Mesh.MakeRegions | src/mesh.cc:61-65 | one region per non-empty group, in order, with consecutive centres appended after the dual vertices; lines, faces and hull data unchanged |
| Mesh.Mesh.MakeRegion | src/mesh.cc:63-64 | one loop turn: an empty group adds nothing, a non-empty one adds one region and one centre |
| Mesh.Mesh.PushRegion | src/mesh.cc:64 | regions.push_back(new Region(g, &vertices)) adds exactly one fresh region, whose cell and centre extend the ones so far |
| Mesh.CentersStep | src/mesh.cc:102-110 | a centre computed after earlier centres were appended equals the one computed from the dual vertices alone |
| Mesh.Region.SetElevation | src/mesh.cc:113-123 | the multiplier is 1 plus the 24-octave noise at the centre divided by elevation_divisor |
| Mesh.MultiplierBounds | src/mesh.cc:116-122 | noise in [-1, 1] gives a multiplier in [0.9, 1.1] |
| Mesh.CellMultipliers | src/mesh.cc:70-72 | one multiplier per region, all within [0.9, 1.1] when the noise is within [-1, 1] |
| Mesh.Mesh.SetElevations | src/mesh.cc:70-72 | every region's multiplier is set from the noise at its centre; nothing else changes |
| Mesh.Region.UpdateAffected | src/mesh.cc:124-133 | every slot gains one owner and one multiplier per occurrence of its index among the region's indices and as its centre; no other slot changes |
| Mesh.Region.CountIndices | src/mesh.cc:126-130 | every slot gains one owner and one multiplier per occurrence among the region's indices |
| Mesh.CountIsMultiplicity | src/mesh.cc:126-130 | the number of occurrences counted is the multiplicity of the index in the region |
| Mesh.CountOwnersStep | src/mesh.cc:77-80 | after one more region the counters grow by exactly that region's occurrences |
| Mesh.Mesh.CountRegion | src/mesh.cc:77-80 | one turn of the accumulation loop extends the counters from the first i regions to the first i + 1 |
| Mesh.Mesh.CountOwners | src/mesh.cc:74-80 | fresh arrays of the vertex count holding, for every vertex, its number of owners and the sum of its owners' multipliers |
| Mesh.OwnerCountOfCells | src/mesh.cc:74-80 | a vertex's owner count is its multiplicity across the groups plus one if it is one of the centres |
| Mesh.CellOwnership | src/mesh.cc:74-80 | with the groups of the Voronoi object, the owner counter, which update_affected increments once per occurrence, is exactly 3 for every dual vertex, exactly 1 for every centre and 0 for any other index |
| Mesh.CellsAllOwned | src/mesh.cc:83-86 | every vertex has an owner, so the division in the scaling loop is never by zero |
| Mesh.MultiplierSumBounds | src/mesh.cc:77-80 | with every multiplier in [0.9, 1.1], a vertex's multiplier sum lies between 0.9 and 1.1 times its owner count |
| Mesh.RepeatedBounds | src/mesh.cc:129 | adding one multiplier in [0.9, 1.1] c times gives a sum between 0.9c and 1.1c |
| Mesh.ScaleFactorBounds | src/mesh.cc:85 | the factor a vertex is scaled by, its owners' mean multiplier, lies within [0.9, 1.1] when the multipliers do |
| Mesh.Mesh.ScaleVertices | src/mesh.cc:83-86 | every vertex is scaled by its multiplier sum divided by its owner count; the regions are unchanged |
| Mesh.Mesh.ElevationSim | src/mesh.cc:67-87 | the multipliers come from the noise at the centres and every vertex is scaled by the mean multiplier of its owners; regions, lines, faces and hull data unchanged |
| Mesh.Region.AddMeshData | src/mesh.cc:136-156 | appends exactly one line (indices[i], indices[(i+1) mod k]) and one face (centre, indices[i], indices[(i+1) mod k]) per index of a non-empty region, after the entries already there |
| Mesh.FanIsClosed | src/mesh.cc:136-156 | the lines of a region form a closed loop through its indices in order, and face i is the centre with line i |
| Mesh.FanStep | src/mesh.cc:139-155 | each step appends line i and face i, the last one wrapping to the first index |
| Mesh.AllFanStep | src/mesh.cc:91-92 | one more region appends its own lines and faces after those of the regions before it |
| Mesh.Mesh.PopulateMeshData | src/mesh.cc:89-93 | appends every region's lines and faces, region by region, to what was there; regions, vertices and hull data unchanged |
| Mesh.AllFanLength | src/mesh.cc:89-93 | the number of lines and the number of faces both equal the total number of region indices |
| Mesh.MeshLineCount | src/mesh.cc:29-37 | the finished mesh has as many lines and faces as the hull buffer has entries, three per hull triangle |
| Mesh.Mesh.BuildRegions | src/mesh.cc:29-37 | make_regions, elevation_sim and populate_mesh_data together give the cells of the non-empty groups, noise multipliers at the centres, scaled vertices, and the fans of all regions |
| Mesh.Mesh.constructor | src/mesh.cc:10-38 | the hull data is the Voronoi object's; the regions are its non-empty groups with consecutive centres; every vertex is owned and scaled by its owners' mean multiplier; lines and faces are the regions' fans |
| Mesh.NewMesh | src/mesh.cc:18-37 | the mesh built from points and a hull buffer has the buffer's triangles and wireframe, 3 lines and faces per triangle, and every dual vertex owned 3 times and every centre once |
| MainProgram.HexValue | src/main.cc:99-101 | for a string that is not all whitespace, the value read is at most the largest unsigned, and 0 when the first character after the leading whitespace is not a hexadecimal digit |
| MainProgram.DigitRun | src/main.cc:101 | the digits read are the longest prefix of hexadecimal digits |
| MainProgram.SkipSpace | src/main.cc:101 | extraction starts at the first non-whitespace character: everything skipped is whitespace, and what remains is empty or starts with a non-whitespace character |
| MainProgram.LeadingSpaceIgnored | src/main.cc:101 | a leading whitespace character changes neither the skipped text nor the value read |
| MainProgram.Channels | src/main.cc:103-105 | each channel is in [0, 255] |
| MainProgram.ParseHexCode | src/main.cc:96-108 | for a string that is not all whitespace, each channel of the parsed colour code is in [0, 255] |
| MainProgram.ChannelsOfLow24 | src/main.cc:103-105 | the channels depend only on the low 24 bits of the value |
| MainProgram.ChannelsRecompose | src/main.cc:103-105 | r * 65536 + g * 256 + b is the value modulo 2^24 |
| MainProgram.DigitsOfHexString | src/main.cc:99-101 | reading a number written with n hexadecimal digits gives it back when it is below 16^n |
| MainProgram.ParseSixDigitCode | src/main.cc:140-143 | a six-digit code of a 24-bit value reads back as that value and as its channels |
| MainProgram.DefaultOceanColour | src/main.cc:140 | the default ocean colour "1a1a66" is (26, 26, 102) |
| MainProgram.CheckParameters | src/main.cc:156-166 | the program stops with status 1 exactly when the region count is outside [500, 100000] or the ocean height outside [0, 200]; otherwise the ocean height is 1 + (h / 1000 - 0.1), within [0.9, 1.1] |
| MainProgram.OceanHeightMonotone | src/main.cc:166 | a larger ocean-height parameter gives a higher ocean |
| MainProgram.DefaultsAccepted | src/main.cc:134-135 | the defaults, 10000 regions and ocean height 120, pass the checks with ocean height 1.02 |
| MainProgram.CreateFloor | src/main.cc:86-94 | appends exactly the four floor corners and the faces (0, 1, 2) and (2, 3, 0), all indices below 4, keeping earlier entries |
| MainProgram.FloorFromEmpty | src/main.cc:191-193 | built into empty vectors, every face index names a corner, and both triangles face up (+y) with the same winding |

## Left out

- QuickHull (`generateConvexHull`) is an external library. Its index buffer is a parameter of the `Voronoi` constructor, required to have a length that is a multiple of 3 and entries that index the points.
- `generate_vertices` is left out: random sampling with `glm::ballRand` and the Lloyd relaxation over float centres. The `Mesh` constructor takes the final generator points.
- The float geometry is modelled only as uninterpreted `Kernel` functions. This covers both circumcenter formulas (including the degenerate branch), `normalize`, the mean of `getCenter`, `setCCW_dot` and `SimplexNoise::fractal`. Floats are modelled as reals, with no rounding. `Mesh.Repeated` models the repeated float addition of a multiplier without rounding.
- The float-to-`glm::vec2` conversion in `generateGroups`, and the 32-bit `unsigned` and `size_t` widths of indices, are not modelled. Indices are naturals, which is exact for fewer than 2^24 triangles.
- `Sorting.SortSorted` assumes a comparator that is a strict order on the input. `polyVec::compare(top, top)` is true, so this holds only when at most one vertex of a group has the first vertex's coordinates (`Voronoi.SortedGroupIsRotational` requires that). `std::sort` with a comparator that is not a strict weak order has undefined behaviour, and the model does not describe what it does then.
- `std::sort` is modelled as insertion sort. For compareUvec, which is total, `Voronoi.SortAssociationsUnique` shows that every correct sort gives the same result. For `polyVec::compare`, which does not order keys with equal CCW and dot, the order of such ties is that of insertion sort.
- The vectors the source fills by reference become sequences that go in and come out: `getHullIndices`, `addMeshData`, `create_floor`, and the Mesh's `lines` and `faces`. Aliasing between them is not modelled.
- A Region's pointer to the vertex vector is not modelled. The Mesh's vertex sequence is the only vertex array, and `Region::set_elevation` receives it as a parameter.
- `vertices->at(idx)` throws on an index out of range. The model requires indices to be in range instead of modelling the exception.
- Mesh.Region.AddMeshData: requires a non-empty region, because for an empty one `indices.size() - 1` wraps around and the loop reads out of range. `make_regions` never builds an empty region.
- Mesh.Mesh.ElevationSim: requires every vertex to have an owner, because the source divides by the owner count unguarded. Mesh.CellsAllOwned proves this for the mesh the constructor builds.
- Mesh.Mesh.MakeRegions: requires that no regions exist yet, which holds in the constructor, the only caller.
- These methods model loop bodies and phases of the source, split out so that each proof stays small: Mesh.Mesh.BuildRegions, Mesh.Mesh.MakeRegion, Mesh.Mesh.PushRegion, Mesh.Mesh.SetElevations, Mesh.Mesh.CountOwners, Mesh.Mesh.CountRegion, Mesh.Mesh.ScaleVertices, Mesh.Region.CountIndices and Voronoi.Voronoi.SortPolygon.
- Mesh.Mesh.constructor: takes the `Voronoi` object built from the points rather than building it. `Mesh.NewMesh` builds both and states the result in terms of the points and the hull buffer.
- MainProgram.HexValue: models only leading whitespace, the hexadecimal digits and saturation at the largest unsigned for a number too large. The sign and the "0x" prefix that the stream extraction also accepts are not modelled. A string that is empty or all whitespace is excluded by a precondition, because extraction then fails before storing anything and the uninitialised `hexval` keeps an indeterminate value.
- MainProgram.ParseHexCode: requires a string that is not all whitespace, for the same reason as HexValue. It keeps the channels as integers. The division by 255.0f is not modelled.
- The range check on `noise_seed` is not modelled, because the source does not check it.
- These parts of main.cc are not modelled: option parsing with Boost `program_options`, including the defaults, which appear only as constants in the lemmas; the messages written to the console; the exception handlers; and everything after `create_floor` except the `Mesh` construction.
- The progress messages that `Mesh::Mesh` writes to `std::cout` (src/mesh.cc:12, 16, 31 and 35) are not modelled, because they are output only.
- Voronoi.GroupsAreIncidentTriangles: it and the lemmas built on it (Voronoi.CellsOfDualVertex, Voronoi.DualVertexInThreeCells) assume that every generator index occurs in the hull buffer. QuickHull, with its 1e-6 tolerance, may leave out coincident or nearly coincident generators, and the model does not describe which points it keeps. For a buffer that skips an index, only the as-written behaviour of Voronoi.GroupsSplitOnSkippedPoint is stated.
- src/gui.cc and the OpenGL, shader and render-pass code are not part of this model.
