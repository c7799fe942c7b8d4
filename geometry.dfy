/**
 * Vector and index types shared by the Voronoi builder and the mesh, and the
 * float geometry the model does not interpret.
 *
 * glm::vec3 is modelled with real coordinates; glm::uvec2 and glm::uvec3 of
 * indices as pairs and triples of naturals (every index is assumed to fit in
 * 32 bits, and in 24 bits where the source passes it through a float).
 */
module Geometry {

  /** A glm::vec3. */
  datatype Vec3 = Vec3(x: real, y: real, z: real)

  /** `v * s` for a glm::vec3 and a scalar. */
  function Scale(v: Vec3, s: real): Vec3
  {
    Vec3(v.x * s, v.y * s, v.z * s)
  }

  /** A glm::uvec2 holding two vertex indices (an edge). */
  datatype Edge = Edge(a: nat, b: nat)

  /** A glm::uvec3 holding three vertex indices (a triangle). */
  datatype Tri = Tri(a: nat, b: nat, c: nat)

  /** The parameters a SimplexNoise object is constructed with. */
  datatype NoiseParams = NoiseParams(frequency: real, amplitude: real, lacunarity: real,
                                     persistence: real, seed: nat)

  /**
   * The floating-point geometry, kept uninterpreted:
   * - circumcenter(x1, x2, x3): the normalised circumcenter of the tetrahedron
   *   (x1, x2, x3, origin), including both degenerate-case formulas;
   * - orientation(point, center, top): what polyVec::setCCW_dot writes, the
   *   pair (CCW, dot);
   * - mean(vs): Voronoi::getCenter, the sum of vs divided by |vs|;
   * - normalize(v): glm::normalize;
   * - fractal(params, octaves, x, y, z): SimplexNoise::fractal.
   */
  datatype Kernel = Kernel(
    circumcenter: (Vec3, Vec3, Vec3) -> Vec3,
    orientation: (Vec3, Vec3, Vec3) -> (bool, real),
    mean: seq<Vec3> -> Vec3,
    normalize: Vec3 -> Vec3,
    fractal: (NoiseParams, nat, real, real, real) -> real)

  /** The vertices an index sequence refers to, in order. */
  function Gather(idx: seq<nat>, vs: seq<Vec3>): (r: seq<Vec3>)
    requires AllBelow(idx, |vs|)
    ensures |r| == |idx|
    ensures forall k :: 0 <= k < |r| ==> r[k] == vs[idx[k]]
  {
    seq(|idx|, k requires 0 <= k < |idx| => vs[idx[k]])
  }

  /** Every index in idx points into an array of length n. */
  predicate AllBelow(idx: seq<nat>, n: nat)
  {
    forall k :: 0 <= k < |idx| ==> idx[k] < n
  }
}
