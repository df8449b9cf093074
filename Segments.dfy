/** One terrain segment: the strip mesh built from its surface points (top row,
    bottom row offset down by the extrusion depth, two triangles per quad,
    texture coordinates), the collider polyline, and the handle object whose
    content is (re)assigned on activation and cleared on release. */
module Segments {
  import opened Geometry

  // ---------------------------------------------------------------------
  // Mesh specification
  // ---------------------------------------------------------------------

  /** Vertex k of the mesh for the given surface points: k < n is top vertex k,
      k >= n is the bottom vertex below point k - n. */
  function MeshVertices(points: seq<Vec2>, depth: real): (vs: seq<Vec3>)
    ensures |vs| == 2 * |points|
  {
    seq(2 * |points|, k requires 0 <= k < 2 * |points| =>
      if k < |points| then Vec3(points[k].x, points[k].y, 0.0)
      else Vec3(points[k - |points|].x, points[k - |points|].y - depth, 0.0))
  }

  /** The six indices of quad q in a mesh whose rows hold n vertices each:
      triangle (q, q+1, q+n) and triangle (q+1, q+n+1, q+n). */
  function Quad(n: int, q: int): (r: seq<int>)
    ensures |r| == 6
    ensures r[1] == r[3] && r[2] == r[5]
  {
    [q, q + 1, q + n, q + 1, q + n + 1, q + n]
  }

  /** The index buffer holding quads 0 .. m-1, quad q at entries 6q .. 6q+5. */
  function Quads(n: int, m: nat): (ts: seq<int>)
    ensures |ts| == 6 * m
  {
    if m == 0 then [] else Quads(n, m - 1) + Quad(n, m - 1)
  }

  /** The whole index buffer of a mesh over n surface points. */
  function MeshTriangles(n: nat): (ts: seq<int>)
    requires n >= 1
    ensures |ts| == 6 * (n - 1)
  {
    Quads(n, n - 1)
  }

  /** Horizontal texture coordinate of column i out of n: i / (n - 1). */
  function U(n: nat, i: int): real
    requires n >= 2
  {
    Fraction(i as real, (n - 1) as real)
  }

  /** Texture coordinates: the top row has v = 1, the bottom row v = 0, and
      both rows share u = i / (n - 1). */
  function MeshUVs(n: nat): (uvs: seq<Vec2>)
    requires n >= 2
    ensures |uvs| == 2 * n
  {
    seq(2 * n, k requires 0 <= k < 2 * n =>
      if k < n then Vec2(U(n, k), 1.0) else Vec2(U(n, k - n), 0.0))
  }

  /** Twice the signed area of the triangle (a, b, c) in the xy-plane; negative
      means clockwise, which the engine treats as front-facing. */
  function SignedArea2(a: Vec3, b: Vec3, c: Vec3): real
  {
    (b.x - a.x) * (c.y - a.y) - (b.y - a.y) * (c.x - a.x)
  }

  /** Surface points whose x-coordinates strictly increase. */
  predicate IncreasingX(points: seq<Vec2>)
  {
    forall i, j :: 0 <= i < j < |points| ==> points[i].x < points[j].x
  }

  // ---------------------------------------------------------------------
  // Mesh properties
  // ---------------------------------------------------------------------

  /** Quad q of the index buffer sits at entries 6q .. 6q+5. */
  lemma {:induction false} QuadAt(n: int, m: nat, q: nat)
    requires q < m
    ensures Quads(n, m)[6 * q .. 6 * q + 6] == Quad(n, q)
  {
    var prev := Quads(n, m - 1);
    assert Quads(n, m) == prev + Quad(n, m - 1);
    if q < m - 1 {
      QuadAt(n, m - 1, q);
      assert Quads(n, m)[6 * q .. 6 * q + 6] == prev[6 * q .. 6 * q + 6];
    } else {
      assert Quads(n, m)[6 * q .. 6 * q + 6] == Quad(n, m - 1);
    }
  }

  /** Every entry of the buffer for quads 0 .. m-1 lies in [0, m + n]. */
  lemma {:induction false} QuadsInRange(n: nat, m: nat)
    ensures forall k :: 0 <= k < |Quads(n, m)| ==> 0 <= Quads(n, m)[k] <= m + n
  {
    if m > 0 {
      QuadsInRange(n, m - 1);
      var prev := Quads(n, m - 1);
      assert Quads(n, m) == prev + Quad(n, m - 1);
      forall k | 0 <= k < |Quads(n, m)|
        ensures 0 <= Quads(n, m)[k] <= m + n
      {
        if k >= |prev| {
          assert Quads(n, m)[k] == Quad(n, m - 1)[k - |prev|];
        }
      }
    }
  }

  /** A mesh over n points has 6(n-1) triangle indices, each naming one of its
      2n vertices. */
  lemma TriangleIndicesInRange(n: nat)
    requires n >= 1
    ensures |MeshTriangles(n)| == 6 * (n - 1)
    ensures forall k :: 0 <= k < |MeshTriangles(n)| ==> 0 <= MeshTriangles(n)[k] < 2 * n
  {
    QuadsInRange(n, n - 1);
  }

  /** Quad q of a mesh over n >= 2 points is (q, q+1, q+n, q+1, q+n+1, q+n),
      and the three corners of each of its two triangles are distinct. */
  lemma QuadLayout(n: nat, q: nat)
    requires n >= 2 && q < n - 1
    ensures MeshTriangles(n)[6 * q .. 6 * q + 6] == [q, q + 1, q + n, q + 1, q + n + 1, q + n]
    ensures var t := MeshTriangles(n);
      t[6 * q] != t[6 * q + 1] && t[6 * q + 1] != t[6 * q + 2] && t[6 * q] != t[6 * q + 2] &&
      t[6 * q + 3] != t[6 * q + 4] && t[6 * q + 4] != t[6 * q + 5] && t[6 * q + 3] != t[6 * q + 5]
  {
    QuadAt(n, n - 1, q);
    var t := MeshTriangles(n);
    assert t[6 * q .. 6 * q + 6][0] == t[6 * q];
    assert t[6 * q .. 6 * q + 6][5] == t[6 * q + 5];
  }

  /** Top vertex i is the surface point itself; bottom vertex i + n has the same
      x and lies depth below it; every vertex has z = 0. */
  lemma VertexLayout(points: seq<Vec2>, depth: real, i: nat)
    requires i < |points|
    ensures var vs := MeshVertices(points, depth);
      vs[i] == Vec3(points[i].x, points[i].y, 0.0) &&
      vs[i + |points|].x == points[i].x &&
      vs[i + |points|].y == points[i].y - depth &&
      vs[i + |points|].z == 0.0
  {
  }

  /** Both rows share u = i / (n - 1); v is 1 on the top row and 0 on the
      bottom row. */
  lemma UVRows(n: nat)
    requires n >= 2
    ensures forall i :: 0 <= i < n ==>
      MeshUVs(n)[i] == Vec2(U(n, i), 1.0) && MeshUVs(n)[n + i] == Vec2(U(n, i), 0.0)
  {
    var uvs := MeshUVs(n);
    forall i | 0 <= i < n
      ensures uvs[i] == Vec2(U(n, i), 1.0) && uvs[n + i] == Vec2(U(n, i), 0.0)
    {
      assert uvs[n + i] == Vec2(U(n, (n + i) - n), 0.0);
    }
  }

  /** u is 0 at the first column and 1 at the last, stays in [0, 1] and never
      decreases from left to right. */
  lemma UMonotone(n: nat)
    requires n >= 2
    ensures U(n, 0) == 0.0 && U(n, n - 1) == 1.0
    ensures forall i :: 0 <= i < n ==> 0.0 <= U(n, i) <= 1.0
    ensures forall i, j :: 0 <= i <= j < n ==> U(n, i) <= U(n, j)
  {
    forall i, j | 0 <= i <= j < n
      ensures U(n, i) <= U(n, j)
    {
      FractionMonotone(i as real, j as real, (n - 1) as real);
    }
  }

  /** With surface x strictly increasing and a positive depth, both triangles
      of quad q, (q, q+1, q+n) and (q+1, q+n+1, q+n) as QuadLayout places them,
      wind clockwise (front-facing): the winding is consistent across the
      whole strip. */
  lemma ConsistentWinding(points: seq<Vec2>, depth: real, q: nat)
    requires |points| >= 2 && q < |points| - 1
    requires IncreasingX(points) && depth > 0.0
    ensures var vs, n := MeshVertices(points, depth), |points|;
      SignedArea2(vs[q], vs[q + 1], vs[q + n]) < 0.0 &&
      SignedArea2(vs[q + 1], vs[q + n + 1], vs[q + n]) < 0.0
  {
    var n := |points|;
    var vs := MeshVertices(points, depth);
    var dx := points[q + 1].x - points[q].x;
    assert dx > 0.0;
    assert SignedArea2(vs[q], vs[q + 1], vs[q + n]) == -(dx * depth);
    assert SignedArea2(vs[q + 1], vs[q + n + 1], vs[q + n]) == -(depth * dx);
    PositiveProduct(dx, depth);
  }

  lemma PositiveProduct(a: real, b: real)
    requires a > 0.0 && b > 0.0
    ensures a * b > 0.0 && b * a > 0.0
  {
  }

  // ---------------------------------------------------------------------
  // Mesh construction
  // ---------------------------------------------------------------------

  /** The array loops of GenerateMesh: fill the vertex, index and UV buffers
      for the given surface points and extrusion depth. */
  method BuildMesh(points: seq<Vec2>, depth: real)
    returns (vertices: seq<Vec3>, triangles: seq<int>, uvs: seq<Vec2>)
    requires |points| >= 2
    ensures vertices == MeshVertices(points, depth)
    ensures triangles == MeshTriangles(|points|)
    ensures uvs == MeshUVs(|points|)
  {
    vertices := BuildVertices(points, depth);
    triangles := BuildTriangles(|points|);
    uvs := BuildUVs(|points|);
  }

  /** The vertex loop: top vertex i and bottom vertex i + n for each point i. */
  method BuildVertices(points: seq<Vec2>, depth: real) returns (vertices: seq<Vec3>)
    ensures vertices == MeshVertices(points, depth)
  {
    var n := |points|;
    var vs := new Vec3[n * 2];
    for i := 0 to n
      invariant forall k :: 0 <= k < i ==>
        vs[k] == Vec3(points[k].x, points[k].y, 0.0) &&
        vs[k + n] == Vec3(points[k].x, points[k].y - depth, 0.0)
    {
      vs[i] := Vec3(points[i].x, points[i].y, 0.0);
      vs[i + n] := Vec3(points[i].x, points[i].y - depth, 0.0);
    }
    vertices := vs[..];
    forall k | 0 <= k < 2 * n
      ensures vertices[k] == MeshVertices(points, depth)[k]
    {
      if k >= n {
        assert vs[(k - n) + n] == Vec3(points[k - n].x, points[k - n].y - depth, 0.0);
      }
    }
  }

  /** The triangle loop: six indices per quad, quad i at entries 6i .. 6i+5. */
  method BuildTriangles(n: nat) returns (triangles: seq<int>)
    requires n >= 1
    ensures triangles == MeshTriangles(n)
  {
    var ts := new int[(n - 1) * 6];
    for i := 0 to n - 1
      invariant forall k :: 0 <= k < 6 * i ==> ts[k] == Quad(n, k / 6)[k % 6]
    {
      var baseIndex := i * 6;
      ts[baseIndex] := i;
      ts[baseIndex + 1] := i + 1;
      ts[baseIndex + 2] := i + n;
      ts[baseIndex + 3] := i + 1;
      ts[baseIndex + 4] := i + n + 1;
      ts[baseIndex + 5] := i + n;
      forall k | baseIndex <= k < baseIndex + 6
        ensures ts[k] == Quad(n, k / 6)[k % 6]
      {
        assert k / 6 == i && k % 6 == k - baseIndex;
      }
    }
    triangles := ts[..];
    QuadEntries(n, n - 1);
  }

  /** Entry k of the index buffer is corner k % 6 of quad k / 6. */
  lemma {:induction false} QuadEntries(n: int, m: nat)
    ensures forall k :: 0 <= k < 6 * m ==> Quads(n, m)[k] == Quad(n, k / 6)[k % 6]
  {
    if m > 0 {
      QuadEntries(n, m - 1);
      var prev := Quads(n, m - 1);
      assert Quads(n, m) == prev + Quad(n, m - 1);
      forall k | 6 * (m - 1) <= k < 6 * m
        ensures Quads(n, m)[k] == Quad(n, k / 6)[k % 6]
      {
        assert k / 6 == m - 1 && k % 6 == k - 6 * (m - 1);
      }
    }
  }

  /** The UV loop: (i / (n - 1), 1) on top and (i / (n - 1), 0) below. */
  method BuildUVs(n: nat) returns (uvs: seq<Vec2>)
    requires n >= 2
    ensures uvs == MeshUVs(n)
  {
    var us := new Vec2[n * 2];
    for i := 0 to n
      invariant forall k :: 0 <= k < i ==>
        us[k] == Vec2(U(n, k), 1.0) && us[k + n] == Vec2(U(n, k), 0.0)
    {
      us[i] := Vec2(i as real / (n - 1) as real, 1.0);
      us[i + n] := Vec2(i as real / (n - 1) as real, 0.0);
    }
    uvs := us[..];
    forall k | 0 <= k < 2 * n
      ensures uvs[k] == MeshUVs(n)[k]
    {
      if k >= n {
        assert us[(k - n) + n] == Vec2(U(n, k - n), 0.0);
      }
    }
  }

  // ---------------------------------------------------------------------
  // The segment handle
  // ---------------------------------------------------------------------

  /** A pooled terrain segment. Its identity is the object reference; its
      content is the stored surface points, the mesh buffers, the collider
      polyline, the world position of its transform, and whether its game
      object is active. */
  class TerrainSegment {
    var width: real
    var height: real                // extrusion depth of the mesh
    var points: Option<seq<Vec2>>   // None stands for a null array
    var position: Vec3              // transform.position
    var vertices: seq<Vec3>         // mesh.vertices
    var triangles: seq<int>         // mesh.triangles
    var uvs: seq<Vec2>              // mesh.uv
    var colliderPoints: seq<Vec2>   // edgeCollider.points
    var active: bool                // gameObject.activeSelf

    /** The canonical released state: no points, transform at the origin,
        mesh cleared. */
    ghost predicate Cleared()
      reads this`points, this`position, this`vertices, this`triangles, this`uvs
    {
      points == None && position == Origin && vertices == [] && triangles == [] && uvs == []
    }

    /** The mesh and the collider are those built from the stored points. */
    ghost predicate HoldsMesh()
      reads this`points, this`height, this`vertices, this`triangles, this`uvs, this`colliderPoints
    {
      points.Some? && |points.value| >= 2 &&
      vertices == MeshVertices(points.value, height) &&
      triangles == MeshTriangles(|points.value|) &&
      uvs == MeshUVs(|points.value|) &&
      colliderPoints == points.value
    }

    /** What the segment shows: its points, its depth, its mesh and its
        collider. */
    ghost function Shape(): (Option<seq<Vec2>>, real, seq<Vec3>, seq<int>, seq<Vec2>, seq<Vec2>)
      reads this`points, this`height, this`vertices, this`triangles, this`uvs, this`colliderPoints
    {
      (points, height, vertices, triangles, uvs, colliderPoints)
    }

    /** A fresh instance of the segment prefab, taken to be in the cleared
        state with an empty collider. */
    constructor ()
      ensures Cleared() && active
      ensures width == 0.0 && height == 0.0 && colliderPoints == []
    {
      width, height := 0.0, 0.0;
      points := None;
      position := Origin;
      vertices, triangles, uvs := [], [], [];
      colliderPoints := [];
      active := true;
    }

    /** Store the dimensions and points, then rebuild the mesh and the
        collider from them. */
    method Initialize(width: real, height: real, points: seq<Vec2>)
      requires |points| >= 2
      modifies this`width, this`height, this`points, this`vertices, this`triangles, this`uvs, this`colliderPoints
      ensures this.width == width && this.height == height && this.points == Some(points)
      ensures HoldsMesh()
    {
      this.width := width;
      this.height := height;
      this.points := Some(points);
      GenerateMesh();
      UpdateCollider();
    }

    /** Replace the mesh with the one built from the stored points. */
    method GenerateMesh()
      requires points.Some? && |points.value| >= 2
      modifies this`vertices, this`triangles, this`uvs
      ensures vertices == MeshVertices(points.value, height)
      ensures triangles == MeshTriangles(|points.value|)
      ensures uvs == MeshUVs(|points.value|)
    {
      vertices, triangles, uvs := BuildMesh(points.value, height);
    }

    /** The collider polyline is the top edge only: exactly the stored points. */
    method UpdateCollider()
      requires points.Some?
      modifies this`colliderPoints
      ensures colliderPoints == points.value
    {
      colliderPoints := points.value;
    }

    /** Put the transform back at the origin, clear the mesh and drop the
        points. Width, depth, collider and activity are left as they are. */
    method Reset()
      modifies this`position, this`vertices, this`triangles, this`uvs, this`points
      ensures Cleared()
    {
      position := Origin;
      vertices, triangles, uvs := [], [], [];
      points := None;
    }
  }
}
