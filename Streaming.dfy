/** The terrain generator: it samples the surface points of each new segment
    from a noise function, places segments one after another along x, keeps
    the list of segments on screen, tops it up to MaxSegments and retires its
    front segment once that lies more than one segment width to the left of
    the origin. */
module Streaming {
  import opened Geometry
  import opened Segments
  import opened Pooling

  /** The generator's inspector settings. */
  datatype Settings = Settings(
    segmentWidth: real,
    segmentHeight: real,
    pointsPerSegment: int,
    heightScale: real,
    noiseScale: real,
    smoothness: real)

  /** Two-dimensional noise (Mathf.PerlinNoise): deterministic, otherwise unknown. */
  type Noise = (real, real) -> real

  /** MAX_SEGMENTS: the number of segments the generator keeps alive. */
  const MaxSegments: nat := 5

  // ---------------------------------------------------------------------
  // Surface sampling specification
  // ---------------------------------------------------------------------

  /** Horizontal distance between neighbouring points of a segment. */
  function Step(s: Settings): real
    requires s.pointsPerSegment >= 2
  {
    s.segmentWidth / (s.pointsPerSegment - 1) as real
  }

  /** Local x-coordinate of point i. */
  function SampleX(s: Settings, i: int): real
    requires s.pointsPerSegment >= 2
  {
    i as real * Step(s)
  }

  /** The noise value point i is sampled at: the noise at the scaled x
      shifted by the segment's noise offset. */
  function NoiseAt(s: Settings, noise: Noise, offset: real, i: int): real
    requires s.pointsPerSegment >= 2
  {
    noise(SampleX(s, i) * s.noiseScale + offset, 0.0)
  }

  /** Unsmoothed height of point i: its noise value times the height scale. */
  function RawHeight(s: Settings, noise: Noise, offset: real, i: int): real
    requires s.pointsPerSegment >= 2
  {
    NoiseAt(s, noise, offset, i) * s.heightScale
  }

  /** The point that follows the already sampled points prev: it sits at
      the next x; an interior point is pulled from its raw height towards the
      smoothed height of its left neighbour, an end point keeps its raw
      height. */
  function NextPoint(s: Settings, noise: Noise, offset: real, prev: seq<Vec2>): (p: Vec2)
    requires s.pointsPerSegment >= 2 && |prev| < s.pointsPerSegment
    ensures |prev| == 0 || |prev| == s.pointsPerSegment - 1 ==>
      p.y == RawHeight(s, noise, offset, |prev|)
    ensures 0 < |prev| < s.pointsPerSegment - 1 ==>
      Between(p.y, RawHeight(s, noise, offset, |prev|), prev[|prev| - 1].y)
  {
    var i := |prev|;
    var raw := RawHeight(s, noise, offset, i);
    Vec2(SampleX(s, i), if 0 < i < s.pointsPerSegment - 1 then Lerp(raw, prev[i - 1].y, s.smoothness) else raw)
  }

  /** The first k points of a segment sampled at the given noise offset. */
  function SamplePrefix(s: Settings, noise: Noise, offset: real, k: nat): (ps: seq<Vec2>)
    requires s.pointsPerSegment >= 2 && k <= s.pointsPerSegment
    ensures |ps| == k
  {
    if k == 0 then []
    else
      var prev := SamplePrefix(s, noise, offset, k - 1);
      prev + [NextPoint(s, noise, offset, prev)]
  }

  /** All surface points of a segment sampled at the given noise offset. */
  function SegmentPoints(s: Settings, noise: Noise, offset: real): (ps: seq<Vec2>)
    requires s.pointsPerSegment >= 2
    ensures |ps| == s.pointsPerSegment
  {
    SamplePrefix(s, noise, offset, s.pointsPerSegment)
  }

  // ---------------------------------------------------------------------
  // Surface sampling properties
  // ---------------------------------------------------------------------

  /** Sampling further points never changes the points already sampled. */
  lemma {:induction false} PrefixStable(s: Settings, noise: Noise, offset: real, k: nat, m: nat)
    requires s.pointsPerSegment >= 2 && k <= m <= s.pointsPerSegment
    ensures SamplePrefix(s, noise, offset, m)[..k] == SamplePrefix(s, noise, offset, k)
    decreases m - k
  {
    if k < m {
      PrefixStable(s, noise, offset, k, m - 1);
      var prev := SamplePrefix(s, noise, offset, m - 1);
      assert SamplePrefix(s, noise, offset, m)[..m - 1] == prev;
      assert SamplePrefix(s, noise, offset, m)[..k] == prev[..k];
    }
  }

  /** Each point of a segment is the one that follows the points before it:
      the left-to-right recurrence the sampling loop runs. */
  lemma PointRecurrence(s: Settings, noise: Noise, offset: real, i: nat)
    requires s.pointsPerSegment >= 2 && i < s.pointsPerSegment
    ensures var ps := SegmentPoints(s, noise, offset);
      |ps| == s.pointsPerSegment && ps[i] == NextPoint(s, noise, offset, ps[..i])
  {
    var n := s.pointsPerSegment;
    PrefixStable(s, noise, offset, i + 1, n);
    PrefixStable(s, noise, offset, i, n);
    var ps := SegmentPoints(s, noise, offset);
    assert ps[i] == ps[..i + 1][i];
  }

  /** Point i sits at x = i * segmentWidth / (pointsPerSegment - 1). */
  lemma PointsX(s: Settings, noise: Noise, offset: real)
    requires s.pointsPerSegment >= 2
    ensures var ps := SegmentPoints(s, noise, offset);
      |ps| == s.pointsPerSegment &&
      forall i :: 0 <= i < |ps| ==> ps[i].x == SampleX(s, i)
  {
    var ps := SegmentPoints(s, noise, offset);
    forall i | 0 <= i < |ps|
      ensures ps[i].x == SampleX(s, i)
    {
      PointRecurrence(s, noise, offset, i);
    }
  }

  /** The two end points keep their raw height; every interior point is
      Lerp(raw height, smoothed height of its left neighbour, smoothness). */
  lemma PointsHeights(s: Settings, noise: Noise, offset: real)
    requires s.pointsPerSegment >= 2
    ensures var ps := SegmentPoints(s, noise, offset);
      var n := s.pointsPerSegment;
      |ps| == n &&
      ps[0].y == RawHeight(s, noise, offset, 0) &&
      ps[n - 1].y == RawHeight(s, noise, offset, n - 1) &&
      forall i :: 0 < i < n - 1 ==>
        ps[i].y == Lerp(RawHeight(s, noise, offset, i), ps[i - 1].y, s.smoothness)
  {
    var n := s.pointsPerSegment;
    var ps := SegmentPoints(s, noise, offset);
    PointRecurrence(s, noise, offset, 0);
    PointRecurrence(s, noise, offset, n - 1);
    forall i | 0 < i < n - 1
      ensures ps[i].y == Lerp(RawHeight(s, noise, offset, i), ps[i - 1].y, s.smoothness)
    {
      PointRecurrence(s, noise, offset, i);
      assert ps[..i][i - 1] == ps[i - 1];
    }
  }

  /** The first point is at x = 0 and the last at x = segmentWidth. */
  lemma PointsSpanWidth(s: Settings, noise: Noise, offset: real)
    requires s.pointsPerSegment >= 2
    ensures SegmentPoints(s, noise, offset)[0].x == 0.0
    ensures SegmentPoints(s, noise, offset)[s.pointsPerSegment - 1].x == s.segmentWidth
  {
    PointRecurrence(s, noise, offset, 0);
    PointRecurrence(s, noise, offset, s.pointsPerSegment - 1);
    var d := (s.pointsPerSegment - 1) as real;
    assert SampleX(s, s.pointsPerSegment - 1) == d * (s.segmentWidth / d);
  }

  /** With noise values in [0, 1] and a non-negative height scale a raw
      height lies in [0, heightScale]. */
  lemma RawInRange(s: Settings, noise: Noise, offset: real, i: int)
    requires s.pointsPerSegment >= 2
    requires forall a, b :: 0.0 <= noise(a, b) <= 1.0
    requires s.heightScale >= 0.0
    ensures 0.0 <= RawHeight(s, noise, offset, i) <= s.heightScale
  {
    var v := NoiseAt(s, noise, offset, i);
    assert 0.0 <= v <= 1.0;
    assert RawHeight(s, noise, offset, i) == Scale(v, s.heightScale);
  }

  /** With noise values in [0, 1] and a non-negative height scale, every
      sampled height lies in [0, heightScale]: smoothing only forms convex
      combinations of heights already in range. */
  lemma {:induction false} HeightsInRange(s: Settings, noise: Noise, offset: real, k: nat)
    requires s.pointsPerSegment >= 2 && k <= s.pointsPerSegment
    requires forall a, b :: 0.0 <= noise(a, b) <= 1.0
    requires s.heightScale >= 0.0
    ensures forall i :: 0 <= i < k ==> 0.0 <= SamplePrefix(s, noise, offset, k)[i].y <= s.heightScale
  {
    if k > 0 {
      HeightsInRange(s, noise, offset, k - 1);
      RawInRange(s, noise, offset, k - 1);
      var prev := SamplePrefix(s, noise, offset, k - 1);
      var p := NextPoint(s, noise, offset, prev);
      assert 0.0 <= p.y <= s.heightScale;
      assert SamplePrefix(s, noise, offset, k) == prev + [p];
    }
  }

  /** With a positive segment width the x-coordinates strictly increase, so
      every quad of the segment's mesh winds clockwise (faces the camera). */
  lemma PointsIncreasing(s: Settings, noise: Noise, offset: real)
    requires s.pointsPerSegment >= 2 && s.segmentWidth > 0.0
    ensures IncreasingX(SegmentPoints(s, noise, offset))
  {
    PointsX(s, noise, offset);
    var step := Step(s);
    assert step > 0.0;
    forall i, j | 0 <= i < j < s.pointsPerSegment
      ensures SampleX(s, i) < SampleX(s, j)
    {
      assert SampleX(s, j) - SampleX(s, i) == (j - i) as real * step;
      PositiveProduct((j - i) as real, step);
    }
  }

  /** Origin of the segment the generator placed as its k-th (counting from
      zero since the last reset). */
  function OriginX(s: Settings, k: int): real
  {
    k as real * s.segmentWidth
  }

  /** Noise offset of the segment the generator placed as its k-th. */
  function OffsetAt(s: Settings, k: int): real
  {
    k as real * s.noiseScale
  }

  /** Each placement advances the origin by one width and the noise offset
      by one noise scale. */
  lemma Advance(s: Settings, k: int)
    ensures OriginX(s, k + 1) == OriginX(s, k) + s.segmentWidth
    ensures OffsetAt(s, k + 1) == OffsetAt(s, k) + s.noiseScale
  {
  }

  /** With a positive width later segments lie strictly further right. */
  lemma OriginsIncreasing(s: Settings, k: int, l: int)
    requires s.segmentWidth > 0.0 && k < l
    ensures OriginX(s, k) < OriginX(s, l)
  {
    assert OriginX(s, l) - OriginX(s, k) == (l - k) as real * s.segmentWidth;
    PositiveProduct((l - k) as real, s.segmentWidth);
  }

  /** With a non-negative width no segment placed since the reset ever lies
      left of -segmentWidth, so the retirement test in Update never fires. */
  lemma NoRetirement(s: Settings, k: nat)
    requires s.segmentWidth >= 0.0
    ensures !(OriginX(s, k) < -s.segmentWidth)
  {
    NonNegativeProduct(k as real, s.segmentWidth);
  }

  /** Product of two non-negative reals. */
  lemma NonNegativeProduct(a: real, b: real)
    requires a >= 0.0 && b >= 0.0
    ensures a * b >= 0.0
  {
    if b > 0.0 && a > 0.0 {
      PositiveProduct(a, b);
    }
  }

  // ---------------------------------------------------------------------
  // The generator
  // ---------------------------------------------------------------------

  /** The generator component. The pool is its only client, so the pool's
      active list and the generator's list of segments hold the same
      handles in the same order. */
  class TerrainGenerator {
    const settings: Settings
    const noise: Noise
    const terrainPool: TerrainPool
    var currentX: real
    var noiseOffset: real
    var activeSegments: seq<TerrainSegment>
    /** Segments placed since construction or the last reset. */
    ghost var spawned: nat
    /** The placement number of the front segment of the list. */
    ghost var firstPlaced: nat

    /** The handle is the segment placed k-th: it sits at the k-th origin
        and has the generator's width and depth. */
    ghost predicate Placed(seg: TerrainSegment, k: int)
      reads seg`position, seg`width, seg`height
      requires settings.pointsPerSegment >= 2
    {
      seg.position == Vec3(OriginX(settings, k), 0.0, 0.0) &&
      seg.width == settings.segmentWidth && seg.height == settings.segmentHeight
    }

    /** What the k-th placed segment shows: the points sampled at noise
        offset k * noiseScale, the generator's depth, and the mesh and
        collider built from them. */
    ghost function SampledShape(k: int): (Option<seq<Vec2>>, real, seq<Vec3>, seq<int>, seq<Vec2>, seq<Vec2>)
      requires settings.pointsPerSegment >= 2
    {
      var ps := SegmentPoints(settings, noise, OffsetAt(settings, k));
      var h := settings.segmentHeight;
      (Some(ps), h, MeshVertices(ps, h), MeshTriangles(|ps|), MeshUVs(|ps|), ps)
    }

    /** The handle shows what the k-th placed segment shows. */
    ghost predicate Sampled(seg: TerrainSegment, k: int)
      reads seg`points, seg`height, seg`vertices, seg`triangles, seg`uvs, seg`colliderPoints
      requires settings.pointsPerSegment >= 2
    {
      seg.Shape() == SampledShape(k)
    }

    /** A handle shows the k-th placement exactly when it holds the points
        sampled at noise offset k * noiseScale, the generator's depth, and
        the mesh and collider built from those points. */
    lemma SampledMeaning(seg: TerrainSegment, k: int)
      requires settings.pointsPerSegment >= 2
      ensures Sampled(seg, k) <==>
        seg.points == Some(SegmentPoints(settings, noise, OffsetAt(settings, k))) &&
        seg.height == settings.segmentHeight && seg.HoldsMesh()
    {
    }

    /** The list is the pool's active list; it holds the last |activeSegments|
        segments placed, oldest first; currentX and noiseOffset have advanced
        once per placed segment. */
    ghost predicate Valid()
      reads this, terrainPool, terrainPool.All, activeSegments
    {
      terrainPool.Valid() && terrainPool.enabled && terrainPool.maxPoolSize >= 1 &&
      settings.pointsPerSegment >= 2 &&
      activeSegments == terrainPool.active &&
      firstPlaced + |activeSegments| == spawned &&
      currentX == OriginX(settings, spawned) &&
      noiseOffset == OffsetAt(settings, spawned) &&
      forall i :: 0 <= i < |activeSegments| ==> Placed(activeSegments[i], firstPlaced + i)
    }

    /** The layout right after Start: MaxSegments segments with origins
        0, w, .., 4w holding the points sampled at noise offsets 0,
        noiseScale, .., 4 * noiseScale and their meshes; currentX = 5w and
        noiseOffset = 5 * noiseScale. */
    ghost predicate InitialLayout()
      reads this, terrainPool, terrainPool.All, activeSegments
    {
      Valid() && |activeSegments| == MaxSegments && spawned == MaxSegments &&
      currentX == OriginX(settings, MaxSegments) &&
      noiseOffset == OffsetAt(settings, MaxSegments) &&
      (forall i :: 0 <= i < MaxSegments ==>
        activeSegments[i].position == Vec3(OriginX(settings, i), 0.0, 0.0)) &&
      forall i :: 0 <= i < MaxSegments ==> Sampled(activeSegments[i], i)
    }

    /** Field initialisers: nothing placed yet. The pool must be enabled,
        able to create handles, and not yet used by anyone else. */
    constructor (settings: Settings, noise: Noise, terrainPool: TerrainPool)
      requires terrainPool.Valid() && terrainPool.enabled && terrainPool.active == []
      requires terrainPool.maxPoolSize >= 1 && settings.pointsPerSegment >= 2
      ensures Valid() && spawned == 0 && firstPlaced == 0 && activeSegments == []
      ensures this.settings == settings && this.noise == noise && this.terrainPool == terrainPool
      ensures currentX == 0.0 && noiseOffset == 0.0
    {
      this.settings := settings;
      this.noise := noise;
      this.terrainPool := terrainPool;
      currentX := 0.0;
      noiseOffset := 0.0;
      activeSegments := [];
      spawned, firstPlaced := 0, 0;
    }

    /** Sample the surface points of the next segment at the current noise
        offset. */
    method GenerateSegmentPoints() returns (points: seq<Vec2>)
      requires settings.pointsPerSegment >= 2
      ensures points == SegmentPoints(settings, noise, noiseOffset)
    {
      var n := settings.pointsPerSegment;
      var ps := new Vec2[n];
      for i := 0 to n
        invariant ps[..i] == SamplePrefix(settings, noise, noiseOffset, i)
      {
        ghost var prev := ps[..i];
        var x := SampleX(settings, i);
        var height := RawHeight(settings, noise, noiseOffset, i);
        if i > 0 && i < n - 1 {
          var prevHeight := ps[i - 1].y;
          assert prevHeight == prev[i - 1].y;
          height := Lerp(height, prevHeight, settings.smoothness);
        }
        assert Vec2(x, height) == NextPoint(settings, noise, noiseOffset, prev) by {
          assert |prev| == i;
        }
        ps[i] := Vec2(x, height);
        assert ps[..i + 1] == prev + [ps[i]];
      }
      points := ps[..];
      assert ps[..] == ps[..n];
    }

    /** Take a handle from the pool, place it at currentX, fill it with
        freshly sampled points, append it to the list and advance currentX
        and noiseOffset by one segment. */
    method GenerateNextSegment()
      requires Valid()
      modifies this, terrainPool, terrainPool.All
      ensures Valid() && spawned == old(spawned) + 1
      ensures |activeSegments| == old(|activeSegments|) + 1
      ensures activeSegments[..old(|activeSegments|)] == old(activeSegments)
      ensures activeSegments[old(|activeSegments|)].position == Vec3(old(currentX), 0.0, 0.0)
      ensures activeSegments[old(|activeSegments|)].points == Some(SegmentPoints(settings, noise, old(noiseOffset)))
      ensures activeSegments[old(|activeSegments|)].HoldsMesh()
      ensures Sampled(activeSegments[old(|activeSegments|)], old(spawned))
      ensures forall t :: t in old(activeSegments) ==> t.Shape() == old(t.Shape())
      ensures currentX == old(currentX) + settings.segmentWidth
      ensures noiseOffset == old(noiseOffset) + settings.noiseScale
      ensures old(terrainPool.All) <= terrainPool.All && fresh(terrainPool.All - old(terrainPool.All))
      ensures old(terrainPool.free) != [] ==>
        terrainPool.All == old(terrainPool.All) && terrainPool.free == old(terrainPool.free[1..]) &&
        activeSegments[old(|activeSegments|)] == old(terrainPool.free[0])
      ensures old(terrainPool.free) == [] ==>
        terrainPool.free == [] && terrainPool.All == old(terrainPool.All) + {activeSegments[old(|activeSegments|)]} &&
        fresh(activeSegments[old(|activeSegments|)])
    {
      ghost var before := activeSegments;
      ghost var k := spawned;
      assert noiseOffset == OffsetAt(settings, k) && currentX == OriginX(settings, k);
      terrainPool.Membership();
      var segment := terrainPool.GetSegment();
      assert segment != null;
      terrainPool.Membership();
      label Taken:
      PlaceSegment(segment);
      forall t | t in before
        ensures t.Shape() == old(t.Shape())
      {
        assert t != segment;
        assert t.Shape() == old@Taken(t.Shape());
      }
      assert Placed(segment, k);
      assert forall i :: 0 <= i < |before| ==> Placed(before[i], firstPlaced + i);
      assert segment.points == Some(SegmentPoints(settings, noise, noiseOffset)) && segment.HoldsMesh();
      assert terrainPool.Valid() by {
        forall t | t in terrainPool.All
          ensures (t.active <==> t in terrainPool.active) && (t in terrainPool.free ==> t.Cleared())
        {
        }
      }
      Append(segment);
    }

    /** The placement half of GenerateNextSegment: move the handle to
        currentX and fill it with points sampled at the current noise
        offset. */
    method PlaceSegment(segment: TerrainSegment)
      requires settings.pointsPerSegment >= 2
      modifies segment`position, segment`width, segment`height, segment`points
      modifies segment`vertices, segment`triangles, segment`uvs, segment`colliderPoints
      ensures segment.position == Vec3(currentX, 0.0, 0.0)
      ensures segment.width == settings.segmentWidth && segment.height == settings.segmentHeight
      ensures segment.points == Some(SegmentPoints(settings, noise, noiseOffset)) && segment.HoldsMesh()
    {
      segment.position := Vec3(currentX, 0.0, 0.0);
      var points := GenerateSegmentPoints();
      segment.Initialize(settings.segmentWidth, settings.segmentHeight, points);
    }

    /** The bookkeeping half of GenerateNextSegment: append the placed
        segment to the list and advance currentX and noiseOffset by one
        segment. */
    method Append(segment: TerrainSegment)
      requires terrainPool.Valid() && terrainPool.enabled && terrainPool.maxPoolSize >= 1
      requires settings.pointsPerSegment >= 2
      requires terrainPool.active == activeSegments + [segment]
      requires firstPlaced + |activeSegments| == spawned
      requires currentX == OriginX(settings, spawned) && noiseOffset == OffsetAt(settings, spawned)
      requires forall i :: 0 <= i < |activeSegments| ==> Placed(activeSegments[i], firstPlaced + i)
      requires Placed(segment, spawned)
      modifies this`activeSegments, this`currentX, this`noiseOffset, this`spawned
      ensures Valid() && spawned == old(spawned) + 1 && activeSegments == old(activeSegments) + [segment]
      ensures currentX == old(currentX) + settings.segmentWidth
      ensures noiseOffset == old(noiseOffset) + settings.noiseScale
    {
      ghost var before := activeSegments;
      Advance(settings, spawned);
      activeSegments := activeSegments + [segment];
      currentX := currentX + settings.segmentWidth;
      noiseOffset := noiseOffset + settings.noiseScale;
      spawned := spawned + 1;
      assert forall i :: 0 <= i < |before| ==> activeSegments[i] == before[i];
    }

    /** Place MaxSegments segments one after another. When the queue holds
        at least MaxSegments handles, its first MaxSegments handles are the
        ones placed and no handle is created. */
    method GenerateInitialTerrain()
      requires Valid()
      modifies this, terrainPool, terrainPool.All
      ensures Valid() && spawned == old(spawned) + MaxSegments && firstPlaced == old(firstPlaced)
      ensures |activeSegments| == old(|activeSegments|) + MaxSegments
      ensures activeSegments[..old(|activeSegments|)] == old(activeSegments)
      ensures forall k :: old(|activeSegments|) <= k < |activeSegments| ==>
        Sampled(activeSegments[k], firstPlaced + k)
      ensures forall t :: t in old(activeSegments) ==> t.Shape() == old(t.Shape())
      ensures old(terrainPool.All) <= terrainPool.All && fresh(terrainPool.All - old(terrainPool.All))
      ensures |old(terrainPool.free)| >= MaxSegments ==>
        terrainPool.All == old(terrainPool.All) &&
        terrainPool.free == old(terrainPool.free[MaxSegments..]) &&
        activeSegments == old(activeSegments + terrainPool.free[..MaxSegments])
    {
      ghost var base, queue, all := activeSegments, terrainPool.free, terrainPool.All;
      for i := 0 to MaxSegments
        invariant Valid() && spawned == old(spawned) + i && firstPlaced == old(firstPlaced)
        invariant |activeSegments| == |base| + i && activeSegments[..|base|] == base
        invariant forall k :: |base| <= k < |activeSegments| ==> Sampled(activeSegments[k], firstPlaced + k)
        invariant forall t :: t in base ==> t.Shape() == old(t.Shape())
        invariant all <= terrainPool.All && fresh(terrainPool.All - all)
        invariant |queue| >= MaxSegments ==>
          terrainPool.All == all && terrainPool.free == queue[i..] && activeSegments == base + queue[..i]
      {
        TakeNext(base, queue, i);
        GenerateOne(|base|);
      }
    }

    /** One iteration of GenerateInitialTerrain: place the next segment,
        keeping the segments from position lo on sampled. */
    method GenerateOne(ghost lo: nat)
      requires Valid() && lo <= |activeSegments|
      requires forall k :: lo <= k < |activeSegments| ==> Sampled(activeSegments[k], firstPlaced + k)
      modifies this, terrainPool, terrainPool.All
      ensures Valid() && spawned == old(spawned) + 1 && firstPlaced == old(firstPlaced)
      ensures |activeSegments| == old(|activeSegments|) + 1
      ensures activeSegments[..old(|activeSegments|)] == old(activeSegments)
      ensures forall k :: lo <= k < |activeSegments| ==> Sampled(activeSegments[k], firstPlaced + k)
      ensures forall t :: t in old(activeSegments) ==> t.Shape() == old(t.Shape())
      ensures old(terrainPool.All) <= terrainPool.All && fresh(terrainPool.All - old(terrainPool.All))
      ensures old(terrainPool.free) != [] ==>
        terrainPool.All == old(terrainPool.All) && terrainPool.free == old(terrainPool.free)[1..] &&
        activeSegments == old(activeSegments) + [old(terrainPool.free)[0]]
    {
      ghost var list := activeSegments;
      GenerateNextSegment();
      forall k | lo <= k < |activeSegments|
        ensures Sampled(activeSegments[k], firstPlaced + k)
      {
        if k < |list| {
          assert old(Sampled(activeSegments[k], firstPlaced + k));
          assert activeSegments[k] == list[k] && list[k] in list;
        }
      }
    }

    /** With a positive width the origins along the list strictly increase:
        segments are only appended at currentX and only removed at the front. */
    lemma OriginsAlongList()
      requires Valid() && settings.segmentWidth > 0.0
      ensures forall i, j :: 0 <= i < j < |activeSegments| ==>
        activeSegments[i].position.x < activeSegments[j].position.x
    {
      forall i, j | 0 <= i < j < |activeSegments|
        ensures activeSegments[i].position.x < activeSegments[j].position.x
      {
        assert Placed(activeSegments[i], firstPlaced + i);
        assert Placed(activeSegments[j], firstPlaced + j);
        OriginsIncreasing(settings, firstPlaced + i, firstPlaced + j);
      }
    }

    /** With a non-negative width no listed segment passes the retirement
        test of Update: every origin is at least 0. */
    lemma NothingRetires()
      requires Valid() && settings.segmentWidth >= 0.0
      ensures forall i :: 0 <= i < |activeSegments| ==>
        !(activeSegments[i].position.x < -settings.segmentWidth)
    {
      forall i | 0 <= i < |activeSegments|
        ensures !(activeSegments[i].position.x < -settings.segmentWidth)
      {
        assert Placed(activeSegments[i], firstPlaced + i);
        NoRetirement(settings, firstPlaced + i);
      }
    }

    /** First frame: place the initial segments. */
    method Start()
      requires Valid() && spawned == 0
      modifies this, terrainPool, terrainPool.All
      ensures InitialLayout()
    {
      GenerateInitialTerrain();
      LayoutAfterInitialTerrain();
    }

    /** A valid generator whose list holds exactly the MaxSegments segments
        placed since a rewind has the initial layout. */
    lemma LayoutAfterInitialTerrain()
      requires Valid() && spawned == MaxSegments && |activeSegments| == MaxSegments
      requires forall i :: 0 <= i < MaxSegments ==> Sampled(activeSegments[i], i)
      ensures InitialLayout()
    {
      assert firstPlaced == 0;
      forall i | 0 <= i < MaxSegments
        ensures activeSegments[i].position == Vec3(OriginX(settings, i), 0.0, 0.0)
      {
        assert Placed(activeSegments[i], firstPlaced + i);
      }
    }

    /** One frame: top the list up by one segment if it is shorter than
        MaxSegments, then retire the front segment if its origin lies left of
        -segmentWidth. The ghost results name the segment placed and the
        segment retired (null when none). */
    method Update() returns (ghost placed: TerrainSegment?, ghost retired: TerrainSegment?)
      requires Valid()
      modifies this, terrainPool, terrainPool.All
      ensures Valid()
      ensures old(|activeSegments|) < MaxSegments ==> placed != null && spawned == old(spawned) + 1
      ensures old(|activeSegments|) >= MaxSegments ==> placed == null && spawned == old(spawned)
      ensures var topped := old(activeSegments) + (if placed == null then [] else [placed]);
        retired != null <==> topped != [] && OriginX(settings, old(firstPlaced)) < -settings.segmentWidth
      ensures var topped := old(activeSegments) + (if placed == null then [] else [placed]);
        retired != null ==> retired == topped[0] && activeSegments == topped[1..]
      ensures var topped := old(activeSegments) + (if placed == null then [] else [placed]);
        retired == null ==> activeSegments == topped
      ensures retired != null ==> !retired.active && retired.Cleared()
      ensures placed != null && placed != retired ==>
        placed.position == Vec3(old(currentX), 0.0, 0.0) &&
        placed.points == Some(SegmentPoints(settings, noise, old(noiseOffset))) && placed.HoldsMesh()
      ensures forall t :: t in old(activeSegments) && t != retired ==> t.Shape() == old(t.Shape())
      ensures placed != null && old(terrainPool.free) != [] ==> placed == old(terrainPool.free[0])
      ensures placed == null || old(terrainPool.free) != [] ==> terrainPool.All == old(terrainPool.All)
      ensures placed != null && old(terrainPool.free) == [] ==>
        terrainPool.All == old(terrainPool.All) + {placed} && fresh(placed)
      ensures terrainPool.free ==
        (if placed == null || old(terrainPool.free) == [] then old(terrainPool.free) else old(terrainPool.free[1..])) +
        (if retired == null then [] else [retired])
      ensures old(|activeSegments|) <= MaxSegments ==> |activeSegments| <= MaxSegments
      ensures settings.segmentWidth >= 0.0 ==> retired == null
      ensures settings.segmentWidth >= 0.0 && old(|activeSegments|) >= MaxSegments ==>
        activeSegments == old(activeSegments) && terrainPool.free == old(terrainPool.free) &&
        terrainPool.All == old(terrainPool.All)
    {
      placed := TopUp();
      ghost var topped := activeSegments;
      assert topped == old(activeSegments) + (if placed == null then [] else [placed]);
      ghost var front := old(firstPlaced);
      retired := RetireIfBehind(front);
      assert placed != null ==> placed in topped;
    }

    /** The first half of Update: place one more segment if the list holds
        fewer than MaxSegments. */
    method TopUp() returns (ghost placed: TerrainSegment?)
      requires Valid()
      modifies this, terrainPool, terrainPool.All
      ensures Valid() && firstPlaced == old(firstPlaced)
      ensures old(|activeSegments|) < MaxSegments ==> placed != null && spawned == old(spawned) + 1
      ensures old(|activeSegments|) >= MaxSegments ==> placed == null && spawned == old(spawned)
      ensures activeSegments == old(activeSegments) + (if placed == null then [] else [placed])
      ensures placed != null ==>
        placed.position == Vec3(old(currentX), 0.0, 0.0) &&
        placed.points == Some(SegmentPoints(settings, noise, old(noiseOffset))) && placed.HoldsMesh()
      ensures forall t :: t in old(activeSegments) ==> t.Shape() == old(t.Shape())
      ensures placed != null && old(terrainPool.free) != [] ==> placed == old(terrainPool.free[0])
      ensures placed == null || old(terrainPool.free) != [] ==> terrainPool.All == old(terrainPool.All)
      ensures placed != null && old(terrainPool.free) == [] ==>
        terrainPool.All == old(terrainPool.All) + {placed} && fresh(placed)
      ensures terrainPool.free ==
        if placed == null || old(terrainPool.free) == [] then old(terrainPool.free) else old(terrainPool.free[1..])
    {
      placed := null;
      if |activeSegments| < MaxSegments {
        GenerateNextSegment();
        placed := activeSegments[|activeSegments| - 1];
      }
    }

    /** The second half of Update: hand the front segment back to the pool
        if its origin lies left of -segmentWidth. */
    method RetireIfBehind(ghost front: int) returns (ghost retired: TerrainSegment?)
      requires Valid() && front == firstPlaced
      modifies this, terrainPool, terrainPool.All
      ensures Valid() && spawned == old(spawned)
      ensures retired != null <==> old(activeSegments) != [] && OriginX(settings, front) < -settings.segmentWidth
      ensures retired != null ==> retired == old(activeSegments[0]) && activeSegments == old(activeSegments[1..])
      ensures retired == null ==> activeSegments == old(activeSegments)
      ensures retired != null ==> !retired.active && retired.Cleared()
      ensures forall t :: t in old(activeSegments) && t != retired ==>
        t.Shape() == old(t.Shape()) && t.position == old(t.position)
      ensures terrainPool.All == old(terrainPool.All)
      ensures terrainPool.free == old(terrainPool.free) + (if retired == null then [] else [retired])
      ensures settings.segmentWidth >= 0.0 ==> retired == null
    {
      retired := null;
      if |activeSegments| > 0 {
        var firstSegment := activeSegments[0];
        assert Placed(firstSegment, firstPlaced);
        if settings.segmentWidth >= 0.0 {
          NoRetirement(settings, front);
        }
        if firstSegment.position.x < -settings.segmentWidth {
          terrainPool.Membership();
          RetireFront();
          retired := firstSegment;
        }
      }
    }

    /** Hand the front segment back to the pool and drop it from the list. */
    method RetireFront()
      requires Valid() && activeSegments != []
      modifies this, terrainPool, activeSegments[0]
      ensures Valid() && spawned == old(spawned)
      ensures activeSegments == old(activeSegments[1..])
      ensures terrainPool.All == old(terrainPool.All)
      ensures terrainPool.free == old(terrainPool.free) + [old(activeSegments[0])]
      ensures !old(activeSegments[0]).active && old(activeSegments[0]).Cleared()
    {
      ghost var rest := activeSegments[1..];
      ghost var k := firstPlaced + 1;
      ReleaseFront(rest);
      assert forall i :: 0 <= i < |rest| ==> Placed(rest[i], k + i);
      DropFront(rest, k);
    }

    /** ReturnSegment(activeSegments[0]): the pool takes the front segment
        back and resets it; the list itself and the segments behind the
        front keep their state. */
    method ReleaseFront(ghost rest: seq<TerrainSegment>)
      requires terrainPool.Valid() && terrainPool.enabled
      requires activeSegments != [] && terrainPool.active == activeSegments
      requires rest == activeSegments[1..]
      modifies terrainPool, activeSegments[0]
      ensures terrainPool.Valid() && terrainPool.enabled && terrainPool.active == rest
      ensures forall i :: 0 <= i < |rest| ==>
        rest[i].position == old(rest[i].position) &&
        rest[i].width == old(rest[i].width) && rest[i].height == old(rest[i].height)
      ensures terrainPool.All == old(terrainPool.All)
      ensures terrainPool.free == old(terrainPool.free) + [activeSegments[0]]
      ensures !activeSegments[0].active && activeSegments[0].Cleared()
    {
      var firstSegment := activeSegments[0];
      terrainPool.FrontUnique();
      assert forall i :: 0 <= i < |rest| ==> rest[i] != firstSegment;
      assert firstSegment in activeSegments;
      terrainPool.ReturnSegment(firstSegment);
      RemoveFront(activeSegments);
    }

    /** RemoveAt(0): drop the front of the list, which the pool has already
        taken back. */
    method DropFront(ghost rest: seq<TerrainSegment>, ghost k: nat)
      requires terrainPool.Valid() && terrainPool.enabled && terrainPool.maxPoolSize >= 1
      requires settings.pointsPerSegment >= 2
      requires activeSegments != [] && rest == activeSegments[1..] && terrainPool.active == rest
      requires k == firstPlaced + 1 && firstPlaced + |activeSegments| == spawned
      requires currentX == OriginX(settings, spawned) && noiseOffset == OffsetAt(settings, spawned)
      requires forall i :: 0 <= i < |rest| ==> Placed(rest[i], k + i)
      modifies this`activeSegments, this`firstPlaced
      ensures Valid() && activeSegments == old(activeSegments[1..])
    {
      activeSegments := activeSegments[1..];
      firstPlaced := firstPlaced + 1;
    }

    /** Return every segment to the pool, rewind currentX and noiseOffset and
        place the initial segments again: the layout is the one Start
        produces. */
    method Reset()
      requires Valid()
      modifies this, terrainPool, terrainPool.All
      ensures InitialLayout()
      ensures old(terrainPool.All) <= terrainPool.All
      ensures |old(terrainPool.All)| >= MaxSegments ==>
        terrainPool.All == old(terrainPool.All) &&
        activeSegments + terrainPool.free == old(terrainPool.free) + old(terrainPool.active)
    {
      Rewind();
      ghost var queue := terrainPool.free;
      GenerateInitialTerrain();
      assert |activeSegments| == MaxSegments && firstPlaced == 0;
      assert forall k :: 0 <= k < |activeSegments| ==> Sampled(activeSegments[k], firstPlaced + k);
      LayoutAfterInitialTerrain();
      SplitAt(queue, MaxSegments);
    }

    /** The first half of Reset: every segment goes back to the pool, the
        list is cleared and currentX and noiseOffset are rewound. */
    method Rewind()
      requires Valid()
      modifies this`activeSegments, this`currentX, this`noiseOffset, this`spawned, this`firstPlaced
      modifies terrainPool, terrainPool.All
      ensures Valid() && spawned == 0 && firstPlaced == 0 && activeSegments == []
      ensures terrainPool.All == old(terrainPool.All)
      ensures terrainPool.free == old(terrainPool.free) + old(terrainPool.active)
      ensures |terrainPool.free| == |terrainPool.All|
    {
      terrainPool.Membership();
      terrainPool.ReturnAllSegments();
      terrainPool.Partition();
      activeSegments := [];
      currentX := 0.0;
      noiseOffset := 0.0;
      spawned, firstPlaced := 0, 0;
    }
  }
}
