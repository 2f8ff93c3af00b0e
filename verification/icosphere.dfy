/** The topology of `IcosphereGenerator` (Assets/IcosphereGenerator.cs): the
    base icosahedron, the midpoint cache and the subdivision passes. Vertex
    positions are an abstract type `V`; only the bookkeeping of indices,
    cache entries and triangle lists is exact. */
module Icosphere {
  import opened Results
  import opened Keys
  import opened BaseShape

  /** The numeric side of a vertex, left uninterpreted: `corner(i)` is the
      i-th golden-ratio corner already multiplied by `scale`, `project` is
      `ProjectToUnitSphere` (normalise, then multiply by `scale`) and
      `average` is the coordinate-wise mean of two points. */
  datatype Geometry<!V> = Geometry(corner: int -> V, project: V -> V, average: (V, V) -> V)

  /** The generator's `vertices` list and `middlePointIndexCache`. */
  datatype Builder<V> = Builder(vertices: seq<V>, cache: map<int, int>)

  /** What `MiddlePoint` leaves behind and the index it returns. */
  datatype Midpoint<V> = Midpoint(builder: Builder<V>, index: int)

  /** The builder together with a flattened triangle index list. */
  datatype Stage<V> = Stage(builder: Builder<V>, triangles: seq<int>)

  /** A vertex list with a flattened triangle index list. */
  datatype Shape<V> = Shape(vertices: seq<V>, triangles: seq<int>)

  /** A read of a list with `n` entries at position `p` does not throw. */
  predicate InRange(p: int, n: int) {
    0 <= p < n
  }

  /** Every entry of a triangle index list names one of `n` vertices. */
  ghost predicate IndicesBelow(tris: seq<int>, n: int) {
    forall i :: 0 <= i < |tris| ==> 0 <= tris[i] < n
  }

  /** `small` is contained in `large` with the same values: cache entries are
      never overwritten or removed. */
  ghost predicate Extends(small: map<int, int>, large: map<int, int>) {
    forall k :: k in small ==> k in large && large[k] == small[k]
  }

  /** The builder state every subdivision keeps: the cache sends each of its
      edges to a distinct vertex appended after the first `corners`, and there
      are exactly as many appended vertices as cached edges. */
  ghost predicate Valid<V>(s: Builder<V>, corners: int) {
    && 0 <= corners
    && |s.vertices| == corners + |s.cache|
    && (forall k :: k in s.cache ==> corners <= s.cache[k] < |s.vertices|)
    && (forall k1, k2 :: k1 in s.cache && k2 in s.cache && s.cache[k1] == s.cache[k2] ==> k1 == k2)
  }

  /** `n` index entries make a whole number of triangles. Stated by
      recursion, three entries at a time, as the loops of `Subdivide` consume
      them; `WholeIsMultiple` relates it to divisibility. */
  predicate Whole(n: int)
    decreases n
  {
    n == 0 || (n >= 3 && Whole(n - 3))
  }

  /** A whole number of triangles is exactly a non-negative multiple of
      three. */
  lemma {:induction false} WholeIsMultiple(n: int)
    ensures Whole(n) <==> n >= 0 && n % 3 == 0
    decreases if n < 0 then 0 else n
  {
    if n >= 3 {
      WholeIsMultiple(n - 3);
    }
  }

  // ---------------------------------------------------------------------
  // CreateShape

  /** `CreateShape`: twelve corners and the fixed 20-triangle list. */
  function CreateShape<V>(g: Geometry<V>): (s: Shape<V>)
    ensures |s.vertices| == CORNERS
    ensures forall i :: 0 <= i < CORNERS ==> s.vertices[i] == g.corner(i)
    ensures |s.triangles| == 3 * FACES
    ensures IndicesBelow(s.triangles, CORNERS)
  {
    BaseTrianglesShape();
    Shape(seq(CORNERS, i => g.corner(i)), BASE_TRIANGLES)
  }

  // ---------------------------------------------------------------------
  // MiddlePoint

  /** `AddVertex`: appends the projection of `point`. */
  function AddVertex<V>(g: Geometry<V>, vertices: seq<V>, point: V): seq<V> {
    vertices + [g.project(point)]
  }

  /** `MiddlePoint(p1, p2)`: the index of the vertex halfway along the edge
      from `p1` to `p2`, looked up in the cache first. */
  function MiddlePoint<V>(g: Geometry<V>, s: Builder<V>, p1: int, p2: int): Result<Midpoint<V>>
  {
    var key := EdgeKey(p1, p2);
    if key in s.cache then
      Ok(Midpoint(s, s.cache[key]))
    else if !InRange(p1, |s.vertices|) || !InRange(p2, |s.vertices|) then
      Err(IndexOutOfRange)
    else
      var point1, point2 := s.vertices[p1], s.vertices[p2];
      var middle := g.average(point1, point2);
      var vertices := AddVertex(g, s.vertices[p1 := g.project(point1)][p2 := g.project(point2)], middle);
      Ok(Midpoint(Builder(vertices, s.cache[key := |vertices| - 1]), |vertices| - 1))
  }

  /** A cache hit returns the cached index and changes nothing. */
  lemma MiddlePointHit<V>(g: Geometry<V>, s: Builder<V>, p1: int, p2: int)
    requires EdgeKey(p1, p2) in s.cache
    ensures MiddlePoint(g, s, p1, p2) == Ok(Midpoint(s, s.cache[EdgeKey(p1, p2)]))
  {
  }

  /** A successful call always leaves the edge cached with the returned
      index, keeps every earlier entry, and adds a vertex exactly when it adds
      a cache entry. */
  lemma MiddlePointCaches<V>(g: Geometry<V>, s: Builder<V>, p1: int, p2: int)
    requires MiddlePoint(g, s, p1, p2).Ok?
    ensures var m := MiddlePoint(g, s, p1, p2).value;
      && EdgeKey(p1, p2) in m.builder.cache
      && m.builder.cache[EdgeKey(p1, p2)] == m.index
      && Extends(s.cache, m.builder.cache)
      && m.builder.cache.Keys == s.cache.Keys + {EdgeKey(p1, p2)}
      && |m.builder.vertices| - |m.builder.cache| == |s.vertices| - |s.cache|
  {
  }

  /** On a cache miss the call throws exactly when an endpoint is out of
      range; otherwise it appends exactly one vertex, the projected average of
      the two endpoints, returns the old vertex count as its index, caches
      that index under the edge's key, and changes no other vertex than the
      two endpoints, which it re-projects in place. */
  lemma MiddlePointMiss<V>(g: Geometry<V>, s: Builder<V>, p1: int, p2: int)
    requires EdgeKey(p1, p2) !in s.cache
    ensures var r := MiddlePoint(g, s, p1, p2);
      r.Ok? <==> InRange(p1, |s.vertices|) && InRange(p2, |s.vertices|)
    ensures var r := MiddlePoint(g, s, p1, p2);
      r.Ok? ==>
      var n, after := |s.vertices|, r.value.builder.vertices;
      && r.value.index == n
      && |after| == n + 1
      && r.value.builder.cache == s.cache[EdgeKey(p1, p2) := n]
      && after[n] == g.project(g.average(s.vertices[p1], s.vertices[p2]))
      && after[p1] == g.project(s.vertices[p1])
      && after[p2] == g.project(s.vertices[p2])
      && forall i :: 0 <= i < n && i != p1 && i != p2 ==> after[i] == s.vertices[i]
  {
  }

  /** Asking for the same edge again, in either direction, is a cache hit
      that returns the same vertex and changes nothing: a shared edge gets one
      midpoint. */
  lemma MiddlePointReused<V>(g: Geometry<V>, s: Builder<V>, p1: int, p2: int)
    requires MiddlePoint(g, s, p1, p2).Ok?
    ensures var m := MiddlePoint(g, s, p1, p2).value;
      && MiddlePoint(g, m.builder, p1, p2) == Ok(m)
      && MiddlePoint(g, m.builder, p2, p1) == Ok(m)
  {
    KeySymmetric(p1, p2);
  }

  /** `MiddlePoint` keeps the builder invariant, never shrinks the vertex
      list, returns an index below the new vertex count, and succeeds
      whenever both endpoints exist. */
  lemma MiddlePointKeepsValid<V>(g: Geometry<V>, s: Builder<V>, corners: int, p1: int, p2: int)
    requires Valid(s, corners)
    requires InRange(p1, |s.vertices|) && InRange(p2, |s.vertices|)
    ensures MiddlePoint(g, s, p1, p2).Ok?
    ensures var m := MiddlePoint(g, s, p1, p2).value;
      && Valid(m.builder, corners)
      && |s.vertices| <= |m.builder.vertices|
      && 0 <= m.index < |m.builder.vertices|
  {
    var key := EdgeKey(p1, p2);
    if key !in s.cache {
      var m := MiddlePoint(g, s, p1, p2).value;
      var n := |s.vertices|;
      forall k1, k2 | k1 in m.builder.cache && k2 in m.builder.cache && m.builder.cache[k1] == m.builder.cache[k2]
        ensures k1 == k2
      {
        if k1 != key && k2 != key {
          assert s.cache[k1] == s.cache[k2];
        }
      }
    }
  }

  // ---------------------------------------------------------------------
  // One subdivision pass

  /** The cache keys of the three edges of a triangle, in the order
      `MiddlePoint` is asked for them. */
  function FaceKeys(v1: int, v2: int, v3: int): set<int> {
    {EdgeKey(v1, v2), EdgeKey(v2, v3), EdgeKey(v3, v1)}
  }

  /** The cache keys of every edge of every whole triangle of the list. */
  function EdgeKeys(tris: seq<int>): set<int>
    decreases |tris|
  {
    if |tris| < 3 then {} else FaceKeys(tris[0], tris[1], tris[2]) + EdgeKeys(tris[3..])
  }

  /** The edges (v1, v2), (v2, v3), (v3, v1) of a triangle, in the order the
      inner loop of `Subdivide` asks for their midpoints. */
  function Sides(v1: int, v2: int, v3: int): seq<(int, int)> {
    [(v1, v2), (v2, v3), (v3, v1)]
  }

  /** The cache keys of a list of edges. */
  function KeysOf(edges: seq<(int, int)>): set<int>
    decreases |edges|
  {
    if |edges| == 0 then {} else {EdgeKey(edges[0].0, edges[0].1)} + KeysOf(edges[1..])
  }

  /** The keys of a triangle's sides are the keys of its edges. */
  lemma SidesKeys(v1: int, v2: int, v3: int)
    ensures KeysOf(Sides(v1, v2, v3)) == FaceKeys(v1, v2, v3)
  {
    var e := Sides(v1, v2, v3);
    assert e[1..] == [(v2, v3), (v3, v1)];
    assert e[1..][1..] == [(v3, v1)];
    assert KeysOf(e[1..][1..]) == {EdgeKey(v3, v1)} + KeysOf([]);
  }

  /** The builder after a run of `MiddlePoint` calls, and the indices the
      calls returned. */
  datatype Batch<V> = Batch(builder: Builder<V>, indices: seq<int>)

  /** `MiddlePoint` for each edge in turn, each call seeing the builder the
      previous one left; the first exception ends the run. */
  function MiddlePoints<V>(g: Geometry<V>, s: Builder<V>, edges: seq<(int, int)>): (r: Result<Batch<V>>)
    ensures r.Ok? ==> |r.value.indices| == |edges|
    decreases |edges|
  {
    if |edges| == 0 then
      Ok(Batch(s, []))
    else
      match MiddlePoint(g, s, edges[0].0, edges[0].1)
      case Err(fault) => Err(fault)
      case Ok(m) =>
        match MiddlePoints(g, m.builder, edges[1..])
        case Err(fault) => Err(fault)
        case Ok(rest) => Ok(Batch(rest.builder, [m.index] + rest.indices))
  }

  /** A successful run keeps every earlier cache entry. */
  lemma {:induction false} MiddlePointsExtends<V>(g: Geometry<V>, s: Builder<V>, edges: seq<(int, int)>)
    requires MiddlePoints(g, s, edges).Ok?
    ensures Extends(s.cache, MiddlePoints(g, s, edges).value.builder.cache)
    decreases |edges|
  {
    if |edges| > 0 {
      MiddlePointCaches(g, s, edges[0].0, edges[0].1);
      MiddlePointsExtends(g, MiddlePoint(g, s, edges[0].0, edges[0].1).value.builder, edges[1..]);
    }
  }

  /** A successful run caches exactly the earlier keys and the keys of its
      edges. */
  lemma {:induction false} MiddlePointsCaches<V>(g: Geometry<V>, s: Builder<V>, edges: seq<(int, int)>)
    requires MiddlePoints(g, s, edges).Ok?
    ensures MiddlePoints(g, s, edges).value.builder.cache.Keys == s.cache.Keys + KeysOf(edges)
    decreases |edges|
  {
    if |edges| > 0 {
      MiddlePointCaches(g, s, edges[0].0, edges[0].1);
      MiddlePointsCaches(g, MiddlePoint(g, s, edges[0].0, edges[0].1).value.builder, edges[1..]);
    }
  }

  /** A successful run adds one vertex per new cache entry. */
  lemma {:induction false} MiddlePointsCount<V>(g: Geometry<V>, s: Builder<V>, edges: seq<(int, int)>)
    requires MiddlePoints(g, s, edges).Ok?
    ensures var b := MiddlePoints(g, s, edges).value.builder;
      |b.vertices| - |b.cache| == |s.vertices| - |s.cache|
    decreases |edges|
  {
    if |edges| > 0 {
      MiddlePointCaches(g, s, edges[0].0, edges[0].1);
      MiddlePointsCount(g, MiddlePoint(g, s, edges[0].0, edges[0].1).value.builder, edges[1..]);
    }
  }

  /** After a successful run the cache holds, for every edge of the run, the
      index returned for it. */
  lemma {:induction false} MiddlePointsIndices<V>(g: Geometry<V>, s: Builder<V>, edges: seq<(int, int)>)
    requires MiddlePoints(g, s, edges).Ok?
    ensures var b := MiddlePoints(g, s, edges).value;
      forall i :: 0 <= i < |edges| ==>
        && EdgeKey(edges[i].0, edges[i].1) in b.builder.cache
        && b.builder.cache[EdgeKey(edges[i].0, edges[i].1)] == b.indices[i]
    decreases |edges|
  {
    if |edges| > 0 {
      MiddlePointCaches(g, s, edges[0].0, edges[0].1);
      var m := MiddlePoint(g, s, edges[0].0, edges[0].1).value;
      MiddlePointsIndices(g, m.builder, edges[1..]);
      MiddlePointsExtends(g, m.builder, edges[1..]);
      var rest := MiddlePoints(g, m.builder, edges[1..]).value;
      var b := MiddlePoints(g, s, edges).value;
      assert b == Batch(rest.builder, [m.index] + rest.indices);
      forall i | 0 <= i < |edges|
        ensures EdgeKey(edges[i].0, edges[i].1) in b.builder.cache
        ensures b.builder.cache[EdgeKey(edges[i].0, edges[i].1)] == b.indices[i]
      {
        if i > 0 {
          assert edges[i] == edges[1..][i - 1];
        }
      }
    }
  }

  /** A run over edges whose endpoints exist succeeds, keeps the builder
      invariant, never shrinks the vertex list and returns existing
      indices. */
  lemma {:induction false} MiddlePointsKeepValid<V>(g: Geometry<V>, s: Builder<V>, corners: int, edges: seq<(int, int)>)
    requires Valid(s, corners)
    requires forall i :: 0 <= i < |edges| ==> InRange(edges[i].0, |s.vertices|) && InRange(edges[i].1, |s.vertices|)
    ensures MiddlePoints(g, s, edges).Ok?
    ensures var b := MiddlePoints(g, s, edges).value;
      && Valid(b.builder, corners)
      && |s.vertices| <= |b.builder.vertices|
      && forall i :: 0 <= i < |b.indices| ==> InRange(b.indices[i], |b.builder.vertices|)
    decreases |edges|
  {
    if |edges| > 0 {
      MiddlePointKeepsValid(g, s, corners, edges[0].0, edges[0].1);
      var m := MiddlePoint(g, s, edges[0].0, edges[0].1).value;
      assert forall i :: 0 <= i < |edges[1..]| ==> edges[1..][i] == edges[i + 1];
      MiddlePointsKeepValid(g, m.builder, corners, edges[1..]);
      var rest := MiddlePoints(g, m.builder, edges[1..]).value;
      assert MiddlePoints(g, s, edges).value == Batch(rest.builder, [m.index] + rest.indices);
    }
  }

  /** The three midpoints of one triangle and the builder after computing
      them. */
  datatype Split<V> = Split(builder: Builder<V>, a: int, b: int, c: int)

  /** The body of the inner loop of `Subdivide` up to the list of children:
      a = mid(v1, v2), b = mid(v2, v3), c = mid(v3, v1), in that order. */
  function SplitFace<V>(g: Geometry<V>, s: Builder<V>, v1: int, v2: int, v3: int): Result<Split<V>>
  {
    var b :- MiddlePoints(g, s, Sides(v1, v2, v3));
    Ok(Split(b.builder, b.indices[0], b.indices[1], b.indices[2]))
  }

  /** Splitting a triangle leaves each of its three edges cached with the
      midpoint returned for it. */
  lemma SplitFaceMidpoints<V>(g: Geometry<V>, s: Builder<V>, v1: int, v2: int, v3: int)
    requires SplitFace(g, s, v1, v2, v3).Ok?
    ensures var f := SplitFace(g, s, v1, v2, v3).value;
      && FaceKeys(v1, v2, v3) <= f.builder.cache.Keys
      && f.builder.cache[EdgeKey(v1, v2)] == f.a
      && f.builder.cache[EdgeKey(v2, v3)] == f.b
      && f.builder.cache[EdgeKey(v3, v1)] == f.c
  {
    var e := Sides(v1, v2, v3);
    MiddlePointsIndices(g, s, e);
    assert e[0] == (v1, v2) && e[1] == (v2, v3) && e[2] == (v3, v1);
  }

  /** Splitting a triangle keeps earlier cache entries, adds exactly the keys
      of its edges, and adds a vertex exactly when it adds a cache entry. */
  lemma SplitFaceCaches<V>(g: Geometry<V>, s: Builder<V>, v1: int, v2: int, v3: int)
    requires SplitFace(g, s, v1, v2, v3).Ok?
    ensures var f := SplitFace(g, s, v1, v2, v3).value;
      && Extends(s.cache, f.builder.cache)
      && f.builder.cache.Keys == s.cache.Keys + FaceKeys(v1, v2, v3)
      && |f.builder.vertices| - |f.builder.cache| == |s.vertices| - |s.cache|
  {
    var e := Sides(v1, v2, v3);
    MiddlePointsExtends(g, s, e);
    MiddlePointsCaches(g, s, e);
    MiddlePointsCount(g, s, e);
    SidesKeys(v1, v2, v3);
  }

  /** The four triangles that replace (v1, v2, v3) given its midpoints
      a = mid(v1, v2), b = mid(v2, v3), c = mid(v3, v1). */
  function Children(v1: int, v2: int, v3: int, a: int, b: int, c: int): seq<int> {
    [v1, a, c, v2, b, a, v3, c, b, a, b, c]
  }

  /** One iteration of the outer loop of `Subdivide`: every triangle, in list
      order, is split and replaced by its four children. A list whose length
      is not a multiple of three makes the read of `triangles[j + 1]` or
      `triangles[j + 2]` throw. */
  function Pass<V>(g: Geometry<V>, s: Builder<V>, tris: seq<int>): (r: Result<Stage<V>>)
    ensures r.Ok? ==> Whole(|tris|) && |r.value.triangles| == 4 * |tris|
    decreases |tris|
  {
    if |tris| == 0 then
      Ok(Stage(s, []))
    else if |tris| < 3 then
      Err(IndexOutOfRange)
    else
      var v1, v2, v3 := tris[0], tris[1], tris[2];
      var f :- SplitFace(g, s, v1, v2, v3);
      var rest :- Pass(g, f.builder, tris[3..]);
      Ok(Stage(rest.builder, Children(v1, v2, v3, f.a, f.b, f.c) + rest.triangles))
  }

  /** A pass keeps every earlier cache entry. */
  lemma {:induction false} PassExtends<V>(g: Geometry<V>, s: Builder<V>, tris: seq<int>)
    requires Pass(g, s, tris).Ok?
    ensures Extends(s.cache, Pass(g, s, tris).value.builder.cache)
    decreases |tris|
  {
    if |tris| > 0 {
      SplitFaceCaches(g, s, tris[0], tris[1], tris[2]);
      PassExtends(g, SplitFace(g, s, tris[0], tris[1], tris[2]).value.builder, tris[3..]);
    }
  }

  /** A pass caches exactly the earlier keys and the keys of every edge of
      every triangle. */
  lemma {:induction false} PassCaches<V>(g: Geometry<V>, s: Builder<V>, tris: seq<int>)
    requires Pass(g, s, tris).Ok?
    ensures Pass(g, s, tris).value.builder.cache.Keys == s.cache.Keys + EdgeKeys(tris)
    decreases |tris|
  {
    if |tris| > 0 {
      SplitFaceCaches(g, s, tris[0], tris[1], tris[2]);
      PassCaches(g, SplitFace(g, s, tris[0], tris[1], tris[2]).value.builder, tris[3..]);
    }
  }

  /** A pass adds exactly one vertex per edge it newly caches: a shared edge
      costs one vertex, however many triangles share it. */
  lemma {:induction false} PassCount<V>(g: Geometry<V>, s: Builder<V>, tris: seq<int>)
    requires Pass(g, s, tris).Ok?
    ensures var after := Pass(g, s, tris).value.builder;
      |after.vertices| - |after.cache| == |s.vertices| - |s.cache|
    decreases |tris|
  {
    if |tris| > 0 {
      SplitFaceCaches(g, s, tris[0], tris[1], tris[2]);
      PassCount(g, SplitFace(g, s, tris[0], tris[1], tris[2]).value.builder, tris[3..]);
    }
  }

  /** The children of every triangle of `tris`, in parent order, with each
      midpoint read from `cache`. */
  function Refine(tris: seq<int>, cache: map<int, int>): seq<int>
    requires EdgeKeys(tris) <= cache.Keys
    decreases |tris|
  {
    if |tris| < 3 then []
    else
      var v1, v2, v3 := tris[0], tris[1], tris[2];
      var a, b, c := cache[EdgeKey(v1, v2)], cache[EdgeKey(v2, v3)], cache[EdgeKey(v3, v1)];
      Children(v1, v2, v3, a, b, c) + Refine(tris[3..], cache)
  }

  /** A pass replaces each parent triangle, in order, by its four children,
      each midpoint being the one vertex the final cache holds for that
      edge. */
  lemma {:induction false} PassRefines<V>(g: Geometry<V>, s: Builder<V>, tris: seq<int>)
    requires Pass(g, s, tris).Ok?
    ensures var r := Pass(g, s, tris).value;
      EdgeKeys(tris) <= r.builder.cache.Keys && r.triangles == Refine(tris, r.builder.cache)
    decreases |tris|
  {
    if |tris| > 0 {
      var v1, v2, v3 := tris[0], tris[1], tris[2];
      SplitFaceMidpoints(g, s, v1, v2, v3);
      var f := SplitFace(g, s, v1, v2, v3).value;
      PassRefines(g, f.builder, tris[3..]);
      PassExtends(g, f.builder, tris[3..]);
    }
  }

  /** Splitting a triangle whose corners exist succeeds, keeps the builder
      invariant, and yields midpoints that exist. */
  lemma SplitFaceKeepsValid<V>(g: Geometry<V>, s: Builder<V>, corners: int, v1: int, v2: int, v3: int)
    requires Valid(s, corners)
    requires InRange(v1, |s.vertices|) && InRange(v2, |s.vertices|) && InRange(v3, |s.vertices|)
    ensures SplitFace(g, s, v1, v2, v3).Ok?
    ensures var f := SplitFace(g, s, v1, v2, v3).value;
      && Valid(f.builder, corners)
      && |s.vertices| <= |f.builder.vertices|
      && InRange(f.a, |f.builder.vertices|)
      && InRange(f.b, |f.builder.vertices|)
      && InRange(f.c, |f.builder.vertices|)
  {
    MiddlePointsKeepValid(g, s, corners, Sides(v1, v2, v3));
  }

  /** The children of a triangle use only its corners and midpoints. */
  lemma ChildrenBelow(v1: int, v2: int, v3: int, a: int, b: int, c: int, n: int)
    requires InRange(v1, n) && InRange(v2, n) && InRange(v3, n)
    requires InRange(a, n) && InRange(b, n) && InRange(c, n)
    ensures IndicesBelow(Children(v1, v2, v3, a, b, c), n)
  {
  }

  /** Joining two lists whose indices exist gives a list whose indices
      exist. */
  lemma IndicesBelowConcat(xs: seq<int>, ys: seq<int>, n: int)
    requires IndicesBelow(xs, n) && IndicesBelow(ys, n)
    ensures IndicesBelow(xs + ys, n)
  {
  }

  /** A pass over a whole-triangle list whose indices all exist succeeds,
      keeps the builder invariant and never shrinks the vertex list. */
  lemma {:induction false} PassValid<V>(g: Geometry<V>, s: Builder<V>, corners: int, tris: seq<int>)
    requires Valid(s, corners)
    requires Whole(|tris|) && IndicesBelow(tris, |s.vertices|)
    ensures Pass(g, s, tris).Ok?
    ensures var r := Pass(g, s, tris).value;
      Valid(r.builder, corners) && |s.vertices| <= |r.builder.vertices|
    decreases |tris|
  {
    if |tris| > 0 {
      var v1, v2, v3 := tris[0], tris[1], tris[2];
      SplitFaceKeepsValid(g, s, corners, v1, v2, v3);
      var f := SplitFace(g, s, v1, v2, v3).value;
      assert IndicesBelow(tris[3..], |f.builder.vertices|);
      PassValid(g, f.builder, corners, tris[3..]);
    }
  }

  /** Refining a list whose indices exist, with a cache whose values exist,
      gives a list whose indices exist. */
  lemma {:induction false} RefineBelow(tris: seq<int>, cache: map<int, int>, n: int)
    requires EdgeKeys(tris) <= cache.Keys
    requires IndicesBelow(tris, n)
    requires forall k :: k in cache ==> InRange(cache[k], n)
    ensures IndicesBelow(Refine(tris, cache), n)
    decreases |tris|
  {
    if |tris| >= 3 {
      var v1, v2, v3 := tris[0], tris[1], tris[2];
      assert IndicesBelow(tris[3..], n);
      RefineBelow(tris[3..], cache, n);
      var a, b, c := cache[EdgeKey(v1, v2)], cache[EdgeKey(v2, v3)], cache[EdgeKey(v3, v1)];
      ChildrenBelow(v1, v2, v3, a, b, c, n);
      IndicesBelowConcat(Children(v1, v2, v3, a, b, c), Refine(tris[3..], cache), n);
    }
  }

  /** A pass over a whole-triangle list whose indices all exist succeeds, keeps
      the builder invariant, and yields triangles whose indices all exist. */
  lemma PassKeepsValid<V>(g: Geometry<V>, s: Builder<V>, corners: int, tris: seq<int>)
    requires Valid(s, corners)
    requires Whole(|tris|) && IndicesBelow(tris, |s.vertices|)
    ensures Pass(g, s, tris).Ok?
    ensures var r := Pass(g, s, tris).value;
      && Valid(r.builder, corners)
      && |s.vertices| <= |r.builder.vertices|
      && IndicesBelow(r.triangles, |r.builder.vertices|)
  {
    PassValid(g, s, corners, tris);
    PassRefines(g, s, tris);
    var r := Pass(g, s, tris).value;
    RefineBelow(tris, r.builder.cache, |r.builder.vertices|);
  }

  // ---------------------------------------------------------------------
  // Subdivide and GenerateMesh

  /** 4^n, and 1 for every n <= 0. */
  function Pow4(n: int): (p: int)
    ensures p >= 1
    decreases n
  {
    if n <= 0 then 1 else 4 * Pow4(n - 1)
  }

  /** Four times a whole number of triangles is a whole number of triangles. */
  lemma WholeTimesFour(n: int)
    requires Whole(n)
    ensures Whole(4 * n)
  {
    WholeIsMultiple(n);
    WholeIsMultiple(4 * n);
  }

  /** Multiplying by four and then by 4^(n-1) is multiplying by 4^n. */
  lemma Pow4Step(x: int, n: int)
    requires n > 0
    ensures (4 * x) * Pow4(n - 1) == x * Pow4(n)
  {
  }

  /** `Subdivide`: `limit` passes in a row (none when `limit <= 0`), each
      reading the triangle list the previous one produced; the midpoint cache
      is carried from pass to pass. */
  function Subdivide<V>(g: Geometry<V>, s: Builder<V>, tris: seq<int>, limit: int): (r: Result<Stage<V>>)
    ensures limit <= 0 ==> r == Ok(Stage(s, tris))
    decreases limit
  {
    if limit <= 0 then
      Ok(Stage(s, tris))
    else
      var next :- Pass(g, s, tris);
      Subdivide(g, next.builder, next.triangles, limit - 1)
  }

  /** Each pass multiplies the length of the triangle list by four. */
  lemma {:induction false} SubdivideCount<V>(g: Geometry<V>, s: Builder<V>, tris: seq<int>, limit: int)
    requires Subdivide(g, s, tris, limit).Ok?
    ensures |Subdivide(g, s, tris, limit).value.triangles| == |tris| * Pow4(limit)
    decreases limit
  {
    if limit > 0 {
      var next := Pass(g, s, tris).value;
      SubdivideCount(g, next.builder, next.triangles, limit - 1);
      Pow4Step(|tris|, limit);
    }
  }

  /** Subdividing a whole-triangle list whose indices all exist succeeds and
      keeps both invariants: every triangle index and every cache value names
      an existing vertex. */
  lemma {:induction false} SubdivideKeepsValid<V>(g: Geometry<V>, s: Builder<V>, corners: int, tris: seq<int>, limit: int)
    requires Valid(s, corners)
    requires Whole(|tris|) && IndicesBelow(tris, |s.vertices|)
    ensures Subdivide(g, s, tris, limit).Ok?
    ensures var r := Subdivide(g, s, tris, limit).value;
      && Valid(r.builder, corners)
      && Whole(|r.triangles|)
      && |s.vertices| <= |r.builder.vertices|
      && IndicesBelow(r.triangles, |r.builder.vertices|)
    decreases limit
  {
    if limit > 0 {
      var next := SubdivideStep(g, s, corners, tris, limit);
      SubdivideKeepsValid(g, next.builder, corners, next.triangles, limit - 1);
    }
  }

  /** The first of `limit` passes, as the stage the remaining passes start
      from. */
  lemma SubdivideStep<V>(g: Geometry<V>, s: Builder<V>, corners: int, tris: seq<int>, limit: int)
    returns (next: Stage<V>)
    requires limit > 0
    requires Valid(s, corners)
    requires Whole(|tris|) && IndicesBelow(tris, |s.vertices|)
    ensures Subdivide(g, s, tris, limit) == Subdivide(g, next.builder, next.triangles, limit - 1)
    ensures Valid(next.builder, corners) && Whole(|next.triangles|)
    ensures |s.vertices| <= |next.builder.vertices|
    ensures IndicesBelow(next.triangles, |next.builder.vertices|)
  {
    PassKeepsValid(g, s, corners, tris);
    next := Pass(g, s, tris).value;
    WholeTimesFour(|tris|);
  }

  /** `GenerateMesh`: a fresh cache, `CreateShape`, then `Subdivide`. */
  function GenerateMesh<V>(g: Geometry<V>, subdivisionLimit: int): Result<Stage<V>>
  {
    var shape := CreateShape(g);
    Subdivide(g, Builder(shape.vertices, map[]), shape.triangles, subdivisionLimit)
  }

  /** Mesh generation never throws. The result has 60 * 4^d triangle
      indices for d = max(0, subdivisionLimit), every one naming an existing
      vertex; the vertices are the 12 corners plus one per cached edge, each
      cached edge owning a distinct one of them. */
  lemma GenerateMeshWellFormed<V>(g: Geometry<V>, subdivisionLimit: int)
    ensures GenerateMesh(g, subdivisionLimit).Ok?
    ensures var r := GenerateMesh(g, subdivisionLimit).value;
      && |r.triangles| == 3 * FACES * Pow4(subdivisionLimit)
      && IndicesBelow(r.triangles, |r.builder.vertices|)
      && Valid(r.builder, CORNERS)
    ensures subdivisionLimit <= 0 ==>
      var r := GenerateMesh(g, subdivisionLimit).value;
      && r.builder.vertices == CreateShape(g).vertices
      && r.builder.cache == map[]
      && r.triangles == BASE_TRIANGLES
  {
    var shape := CreateShape(g);
    WholeIsMultiple(|shape.triangles|);
    SubdivideKeepsValid(g, Builder(shape.vertices, map[]), CORNERS, shape.triangles, subdivisionLimit);
    SubdivideCount(g, Builder(shape.vertices, map[]), shape.triangles, subdivisionLimit);
  }
}
