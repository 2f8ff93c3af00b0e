/** The edges of the base icosahedron and what the first subdivision pass
    does with them (Assets/IcosphereGenerator.cs:70-92, 106-135, 143-171).
    The 30 edges are listed once, sorted, together with the faces that use
    them; every claim about the tables is checked against `BaseFace`. */
module BaseEdges {
  import opened Keys
  import opened BaseShape
  import opened Icosphere

  /** Number of edges of the icosahedron. */
  const EDGES: int := 30

  /** Edge `e` as (smaller corner, greater corner), in increasing order. */
  function EdgeAt(e: int): (int, int)
  {
    match e
    case 0 => (0, 1)
    case 1 => (0, 2)
    case 2 => (0, 6)
    case 3 => (0, 7)
    case 4 => (0, 9)
    case 5 => (1, 2)
    case 6 => (1, 3)
    case 7 => (1, 7)
    case 8 => (1, 8)
    case 9 => (2, 3)
    case 10 => (2, 5)
    case 11 => (2, 9)
    case 12 => (3, 4)
    case 13 => (3, 5)
    case 14 => (3, 8)
    case 15 => (4, 5)
    case 16 => (4, 8)
    case 17 => (4, 10)
    case 18 => (4, 11)
    case 19 => (5, 9)
    case 20 => (5, 11)
    case 21 => (6, 7)
    case 22 => (6, 9)
    case 23 => (6, 10)
    case 24 => (6, 11)
    case 25 => (7, 8)
    case 26 => (7, 10)
    case 27 => (8, 10)
    case 28 => (9, 11)
    case 29 => (10, 11)
    case _ => (0, 0)
  }

  /** The table positions of the edges (v1, v2), (v2, v3), (v3, v1) of base
      triangle `j`: the three edges `Subdivide` asks `MiddlePoint` for. */
  function FaceEdges(j: int): (int, int, int)
  {
    match j
    case 0 => (5, 0, 1)
    case 1 => (5, 9, 6)
    case 2 => (15, 12, 13)
    case 3 => (16, 14, 12)
    case 4 => (21, 2, 3)
    case 5 => (22, 4, 2)
    case 6 => (29, 17, 18)
    case 7 => (29, 24, 23)
    case 8 => (19, 10, 11)
    case 9 => (19, 28, 20)
    case 10 => (25, 7, 8)
    case 11 => (25, 27, 26)
    case 12 => (10, 13, 9)
    case 13 => (8, 6, 14)
    case 14 => (11, 1, 4)
    case 15 => (7, 3, 0)
    case 16 => (28, 22, 24)
    case 17 => (26, 23, 21)
    case 18 => (20, 18, 15)
    case 19 => (27, 16, 17)
    case _ => (0, 0, 0)
  }

  /** The two base triangles that share edge `e`. */
  function EdgeFaces(e: int): (int, int)
  {
    match e
    case 0 => (0, 15)
    case 1 => (0, 14)
    case 2 => (4, 5)
    case 3 => (4, 15)
    case 4 => (5, 14)
    case 5 => (0, 1)
    case 6 => (1, 13)
    case 7 => (10, 15)
    case 8 => (10, 13)
    case 9 => (1, 12)
    case 10 => (8, 12)
    case 11 => (8, 14)
    case 12 => (2, 3)
    case 13 => (2, 12)
    case 14 => (3, 13)
    case 15 => (2, 18)
    case 16 => (3, 19)
    case 17 => (6, 19)
    case 18 => (6, 18)
    case 19 => (8, 9)
    case 20 => (9, 18)
    case 21 => (4, 17)
    case 22 => (5, 16)
    case 23 => (7, 17)
    case 24 => (7, 16)
    case 25 => (10, 11)
    case 26 => (11, 17)
    case 27 => (11, 19)
    case 28 => (9, 16)
    case 29 => (6, 7)
    case _ => (0, 0)
  }

  /** Both ends of an edge are corners of triangle `t`. */
  predicate OnFace(edge: (int, int), t: (int, int, int)) {
    && (edge.0 == t.0 || edge.0 == t.1 || edge.0 == t.2)
    && (edge.1 == t.0 || edge.1 == t.1 || edge.1 == t.2)
  }

  /** The corners `p` and `q`, smaller first. */
  function Sorted(p: int, q: int): (int, int) {
    (Low(p, q), High(p, q))
  }

  /** The table lists 30 distinct edges between distinct corners, in
      increasing order. */
  lemma EdgeTable(e: int)
    requires 0 <= e < EDGES
    ensures 0 <= EdgeAt(e).0 < EdgeAt(e).1 < CORNERS
    ensures e > 0 ==> EdgeAt(e - 1).0 < EdgeAt(e).0 || (EdgeAt(e - 1).0 == EdgeAt(e).0 && EdgeAt(e - 1).1 < EdgeAt(e).1)
  {
  }

  /** Each side of each base triangle is a listed edge, at the position
      `FaceEdges` names. */
  lemma FaceEdgesListed(j: int)
    requires 0 <= j < FACES
    ensures var t, f := BaseFace(j), FaceEdges(j);
      && 0 <= f.0 < EDGES && 0 <= f.1 < EDGES && 0 <= f.2 < EDGES
      && EdgeAt(f.0) == Sorted(t.0, t.1)
      && EdgeAt(f.1) == Sorted(t.1, t.2)
      && EdgeAt(f.2) == Sorted(t.2, t.0)
  {
  }

  /** Every edge lies on exactly two base triangles, the two that
      `EdgeFaces` names. */
  lemma EdgeSharedByTwo(e: int, j: int)
    requires 0 <= e < EDGES && 0 <= j < FACES
    ensures 0 <= EdgeFaces(e).0 < FACES && 0 <= EdgeFaces(e).1 < FACES
    ensures EdgeFaces(e).0 != EdgeFaces(e).1
    ensures OnFace(EdgeAt(e), BaseFace(j)) <==> j == EdgeFaces(e).0 || j == EdgeFaces(e).1
  {
  }

  /** The key of edge `e` of the table. */
  function KeyOf(e: int): int {
    EdgeKey(EdgeAt(e).0, EdgeAt(e).1)
  }

  /** The keys of table edges 0 up to, not including, `n`. */
  function TableKeys(n: int): set<int>
    decreases n
  {
    if n <= 0 then {} else TableKeys(n - 1) + {KeyOf(n - 1)}
  }

  /** Table keys increase with the position: the smaller corner sits in the
      high half of the key. */
  lemma KeyOfIncreasing(e: int)
    requires 0 < e < EDGES
    ensures KeyOf(e - 1) < KeyOf(e)
  {
    EdgeTable(e);
    EdgeTable(e - 1);
    KeyExact(EdgeAt(e - 1).0, EdgeAt(e - 1).1);
    KeyExact(EdgeAt(e).0, EdgeAt(e).1);
  }

  /** The first `n` table keys are `n` distinct numbers, none above the
      last of them. */
  lemma {:induction false} TableKeysCount(n: int)
    requires 0 <= n <= EDGES
    ensures |TableKeys(n)| == n
    ensures forall x :: x in TableKeys(n) ==> x <= KeyOf(n - 1)
    decreases n
  {
    if n > 0 {
      TableKeysCount(n - 1);
      if n > 1 {
        KeyOfIncreasing(n - 1);
      }
      assert KeyOf(n - 1) !in TableKeys(n - 1);
    }
  }

  lemma {:induction false} TableKeysHas(e: int, n: int)
    requires 0 <= e < n
    ensures KeyOf(e) in TableKeys(n)
    decreases n
  {
    if e < n - 1 {
      TableKeysHas(e, n - 1);
    }
  }

  /** The keys of the sides of a base triangle are table keys. */
  lemma FaceKeysListed(j: int)
    requires 0 <= j < FACES
    ensures var t := BaseFace(j); FaceKeys(t.0, t.1, t.2) <= TableKeys(EDGES)
  {
    var t, f := BaseFace(j), FaceEdges(j);
    FaceEdgesListed(j);
    KeyOfSorted(t.0, t.1);
    KeyOfSorted(t.1, t.2);
    KeyOfSorted(t.2, t.0);
    TableKeysHas(f.0, EDGES);
    TableKeysHas(f.1, EDGES);
    TableKeysHas(f.2, EDGES);
  }

  /** Triangle `j` of a flattened triangle index list. */
  function Face(tris: seq<int>, j: int): (int, int, int)
    requires 0 <= j && 3 * j + 2 < |tris|
  {
    (tris[3 * j], tris[3 * j + 1], tris[3 * j + 2])
  }

  /** The edge keys of a list lie within `bound` when those of each of its
      triangles do. */
  lemma {:induction false} EdgeKeysWithin(tris: seq<int>, bound: set<int>)
    requires forall j :: 0 <= j && 3 * j + 2 < |tris| ==> var t := Face(tris, j); FaceKeys(t.0, t.1, t.2) <= bound
    ensures EdgeKeys(tris) <= bound
    decreases |tris|
  {
    if |tris| >= 3 {
      var rest := tris[3..];
      forall j | 0 <= j && 3 * j + 2 < |rest|
        ensures var t := Face(rest, j); FaceKeys(t.0, t.1, t.2) <= bound
      {
        assert Face(rest, j) == Face(tris, j + 1);
      }
      EdgeKeysWithin(rest, bound);
      assert Face(tris, 0) == (tris[0], tris[1], tris[2]);
    }
  }

  /** Every triangle of a list contributes its keys to the list's edge
      keys. */
  lemma {:induction false} EdgeKeysHas(tris: seq<int>, j: int)
    requires 0 <= j && 3 * j + 2 < |tris|
    ensures var t := Face(tris, j); FaceKeys(t.0, t.1, t.2) <= EdgeKeys(tris)
    decreases j
  {
    if j > 0 {
      EdgeKeysHas(tris[3..], j - 1);
      assert Face(tris[3..], j - 1) == Face(tris, j);
    }
  }

  /** Triangle `j` of the flattened base list is `BaseFace(j)`. */
  lemma BaseFaceAt(j: int)
    requires 0 <= j < FACES
    ensures 3 * j + 2 < |BASE_TRIANGLES|
    ensures Face(BASE_TRIANGLES, j) == BaseFace(j)
  {
    BaseTrianglesShape();
    ThirdOf(j);
    assert BASE_TRIANGLES[3 * j] == BaseIndex(3 * j);
    assert BASE_TRIANGLES[3 * j + 1] == BaseIndex(3 * j + 1);
    assert BASE_TRIANGLES[3 * j + 2] == BaseIndex(3 * j + 2);
  }

  /** Entries 3j, 3j + 1 and 3j + 2 belong to triangle j. */
  lemma ThirdOf(j: int)
    ensures (3 * j) / 3 == j && (3 * j) % 3 == 0
    ensures (3 * j + 1) / 3 == j && (3 * j + 1) % 3 == 1
    ensures (3 * j + 2) / 3 == j && (3 * j + 2) % 3 == 2
  {
  }

  /** Every edge key of the base list is a table key. */
  lemma BaseKeysListed()
    ensures EdgeKeys(BASE_TRIANGLES) <= TableKeys(EDGES)
  {
    BaseTrianglesShape();
    forall j | 0 <= j && 3 * j + 2 < |BASE_TRIANGLES|
      ensures var t := Face(BASE_TRIANGLES, j); FaceKeys(t.0, t.1, t.2) <= TableKeys(EDGES)
    {
      BaseFaceAt(j);
      FaceKeysListed(j);
    }
    EdgeKeysWithin(BASE_TRIANGLES, TableKeys(EDGES));
  }

  /** Edge `e` is one of the three sides `FaceEdges` lists for the first
      triangle `EdgeFaces` names for it. */
  lemma EdgeOnFirstFace(e: int)
    requires 0 <= e < EDGES
    ensures 0 <= EdgeFaces(e).0 < FACES
    ensures var f := FaceEdges(EdgeFaces(e).0); e == f.0 || e == f.1 || e == f.2
  {
  }

  /** The key of table edge `e` is a key of a side of a base triangle. */
  lemma EdgeKeyUsed(e: int)
    requires 0 <= e < EDGES
    ensures 0 <= EdgeFaces(e).0 < FACES
    ensures var t := BaseFace(EdgeFaces(e).0); KeyOf(e) in FaceKeys(t.0, t.1, t.2)
  {
    EdgeOnFirstFace(e);
    var j := EdgeFaces(e).0;
    var t := BaseFace(j);
    FaceEdgesListed(j);
    KeyOfSorted(t.0, t.1);
    KeyOfSorted(t.1, t.2);
    KeyOfSorted(t.2, t.0);
  }

  /** The first `n` table keys lie within `bound` when each of them does. */
  lemma {:induction false} TableKeysWithin(n: int, bound: set<int>)
    requires forall e :: 0 <= e < n ==> KeyOf(e) in bound
    ensures TableKeys(n) <= bound
    decreases n
  {
    if n > 0 {
      TableKeysWithin(n - 1, bound);
    }
  }

  /** The key of table edge `e` is an edge key of the base list. */
  lemma EdgeKeyInBase(e: int)
    requires 0 <= e < EDGES
    ensures KeyOf(e) in EdgeKeys(BASE_TRIANGLES)
  {
    EdgeKeyUsed(e);
    var j := EdgeFaces(e).0;
    BaseFaceAt(j);
    EdgeKeysHas(BASE_TRIANGLES, j);
  }

  /** The base list has exactly the 30 listed edges. */
  lemma BaseEdgeKeys()
    ensures EdgeKeys(BASE_TRIANGLES) == TableKeys(EDGES)
    ensures |EdgeKeys(BASE_TRIANGLES)| == EDGES
  {
    BaseKeysListed();
    forall e | 0 <= e < EDGES
      ensures KeyOf(e) in EdgeKeys(BASE_TRIANGLES)
    {
      EdgeKeyInBase(e);
    }
    TableKeysWithin(EDGES, EdgeKeys(BASE_TRIANGLES));
    TableKeysCount(EDGES);
  }

  /** `GenerateMesh` with one subdivision: the cache gets one entry per
      edge, so the 12 corners gain exactly 30 midpoints, and the 20 triangles
      become 80. */
  lemma OnePass<V>(g: Geometry<V>)
    ensures GenerateMesh(g, 1).Ok?
    ensures var r := GenerateMesh(g, 1).value;
      && |r.builder.cache| == EDGES
      && |r.builder.vertices| == CORNERS + EDGES == 42
      && |r.triangles| == 3 * 80
  {
    GenerateMeshWellFormed(g, 1);
    var shape := CreateShape(g);
    var s := Builder(shape.vertices, map[]);
    PassCaches(g, s, shape.triangles);
    PassCount(g, s, shape.triangles);
    BaseEdgeKeys();
  }
}
