/** The fixed icosahedron that `CreateShape` starts from
    (Assets/IcosphereGenerator.cs:55-92). */
module BaseShape {

  /** Number of vertices `CreateShape` appends. */
  const CORNERS: int := 12

  /** Number of triangles in the base list. */
  const FACES: int := 20

  /** Triangle `j` of the hard-coded list, in the list literal's order and
      winding. Written as a table so that the verifier can evaluate it at
      literal positions. */
  function BaseFace(j: int): (int, int, int)
  {
    match j
    case 0 => (2, 1, 0)
    case 1 => (1, 2, 3)
    case 2 => (5, 4, 3)
    case 3 => (4, 8, 3)
    case 4 => (7, 6, 0)
    case 5 => (6, 9, 0)
    case 6 => (11, 10, 4)
    case 7 => (10, 11, 6)
    case 8 => (9, 5, 2)
    case 9 => (5, 9, 11)
    case 10 => (8, 7, 1)
    case 11 => (7, 8, 10)
    case 12 => (2, 5, 3)
    case 13 => (8, 1, 3)
    case 14 => (9, 2, 0)
    case 15 => (1, 7, 0)
    case 16 => (11, 9, 6)
    case 17 => (7, 10, 6)
    case 18 => (5, 11, 4)
    case 19 => (10, 8, 4)
    case _ => (0, 0, 0)
  }

  /** Entry `i` of the flattened triangle index list. */
  function BaseIndex(i: int): int
  {
    var t := BaseFace(i / 3);
    if i % 3 == 0 then t.0 else if i % 3 == 1 then t.1 else t.2
  }

  /** The 60-entry triangle index list built by `CreateShape`. */
  const BASE_TRIANGLES: seq<int> := seq(3 * FACES, i => BaseIndex(i))

  /** The base list has 20 triangles and names only the 12 corners. */
  lemma BaseTrianglesShape()
    ensures |BASE_TRIANGLES| == 3 * FACES == 60
    ensures forall i :: 0 <= i < |BASE_TRIANGLES| ==> 0 <= BASE_TRIANGLES[i] < CORNERS
  {
  }
}
