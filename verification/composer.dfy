/** `ProceduralGenerator.Generate` (Assets/ProceduralGenerator.cs:19-46):
    every shape generator displaces its own copy of the icosphere's vertices,
    and the displacements are added onto the base vertices one generator
    after another. Coordinates are reals; the generators themselves are
    arbitrary functions from a vertex array to the array they leave behind. */
module Composer {
  import opened Results

  /** A `Vector3`, with exact arithmetic. */
  datatype Vec = Vec(x: real, y: real, z: real)

  const ZERO: Vec := Vec(0.0, 0.0, 0.0)

  /** `Vector3` addition. */
  function Add(a: Vec, b: Vec): Vec {
    Vec(a.x + b.x, a.y + b.y, a.z + b.z)
  }

  /** `ShapeGenerator.Generate(ref vertices)`: whatever array the generator
      leaves in its `ref` parameter, given the array it was handed. */
  type Generator = seq<Vec> -> seq<Vec>

  /** The vertices and triangle indices held by the mesh. */
  datatype MeshData = MeshData(vertices: seq<Vec>, triangles: seq<int>)

  /** Every generator leaves at least as many entries as the base has: the
      accumulation loop reads entries 0 up to the base length of each. */
  predicate Covers(base: seq<Vec>, generators: seq<Generator>) {
    forall k :: 0 <= k < |generators| ==> |base| <= |generators[k](base)|
  }

  /** The sum, over the generators in list order, of what each one leaves at
      position `i` when handed the base array. */
  function Displacement(base: seq<Vec>, generators: seq<Generator>, i: int): Vec
    requires Covers(base, generators) && 0 <= i < |base|
    decreases |generators|
  {
    if |generators| == 0 then ZERO
    else
      var last := |generators| - 1;
      Add(Displacement(base, generators[..last], i), generators[last](base)[i])
  }

  /** The vertices the mesh receives: each base vertex plus its
      displacement. */
  function Composed(base: seq<Vec>, generators: seq<Generator>): (heights: seq<Vec>)
    requires Covers(base, generators)
    ensures |heights| == |base|
  {
    seq(|base|, i requires 0 <= i < |base| => Add(base[i], Displacement(base, generators, i)))
  }

  /** `Generate`. `active` is `gameObject.activeInHierarchy`, `sphere` the
      icosphere generator's vertex list and `mesh` the shared mesh as found.
      `after` is the mesh after the call and `r` says whether the call
      returned normally or threw. The mesh is untouched when inactive, and
      rewritten only once every generator has run, so that an exception in
      the loop leaves it as it was. */
  method Generate(active: bool, generators: seq<Generator>, sphere: seq<Vec>, mesh: MeshData)
    returns (after: MeshData, r: Result<()>)
    ensures !active ==> r.Ok? && after == mesh
    ensures active ==> (r.Ok? <==> Covers(sphere, generators))
    ensures r.Err? ==> after == mesh
    ensures active && r.Ok? ==> after == MeshData(Composed(sphere, generators), mesh.triangles)
  {
    if !active {
      return mesh, Ok(());
    }
    var vertices := sphere;
    var heights := vertices;
    var k := 0;
    while k < |generators|
      invariant 0 <= k <= |generators|
      invariant Covers(vertices, generators[..k])
      invariant |heights| == |vertices|
      invariant forall i :: 0 <= i < |vertices| ==>
        heights[i] == Add(vertices[i], Displacement(vertices, generators[..k], i))
    {
      var current := generators[k](vertices);
      var before := heights;
      var i := 0;
      while i < |vertices|
        invariant 0 <= i <= |vertices|
        invariant i <= |current|
        invariant |heights| == |vertices|
        invariant forall j :: 0 <= j < i ==> heights[j] == Add(before[j], current[j])
        invariant forall j :: i <= j < |vertices| ==> heights[j] == before[j]
      {
        if i >= |current| {
          assert !Covers(sphere, generators) by {
            assert |vertices| > |generators[k](vertices)|;
          }
          return mesh, Err(IndexOutOfRange);
        }
        heights := heights[i := Add(heights[i], current[i])];
        i := i + 1;
      }
      assert generators[..k + 1] == generators[..k] + [generators[k]];
      assert generators[..k + 1][..k] == generators[..k];
      CoversConcat(vertices, generators[..k], [generators[k]]);
      k := k + 1;
    }
    assert generators[..k] == generators;
    var tris := mesh.triangles;
    after, r := MeshData(heights, tris), Ok(());
  }

  // ---------------------------------------------------------------------
  // Properties of the composition

  /** With no generators the mesh receives the base vertices unchanged. */
  lemma ComposedEmpty(base: seq<Vec>)
    ensures Composed(base, []) == base
  {
  }

  /** A generator appended to the list adds what it leaves, given the base,
      onto the previous result. */
  lemma ComposedAppend(base: seq<Vec>, generators: seq<Generator>, g: Generator)
    requires Covers(base, generators + [g])
    ensures Covers(base, generators)
    ensures var before, after := Composed(base, generators), Composed(base, generators + [g]);
      forall i :: 0 <= i < |base| ==> after[i] == Add(before[i], g(base)[i])
  {
    var all := generators + [g];
    assert all[..|all| - 1] == generators;
    assert Covers(base, generators) by {
      forall k | 0 <= k < |generators| ensures |base| <= |generators[k](base)| {
        assert generators[k] == all[k];
      }
    }
  }

  /** A concatenation covers exactly when both parts do. */
  lemma CoversConcat(base: seq<Vec>, front: seq<Generator>, back: seq<Generator>)
    ensures Covers(base, front + back) <==> Covers(base, front) && Covers(base, back)
  {
    var all := front + back;
    if Covers(base, all) {
      forall k | 0 <= k < |front| ensures |base| <= |front[k](base)| {
        assert front[k] == all[k];
      }
      forall k | 0 <= k < |back| ensures |base| <= |back[k](base)| {
        assert back[k] == all[|front| + k];
      }
    }
    if Covers(base, front) && Covers(base, back) {
      forall k | 0 <= k < |all| ensures |base| <= |all[k](base)| {
        if k < |front| {
          assert all[k] == front[k];
        } else {
          assert all[k] == back[k - |front|];
        }
      }
    }
  }

  /** The displacement of a concatenated list is the sum of the two lists'
      displacements. */
  lemma {:induction false} DisplacementConcat(base: seq<Vec>, front: seq<Generator>, back: seq<Generator>, i: int)
    requires Covers(base, front) && Covers(base, back) && 0 <= i < |base|
    ensures Covers(base, front + back)
    ensures Displacement(base, front + back, i) == Add(Displacement(base, front, i), Displacement(base, back, i))
    decreases |back|
  {
    CoversConcat(base, front, back);
    if |back| == 0 {
      assert front + back == front;
    } else {
      var last := |back| - 1;
      var all := front + back;
      CoversConcat(base, back[..last], [back[last]]);
      assert back[..last] + [back[last]] == back;
      DisplacementConcat(base, front, back[..last], i);
      assert all[..|all| - 1] == front + back[..last];
      assert all[|all| - 1] == back[last];
    }
  }

  /** Running one list of generators and then another gives what running
      them the other way round gives. */
  lemma ComposedOrderFree(base: seq<Vec>, front: seq<Generator>, back: seq<Generator>)
    requires Covers(base, front + back)
    ensures Covers(base, back + front)
    ensures Composed(base, front + back) == Composed(base, back + front)
  {
    CoversConcat(base, front, back);
    CoversConcat(base, back, front);
    forall i | 0 <= i < |base|
      ensures Displacement(base, front + back, i) == Displacement(base, back + front, i)
    {
      DisplacementConcat(base, front, back, i);
      DisplacementConcat(base, back, front, i);
    }
  }

  /** Swapping two neighbouring generators changes nothing; since adjacent
      swaps reach every reordering, over exact arithmetic the order of the
      generators does not matter. */
  lemma ComposedSwap(base: seq<Vec>, front: seq<Generator>, g: Generator, h: Generator, back: seq<Generator>)
    requires Covers(base, front + [g, h] + back)
    ensures Covers(base, front + [h, g] + back)
    ensures Composed(base, front + [g, h] + back) == Composed(base, front + [h, g] + back)
  {
    var gh, hg := [g, h], [h, g];
    CoversConcat(base, front + gh, back);
    CoversConcat(base, front, gh);
    CoversConcat(base, [g], [h]);
    CoversConcat(base, [h], [g]);
    assert [g] + [h] == gh && [h] + [g] == hg;
    CoversConcat(base, front, hg);
    CoversConcat(base, front + hg, back);
    forall i | 0 <= i < |base|
      ensures Displacement(base, front + gh + back, i) == Displacement(base, front + hg + back, i)
    {
      DisplacementConcat(base, front + gh, back, i);
      DisplacementConcat(base, front, gh, i);
      DisplacementConcat(base, front + hg, back, i);
      DisplacementConcat(base, front, hg, i);
      DisplacementConcat(base, [g], [h], i);
      DisplacementConcat(base, [h], [g], i);
    }
  }

  /** The generator that leaves its array as it found it. */
  function Unchanged(vertices: seq<Vec>): seq<Vec>
  {
    vertices
  }

  /** Every generator is handed the base array and not the running sum: two
      generators that leave their input unchanged give three times the base,
      where handing on the running sum would give four times. */
  lemma FreshCopyPerGenerator(base: seq<Vec>)
    ensures Covers(base, [Unchanged, Unchanged])
    ensures forall i :: 0 <= i < |base| ==>
      Composed(base, [Unchanged, Unchanged])[i] == Add(base[i], Add(base[i], base[i]))
  {
    var gens: seq<Generator> := [Unchanged, Unchanged];
    assert gens[..1] == [Unchanged] && gens[..1][..0] == [];
    forall i | 0 <= i < |base|
      ensures Displacement(base, gens, i) == Add(base[i], base[i])
    {
      assert Displacement(base, gens[..1][..0], i) == ZERO;
      assert Displacement(base, gens[..1], i) == Add(ZERO, base[i]);
    }
  }

  /** The generator that leaves `offset` at every position of an array as
      long as the one it was handed. */
  function Constant(offset: Vec): Generator {
    vertices => seq(|vertices|, _ => offset)
  }

  /** Two generators that each leave a constant vector displace every base
      vertex by the sum of the two, in whichever order they are listed. */
  lemma ComposedConstants(base: seq<Vec>, o1: Vec, o2: Vec)
    ensures Covers(base, [Constant(o1), Constant(o2)])
    ensures Covers(base, [Constant(o2), Constant(o1)])
    ensures forall i :: 0 <= i < |base| ==>
      Composed(base, [Constant(o1), Constant(o2)])[i] == Add(base[i], Add(o1, o2))
    ensures Composed(base, [Constant(o1), Constant(o2)]) == Composed(base, [Constant(o2), Constant(o1)])
  {
    var gens: seq<Generator> := [Constant(o1), Constant(o2)];
    assert gens[..1] == [Constant(o1)] && gens[..1][..0] == [];
    forall i | 0 <= i < |base|
      ensures Displacement(base, gens, i) == Add(o1, o2)
    {
      assert Displacement(base, gens[..1][..0], i) == ZERO;
      assert Displacement(base, gens[..1], i) == Add(ZERO, o1);
    }
    assert [Constant(o1)] + [Constant(o2)] == gens;
    assert [Constant(o2)] + [Constant(o1)] == [Constant(o2), Constant(o1)];
    ComposedOrderFree(base, [Constant(o1)], [Constant(o2)]);
  }
}
