/** The mesh `Chunk::buildMesh` builds from a chunk's blocks, as a function of
    the block grid.

    The cells are visited with x outer, y in the middle and z inner. A cell
    holding AIR adds nothing; any other cell adds, in the order TOP, BOTTOM,
    RIGHT, LEFT, FRONT, BACK, one quad of six vertices for every side whose
    neighbour `isAir` (a neighbour outside the chunk counts as air). A vertex
    is seven numbers: world position, texture coordinates, face and block. */
module Mesher {
  import opened Blocks

  /** A snapshot of `blocks[16][32][16]`, indexed g[x][y][z]. */
  type Grid = seq<seq<seq<Block>>>

  predicate WellFormed(g: Grid) {
    && |g| == ChunkWidth
    && (forall x :: 0 <= x < ChunkWidth ==> |g[x]| == ChunkHeight)
    && (forall x, y :: 0 <= x < ChunkWidth && 0 <= y < ChunkHeight ==> |g[x][y]| == ChunkWidth)
  }

  /** `isAir`: every cell outside the chunk counts as air. */
  predicate IsAirAt(g: Grid, x: int, y: int, z: int)
    requires WellFormed(g)
  {
    !InChunk(x, y, z) || g[x][y][z] == Air
  }

  /** The sides of a block, with the values of the C++ enumerators. */
  datatype Face = Top | Bottom | Front | Back | Left | Right {
    function Id(): (n: nat)
      ensures n < 6
    {
      match this
      case Top => 0
      case Bottom => 1
      case Front => 2
      case Back => 3
      case Left => 4
      case Right => 5
    }

    /** The offset of the neighbour `buildMesh` tests before adding this side. */
    function Normal(): (int, int, int) {
      match this
      case Top => (0, 1, 0)
      case Bottom => (0, -1, 0)
      case Front => (0, 0, 1)
      case Back => (0, 0, -1)
      case Left => (-1, 0, 0)
      case Right => (1, 0, 0)
    }
  }

  const AllFaces: set<Face> := {Top, Bottom, Front, Back, Left, Right}

  /** The `localPos` table: corner n of the two triangles of a side, as an
      offset from the block's lower corner. */
  function Corner(f: Face, n: int): (int, int, int)
    requires 0 <= n < 6
  {
    match f
    case Top => (match n case 0 => (1, 1, 0) case 1 => (0, 1, 0) case 2 => (0, 1, 1) case 3 => (0, 1, 1) case 4 => (1, 1, 1) case _ => (1, 1, 0))
    case Bottom => (match n case 0 => (1, 0, 0) case 1 => (1, 0, 1) case 2 => (0, 0, 1) case 3 => (0, 0, 1) case 4 => (0, 0, 0) case _ => (1, 0, 0))
    case Front => (match n case 0 => (1, 1, 1) case 1 => (0, 1, 1) case 2 => (0, 0, 1) case 3 => (0, 0, 1) case 4 => (1, 0, 1) case _ => (1, 1, 1))
    case Back => (match n case 0 => (0, 1, 0) case 1 => (1, 1, 0) case 2 => (1, 0, 0) case 3 => (1, 0, 0) case 4 => (0, 0, 0) case _ => (0, 1, 0))
    case Left => (match n case 0 => (0, 1, 1) case 1 => (0, 1, 0) case 2 => (0, 0, 0) case 3 => (0, 0, 0) case 4 => (0, 0, 1) case _ => (0, 1, 1))
    case Right => (match n case 0 => (1, 1, 0) case 1 => (1, 1, 1) case 2 => (1, 0, 1) case 3 => (1, 0, 1) case 4 => (1, 0, 0) case _ => (1, 1, 0))
  }

  /** The `localUv` table, shared by all sides. */
  function Uv(n: int): (int, int)
    requires 0 <= n < 6
  {
    match n case 0 => (1, 1) case 1 => (0, 1) case 2 => (0, 0) case 3 => (0, 0) case 4 => (1, 0) case _ => (1, 1)
  }

  function Dot(a: (int, int, int), b: (int, int, int)): int {
    a.0 * b.0 + a.1 * b.1 + a.2 * b.2
  }

  function Minus(a: (int, int, int), b: (int, int, int)): (int, int, int) {
    (a.0 - b.0, a.1 - b.1, a.2 - b.2)
  }

  function Cross(a: (int, int, int), b: (int, int, int)): (int, int, int) {
    (a.1 * b.2 - a.2 * b.1, a.2 * b.0 - a.0 * b.2, a.0 * b.1 - a.1 * b.0)
  }

  /** Each side's corners lie on the unit square facing the neighbour that
      was tested: coordinate 1 along a positive normal, 0 along a negative
      one, and 0 or 1 across it. */
  lemma CornersFaceTheTestedNeighbour(f: Face, n: int)
    requires 0 <= n < 6
    ensures var c, d := Corner(f, n), f.Normal();
      && (d.0 == 1 ==> c.0 == 1) && (d.0 == -1 ==> c.0 == 0)
      && (d.1 == 1 ==> c.1 == 1) && (d.1 == -1 ==> c.1 == 0)
      && (d.2 == 1 ==> c.2 == 1) && (d.2 == -1 ==> c.2 == 0)
      && 0 <= c.0 <= 1 && 0 <= c.1 <= 1 && 0 <= c.2 <= 1
  {
  }

  /** The triangle of corners a, b, c of side f winds counter-clockwise seen
      from the neighbour side f faces. */
  predicate WindsOutwards(f: Face, a: int, b: int, c: int)
    requires 0 <= a < 6 && 0 <= b < 6 && 0 <= c < 6
  {
    Dot(Cross(Minus(Corner(f, b), Corner(f, a)), Minus(Corner(f, c), Corner(f, a))), f.Normal()) > 0
  }

  /** Both triangles of every side wind counter-clockwise seen from the
      tested neighbour, so the renderer's back-face culling keeps exactly the
      sides that look out of the block; the second triangle starts where the
      first ended and ends where the first began, so they share a diagonal. */
  lemma SidesWindOutwards(f: Face)
    ensures WindsOutwards(f, 0, 1, 2) && WindsOutwards(f, 3, 4, 5)
    ensures Corner(f, 3) == Corner(f, 2) && Corner(f, 5) == Corner(f, 0)
  {
    match f
    case Top => TopWindsOutwards();
    case Bottom => BottomWindsOutwards();
    case Front => FrontWindsOutwards();
    case Back => BackWindsOutwards();
    case Left => LeftWindsOutwards();
    case Right => RightWindsOutwards();
  }

  lemma TopWindsOutwards()
    ensures WindsOutwards(Top, 0, 1, 2) && WindsOutwards(Top, 3, 4, 5)
    ensures Corner(Top, 3) == Corner(Top, 2) && Corner(Top, 5) == Corner(Top, 0)
  {
    assert Corner(Top, 0) == (1, 1, 0);
    assert Corner(Top, 1) == (0, 1, 0);
    assert Corner(Top, 2) == (0, 1, 1);
    assert Corner(Top, 3) == (0, 1, 1);
    assert Corner(Top, 4) == (1, 1, 1);
    assert Corner(Top, 5) == (1, 1, 0);
  }

  lemma BottomWindsOutwards()
    ensures WindsOutwards(Bottom, 0, 1, 2) && WindsOutwards(Bottom, 3, 4, 5)
    ensures Corner(Bottom, 3) == Corner(Bottom, 2) && Corner(Bottom, 5) == Corner(Bottom, 0)
  {
    assert Corner(Bottom, 0) == (1, 0, 0);
    assert Corner(Bottom, 1) == (1, 0, 1);
    assert Corner(Bottom, 2) == (0, 0, 1);
    assert Corner(Bottom, 3) == (0, 0, 1);
    assert Corner(Bottom, 4) == (0, 0, 0);
    assert Corner(Bottom, 5) == (1, 0, 0);
  }

  lemma FrontWindsOutwards()
    ensures WindsOutwards(Front, 0, 1, 2) && WindsOutwards(Front, 3, 4, 5)
    ensures Corner(Front, 3) == Corner(Front, 2) && Corner(Front, 5) == Corner(Front, 0)
  {
    assert Corner(Front, 0) == (1, 1, 1);
    assert Corner(Front, 1) == (0, 1, 1);
    assert Corner(Front, 2) == (0, 0, 1);
    assert Corner(Front, 3) == (0, 0, 1);
    assert Corner(Front, 4) == (1, 0, 1);
    assert Corner(Front, 5) == (1, 1, 1);
  }

  lemma BackWindsOutwards()
    ensures WindsOutwards(Back, 0, 1, 2) && WindsOutwards(Back, 3, 4, 5)
    ensures Corner(Back, 3) == Corner(Back, 2) && Corner(Back, 5) == Corner(Back, 0)
  {
    assert Corner(Back, 0) == (0, 1, 0);
    assert Corner(Back, 1) == (1, 1, 0);
    assert Corner(Back, 2) == (1, 0, 0);
    assert Corner(Back, 3) == (1, 0, 0);
    assert Corner(Back, 4) == (0, 0, 0);
    assert Corner(Back, 5) == (0, 1, 0);
  }

  lemma LeftWindsOutwards()
    ensures WindsOutwards(Left, 0, 1, 2) && WindsOutwards(Left, 3, 4, 5)
    ensures Corner(Left, 3) == Corner(Left, 2) && Corner(Left, 5) == Corner(Left, 0)
  {
    assert Corner(Left, 0) == (0, 1, 1);
    assert Corner(Left, 1) == (0, 1, 0);
    assert Corner(Left, 2) == (0, 0, 0);
    assert Corner(Left, 3) == (0, 0, 0);
    assert Corner(Left, 4) == (0, 0, 1);
    assert Corner(Left, 5) == (0, 1, 1);
  }

  lemma RightWindsOutwards()
    ensures WindsOutwards(Right, 0, 1, 2) && WindsOutwards(Right, 3, 4, 5)
    ensures Corner(Right, 3) == Corner(Right, 2) && Corner(Right, 5) == Corner(Right, 0)
  {
    assert Corner(Right, 0) == (1, 1, 0);
    assert Corner(Right, 1) == (1, 1, 1);
    assert Corner(Right, 2) == (1, 0, 1);
    assert Corner(Right, 3) == (1, 0, 1);
    assert Corner(Right, 4) == (1, 0, 0);
    assert Corner(Right, 5) == (1, 1, 0);
  }

  /** One vertex as `addFace` pushes it. */
  datatype Vertex = Vertex(x: int, y: int, z: int, u: int, v: int, face: int, block: int)

  /** Vertex n of side f of the block b at local (x, y, z) in the chunk whose
      first world column is (ox, oz). */
  function FaceVertex(f: Face, n: int, x: int, y: int, z: int, b: Block, ox: int, oz: int): Vertex
    requires 0 <= n < 6
  {
    var c := Corner(f, n);
    Vertex(c.0 + x + ox, c.1 + y, c.2 + z + oz, Uv(n).0, Uv(n).1, f.Id(), b.Id())
  }

  /** The six vertices `addFace(f, x, y, z, b)` appends. */
  function FaceVertices(f: Face, x: int, y: int, z: int, b: Block, ox: int, oz: int): seq<Vertex> {
    [FaceVertex(f, 0, x, y, z, b, ox, oz), FaceVertex(f, 1, x, y, z, b, ox, oz), FaceVertex(f, 2, x, y, z, b, ox, oz),
     FaceVertex(f, 3, x, y, z, b, ox, oz), FaceVertex(f, 4, x, y, z, b, ox, oz), FaceVertex(f, 5, x, y, z, b, ox, oz)]
  }

  /** Side f of cell (x, y, z) is drawn: the cell is solid and the neighbour
      across that side is air. */
  predicate Exposed(g: Grid, x: int, y: int, z: int, f: Face)
    requires WellFormed(g)
  {
    InChunk(x, y, z) && g[x][y][z] != Air
    && IsAirAt(g, x + f.Normal().0, y + f.Normal().1, z + f.Normal().2)
  }

  function SideIfExposed(g: Grid, x: int, y: int, z: int, f: Face, ox: int, oz: int): seq<Vertex>
    requires WellFormed(g) && InChunk(x, y, z)
  {
    if Exposed(g, x, y, z, f) then FaceVertices(f, x, y, z, g[x][y][z], ox, oz) else []
  }

  /** For a solid block b at (x, y, z), side f is drawn exactly when the cell
      across it is air. */
  lemma SideOfSolid(g: Grid, x: int, y: int, z: int, f: Face, b: Block, ox: int, oz: int)
    requires WellFormed(g) && InChunk(x, y, z) && g[x][y][z] == b && b != Air
    ensures IsAirAt(g, x + f.Normal().0, y + f.Normal().1, z + f.Normal().2) ==>
      SideIfExposed(g, x, y, z, f, ox, oz) == FaceVertices(f, x, y, z, b, ox, oz)
    ensures !IsAirAt(g, x + f.Normal().0, y + f.Normal().1, z + f.Normal().2) ==>
      Flatten(SideIfExposed(g, x, y, z, f, ox, oz)) == []
  {
  }

  /** What one iteration of the innermost loop of `buildMesh` appends. */
  function CellFaces(g: Grid, x: int, y: int, z: int, ox: int, oz: int): seq<Vertex>
    requires WellFormed(g) && InChunk(x, y, z)
  {
    if g[x][y][z] == Air then []
    else
      SideIfExposed(g, x, y, z, Top, ox, oz) + SideIfExposed(g, x, y, z, Bottom, ox, oz)
      + SideIfExposed(g, x, y, z, Right, ox, oz) + SideIfExposed(g, x, y, z, Left, ox, oz)
      + SideIfExposed(g, x, y, z, Front, ox, oz) + SideIfExposed(g, x, y, z, Back, ox, oz)
  }

  /** The flat vertices of a non-AIR cell, after what came before, are those
      of its exposed sides, one after the other in the order of the six tests. */
  lemma CellFacesFlatten(prefix: seq<int>, g: Grid, x: int, y: int, z: int, ox: int, oz: int)
    requires WellFormed(g) && InChunk(x, y, z) && g[x][y][z] != Air
    ensures prefix + Flatten(CellFaces(g, x, y, z, ox, oz)) ==
      prefix + Flatten(SideIfExposed(g, x, y, z, Top, ox, oz)) + Flatten(SideIfExposed(g, x, y, z, Bottom, ox, oz))
      + Flatten(SideIfExposed(g, x, y, z, Right, ox, oz)) + Flatten(SideIfExposed(g, x, y, z, Left, ox, oz))
      + Flatten(SideIfExposed(g, x, y, z, Front, ox, oz)) + Flatten(SideIfExposed(g, x, y, z, Back, ox, oz))
  {
    var top := SideIfExposed(g, x, y, z, Top, ox, oz);
    var bottom := SideIfExposed(g, x, y, z, Bottom, ox, oz);
    var right := SideIfExposed(g, x, y, z, Right, ox, oz);
    var left := SideIfExposed(g, x, y, z, Left, ox, oz);
    var front := SideIfExposed(g, x, y, z, Front, ox, oz);
    var back := SideIfExposed(g, x, y, z, Back, ox, oz);
    FlattenAppend(top, bottom);
    FlattenAppend(top + bottom, right);
    FlattenAppend(top + bottom + right, left);
    FlattenAppend(top + bottom + right + left, front);
    FlattenAppend(top + bottom + right + left + front, back);
    AppendSix(prefix, Flatten(top), Flatten(bottom), Flatten(right), Flatten(left), Flatten(front), Flatten(back));
  }

  lemma AppendSix(p: seq<int>, a: seq<int>, b: seq<int>, c: seq<int>, d: seq<int>, e: seq<int>, f: seq<int>)
    ensures p + (a + b + c + d + e + f) == p + a + b + c + d + e + f
  {
  }

  /** The vertices `buildMesh` appends from cell (x, y, z) of the visiting
      order to the end; z == 16 and y == 32 stand for the ends of the inner
      loops. */
  function MeshFrom(g: Grid, ox: int, oz: int, x: int, y: int, z: int): seq<Vertex>
    requires WellFormed(g)
    requires 0 <= x <= ChunkWidth && 0 <= y <= ChunkHeight && 0 <= z <= ChunkWidth
    decreases ChunkWidth - x, ChunkHeight - y, ChunkWidth - z
  {
    if x == ChunkWidth then []
    else if y == ChunkHeight then MeshFrom(g, ox, oz, x + 1, 0, 0)
    else if z == ChunkWidth then MeshFrom(g, ox, oz, x, y + 1, 0)
    else CellFaces(g, x, y, z, ox, oz) + MeshFrom(g, ox, oz, x, y, z + 1)
  }

  /** Appending the faces of cell (x, y, z) moves the rest of the mesh on by
      one cell. */
  lemma MeshFromStep(prefix: seq<int>, g: Grid, ox: int, oz: int, x: int, y: int, z: int)
    requires WellFormed(g) && InChunk(x, y, z)
    ensures prefix + Flatten(CellFaces(g, x, y, z, ox, oz)) + Flatten(MeshFrom(g, ox, oz, x, y, z + 1)) ==
      prefix + Flatten(MeshFrom(g, ox, oz, x, y, z))
  {
    FlattenAppend(CellFaces(g, x, y, z, ox, oz), MeshFrom(g, ox, oz, x, y, z + 1));
    AppendThree(prefix, Flatten(CellFaces(g, x, y, z, ox, oz)), Flatten(MeshFrom(g, ox, oz, x, y, z + 1)));
  }

  lemma AppendThree(p: seq<int>, a: seq<int>, b: seq<int>)
    ensures p + (a + b) == p + a + b
  {
  }

  /** The mesh of the chunk at world origin (ox, oz). */
  function Mesh(g: Grid, ox: int, oz: int): seq<Vertex>
    requires WellFormed(g)
  {
    MeshFrom(g, ox, oz, 0, 0, 0)
  }

  /** The seven numbers of a vertex, in the order `addFace` pushes them. */
  function Fields(v: Vertex): seq<int> {
    [v.x, v.y, v.z, v.u, v.v, v.face, v.block]
  }

  /** The flat `vertices` vector of a sequence of vertices. */
  function Flatten(vs: seq<Vertex>): seq<int> {
    if vs == [] then [] else Fields(vs[0]) + Flatten(vs[1..])
  }

  lemma FlattenOne(v: Vertex)
    ensures Flatten([v]) == Fields(v)
  {
    assert [v][1..] == [];
  }

  lemma {:induction false} FlattenAppend(a: seq<Vertex>, b: seq<Vertex>)
    ensures Flatten(a + b) == Flatten(a) + Flatten(b)
    decreases |a|
  {
    if a == [] {
      assert a + b == b;
    } else {
      assert (a + b)[0] == a[0];
      assert (a + b)[1..] == a[1..] + b;
      calc {
        Flatten(a + b);
        Fields(a[0]) + Flatten(a[1..] + b);
        { FlattenAppend(a[1..], b); }
        Fields(a[0]) + (Flatten(a[1..]) + Flatten(b));
        (Fields(a[0]) + Flatten(a[1..])) + Flatten(b);
      }
    }
  }

  /** The flat vector holds seven numbers per vertex, vertex n at positions
      7n to 7n + 6. */
  lemma {:induction false} FlattenLayout(vs: seq<Vertex>)
    ensures |Flatten(vs)| == 7 * |vs|
    ensures forall n :: 0 <= n < |vs| ==> Flatten(vs)[7 * n..7 * n + 7] == Fields(vs[n])
  {
    if vs != [] {
      FlattenLayout(vs[1..]);
      forall n | 0 <= n < |vs|
        ensures Flatten(vs)[7 * n..7 * n + 7] == Fields(vs[n])
      {
        if n > 0 {
          assert Flatten(vs)[7 * n..7 * n + 7] == Flatten(vs[1..])[7 * (n - 1)..7 * (n - 1) + 7];
        }
      }
    }
  }

  /** Pushing vertex n of a side extends the flat list of the first n
      vertices by that vertex's seven numbers. */
  lemma FaceVerticesStep(prefix: seq<int>, f: Face, n: int, x: int, y: int, z: int, b: Block, ox: int, oz: int)
    requires 0 <= n < 6
    ensures var quad := FaceVertices(f, x, y, z, b, ox, oz);
      prefix + Flatten(quad[..n + 1]) == prefix + Flatten(quad[..n]) + Fields(FaceVertex(f, n, x, y, z, b, ox, oz))
  {
    var quad := FaceVertices(f, x, y, z, b, ox, oz);
    assert quad[..n + 1] == quad[..n] + [quad[n]];
    FlattenAppend(quad[..n], [quad[n]]);
    FlattenOne(quad[n]);
    AppendThree(prefix, Flatten(quad[..n]), Fields(quad[n]));
  }

  // ----- Counting: six vertices per exposed side -----

  /** The position of cell (x, y, z) in the visiting order (16 * 32 cells per
      x, 16 per y). */
  function Key(x: int, y: int, z: int): int {
    x * 512 + y * 16 + z
  }

  lemma KeyInjective(x: int, y: int, z: int, x': int, y': int, z': int)
    requires InChunk(x, y, z) && InChunk(x', y', z')
    requires Key(x, y, z) == Key(x', y', z')
    ensures x == x' && y == y' && z == z'
  {
  }

  /** The exposed sides of the cells at position `from` or later in the
      visiting order. */
  function ExposedFrom(g: Grid, from: int): set<(int, int, int, Face)>
    requires WellFormed(g)
  {
    set x, y, z, f | 0 <= x < ChunkWidth && 0 <= y < ChunkHeight && 0 <= z < ChunkWidth
      && f in AllFaces && from <= Key(x, y, z) && Exposed(g, x, y, z, f) :: (x, y, z, f)
  }

  /** Every exposed side of the chunk, as (cell, side). */
  function ExposedSides(g: Grid): set<(int, int, int, Face)>
    requires WellFormed(g)
  {
    ExposedFrom(g, 0)
  }

  function CellExposed(g: Grid, x: int, y: int, z: int): set<(int, int, int, Face)>
    requires WellFormed(g)
  {
    set f | f in AllFaces && Exposed(g, x, y, z, f) :: (x, y, z, f)
  }

  function If(b: bool, e: (int, int, int, Face)): set<(int, int, int, Face)> {
    if b then {e} else {}
  }

  function One(b: bool): nat {
    if b then 1 else 0
  }

  lemma AddIf(s: set<(int, int, int, Face)>, b: bool, e: (int, int, int, Face))
    requires e !in s
    ensures |s + If(b, e)| == |s| + One(b)
  {
    if b {
      assert s + If(b, e) == s + {e};
    } else {
      assert s + If(b, e) == s;
    }
  }

  lemma CellExposedAsUnion(g: Grid, x: int, y: int, z: int)
    requires WellFormed(g) && InChunk(x, y, z)
    ensures CellExposed(g, x, y, z) ==
      If(Exposed(g, x, y, z, Top), (x, y, z, Top)) + If(Exposed(g, x, y, z, Bottom), (x, y, z, Bottom))
      + If(Exposed(g, x, y, z, Right), (x, y, z, Right)) + If(Exposed(g, x, y, z, Left), (x, y, z, Left))
      + If(Exposed(g, x, y, z, Front), (x, y, z, Front)) + If(Exposed(g, x, y, z, Back), (x, y, z, Back))
  {
  }

  /** The number of exposed sides of cell (x, y, z). */
  function ExposedCount(g: Grid, x: int, y: int, z: int): nat
    requires WellFormed(g)
  {
    One(Exposed(g, x, y, z, Top)) + One(Exposed(g, x, y, z, Bottom)) + One(Exposed(g, x, y, z, Right))
    + One(Exposed(g, x, y, z, Left)) + One(Exposed(g, x, y, z, Front)) + One(Exposed(g, x, y, z, Back))
  }

  lemma CellFacesLength(g: Grid, x: int, y: int, z: int, ox: int, oz: int)
    requires WellFormed(g) && InChunk(x, y, z)
    ensures |CellFaces(g, x, y, z, ox, oz)| == 6 * ExposedCount(g, x, y, z)
  {
  }

  /** The first k conditional sides of one cell, in the order `buildMesh`
      tries them, are distinct and count one each. */
  lemma SidesCard2(x: int, y: int, z: int, b1: bool, b2: bool)
    ensures |If(b1, (x, y, z, Top)) + If(b2, (x, y, z, Bottom))| == One(b1) + One(b2)
    ensures forall t :: t in If(b1, (x, y, z, Top)) + If(b2, (x, y, z, Bottom)) ==> t.3 == Top || t.3 == Bottom
  {
    AddIf(If(b1, (x, y, z, Top)), b2, (x, y, z, Bottom));
  }

  lemma SidesCard3(x: int, y: int, z: int, b1: bool, b2: bool, b3: bool)
    ensures |If(b1, (x, y, z, Top)) + If(b2, (x, y, z, Bottom)) + If(b3, (x, y, z, Right))| == One(b1) + One(b2) + One(b3)
    ensures forall t :: t in If(b1, (x, y, z, Top)) + If(b2, (x, y, z, Bottom)) + If(b3, (x, y, z, Right)) ==> t.3 == Top || t.3 == Bottom || t.3 == Right
  {
    SidesCard2(x, y, z, b1, b2);
    AddIf(If(b1, (x, y, z, Top)) + If(b2, (x, y, z, Bottom)), b3, (x, y, z, Right));
  }

  lemma SidesCard4(x: int, y: int, z: int, b1: bool, b2: bool, b3: bool, b4: bool)
    ensures |If(b1, (x, y, z, Top)) + If(b2, (x, y, z, Bottom)) + If(b3, (x, y, z, Right)) + If(b4, (x, y, z, Left))| == One(b1) + One(b2) + One(b3) + One(b4)
    ensures forall t :: t in If(b1, (x, y, z, Top)) + If(b2, (x, y, z, Bottom)) + If(b3, (x, y, z, Right)) + If(b4, (x, y, z, Left)) ==> t.3 == Top || t.3 == Bottom || t.3 == Right || t.3 == Left
  {
    SidesCard3(x, y, z, b1, b2, b3);
    AddIf(If(b1, (x, y, z, Top)) + If(b2, (x, y, z, Bottom)) + If(b3, (x, y, z, Right)), b4, (x, y, z, Left));
  }

  lemma SidesCard5(x: int, y: int, z: int, b1: bool, b2: bool, b3: bool, b4: bool, b5: bool)
    ensures |If(b1, (x, y, z, Top)) + If(b2, (x, y, z, Bottom)) + If(b3, (x, y, z, Right)) + If(b4, (x, y, z, Left)) + If(b5, (x, y, z, Front))| == One(b1) + One(b2) + One(b3) + One(b4) + One(b5)
    ensures forall t :: t in If(b1, (x, y, z, Top)) + If(b2, (x, y, z, Bottom)) + If(b3, (x, y, z, Right)) + If(b4, (x, y, z, Left)) + If(b5, (x, y, z, Front)) ==> t.3 == Top || t.3 == Bottom || t.3 == Right || t.3 == Left || t.3 == Front
  {
    SidesCard4(x, y, z, b1, b2, b3, b4);
    AddIf(If(b1, (x, y, z, Top)) + If(b2, (x, y, z, Bottom)) + If(b3, (x, y, z, Right)) + If(b4, (x, y, z, Left)), b5, (x, y, z, Front));
  }

  lemma SidesCard6(x: int, y: int, z: int, b1: bool, b2: bool, b3: bool, b4: bool, b5: bool, b6: bool)
    ensures |If(b1, (x, y, z, Top)) + If(b2, (x, y, z, Bottom)) + If(b3, (x, y, z, Right)) + If(b4, (x, y, z, Left)) + If(b5, (x, y, z, Front)) + If(b6, (x, y, z, Back))| == One(b1) + One(b2) + One(b3) + One(b4) + One(b5) + One(b6)
    ensures forall t :: t in If(b1, (x, y, z, Top)) + If(b2, (x, y, z, Bottom)) + If(b3, (x, y, z, Right)) + If(b4, (x, y, z, Left)) + If(b5, (x, y, z, Front)) + If(b6, (x, y, z, Back)) ==> t.3 == Top || t.3 == Bottom || t.3 == Right || t.3 == Left || t.3 == Front || t.3 == Back
  {
    SidesCard5(x, y, z, b1, b2, b3, b4, b5);
    AddIf(If(b1, (x, y, z, Top)) + If(b2, (x, y, z, Bottom)) + If(b3, (x, y, z, Right)) + If(b4, (x, y, z, Left)) + If(b5, (x, y, z, Front)), b6, (x, y, z, Back));
  }

  lemma CellExposedCard(g: Grid, x: int, y: int, z: int)
    requires WellFormed(g) && InChunk(x, y, z)
    ensures |CellExposed(g, x, y, z)| == ExposedCount(g, x, y, z)
  {
    CellExposedAsUnion(g, x, y, z);
    SidesCard6(x, y, z, Exposed(g, x, y, z, Top), Exposed(g, x, y, z, Bottom), Exposed(g, x, y, z, Right),
      Exposed(g, x, y, z, Left), Exposed(g, x, y, z, Front), Exposed(g, x, y, z, Back));
  }

  lemma CellCount(g: Grid, x: int, y: int, z: int, ox: int, oz: int)
    requires WellFormed(g) && InChunk(x, y, z)
    ensures |CellFaces(g, x, y, z, ox, oz)| == 6 * |CellExposed(g, x, y, z)|
  {
    CellFacesLength(g, x, y, z, ox, oz);
    CellExposedCard(g, x, y, z);
  }

  lemma SplitExposed(g: Grid, x: int, y: int, z: int)
    requires WellFormed(g) && InChunk(x, y, z)
    ensures ExposedFrom(g, Key(x, y, z)) == CellExposed(g, x, y, z) + ExposedFrom(g, Key(x, y, z) + 1)
    ensures CellExposed(g, x, y, z) * ExposedFrom(g, Key(x, y, z) + 1) == {}
  {
    forall e | e in ExposedFrom(g, Key(x, y, z))
      ensures e in CellExposed(g, x, y, z) + ExposedFrom(g, Key(x, y, z) + 1)
    {
      if Key(e.0, e.1, e.2) == Key(x, y, z) {
        KeyInjective(x, y, z, e.0, e.1, e.2);
      }
    }
  }

  lemma ExposedFromEnd(g: Grid, from: int)
    requires WellFormed(g) && from >= Key(ChunkWidth, 0, 0)
    ensures ExposedFrom(g, from) == {}
  {
    forall e | e in ExposedFrom(g, from)
      ensures false
    {
    }
  }

  lemma CellStep(g: Grid, ox: int, oz: int, x: int, y: int, z: int)
    requires WellFormed(g) && InChunk(x, y, z)
    requires |MeshFrom(g, ox, oz, x, y, z + 1)| == 6 * |ExposedFrom(g, Key(x, y, z + 1))|
    ensures |MeshFrom(g, ox, oz, x, y, z)| == 6 * |ExposedFrom(g, Key(x, y, z))|
  {
    MeshFromCell(g, ox, oz, x, y, z);
    ExposedFromCell(g, x, y, z);
    CellCount(g, x, y, z, ox, oz);
  }

  lemma MeshFromCell(g: Grid, ox: int, oz: int, x: int, y: int, z: int)
    requires WellFormed(g) && InChunk(x, y, z)
    ensures |MeshFrom(g, ox, oz, x, y, z)| == |CellFaces(g, x, y, z, ox, oz)| + |MeshFrom(g, ox, oz, x, y, z + 1)|
  {
  }

  lemma ExposedFromCell(g: Grid, x: int, y: int, z: int)
    requires WellFormed(g) && InChunk(x, y, z)
    ensures |ExposedFrom(g, Key(x, y, z))| == |CellExposed(g, x, y, z)| + |ExposedFrom(g, Key(x, y, z + 1))|
  {
    assert Key(x, y, z + 1) == Key(x, y, z) + 1;
    SplitExposedSize(g, x, y, z);
  }

  lemma SplitExposedSize(g: Grid, x: int, y: int, z: int)
    requires WellFormed(g) && InChunk(x, y, z)
    ensures |ExposedFrom(g, Key(x, y, z))| == |CellExposed(g, x, y, z)| + |ExposedFrom(g, Key(x, y, z) + 1)|
  {
    SplitExposed(g, x, y, z);
    DisjointUnionSize(CellExposed(g, x, y, z), ExposedFrom(g, Key(x, y, z) + 1));
  }

  lemma DisjointUnionSize<T>(a: set<T>, b: set<T>)
    requires a * b == {}
    ensures |a + b| == |a| + |b|
  {
  }

  /** The end of a row of the z loop is the start of the next row. */
  lemma RowEnd(g: Grid, ox: int, oz: int, x: int, y: int)
    requires WellFormed(g) && 0 <= x < ChunkWidth && 0 <= y < ChunkHeight
    ensures MeshFrom(g, ox, oz, x, y, ChunkWidth) == MeshFrom(g, ox, oz, x, y + 1, 0)
    ensures Key(x, y, ChunkWidth) == Key(x, y + 1, 0)
  {
  }

  /** The end of a slice of the y loop is the start of the next slice. */
  lemma SliceEnd(g: Grid, ox: int, oz: int, x: int)
    requires WellFormed(g) && 0 <= x < ChunkWidth
    ensures MeshFrom(g, ox, oz, x, ChunkHeight, 0) == MeshFrom(g, ox, oz, x + 1, 0, 0)
    ensures Key(x, ChunkHeight, 0) == Key(x + 1, 0, 0)
  {
  }

  lemma EndCount(g: Grid, ox: int, oz: int)
    requires WellFormed(g)
    ensures |MeshFrom(g, ox, oz, ChunkWidth, 0, 0)| == 6 * |ExposedFrom(g, Key(ChunkWidth, 0, 0))|
  {
    ExposedFromEnd(g, Key(ChunkWidth, 0, 0));
  }

  lemma RowCount(g: Grid, ox: int, oz: int, x: int, y: int)
    requires WellFormed(g) && 0 <= x < ChunkWidth && 0 <= y < ChunkHeight
    requires |MeshFrom(g, ox, oz, x, y + 1, 0)| == 6 * |ExposedFrom(g, Key(x, y + 1, 0))|
    ensures |MeshFrom(g, ox, oz, x, y, ChunkWidth)| == 6 * |ExposedFrom(g, Key(x, y, ChunkWidth))|
  {
    RowEnd(g, ox, oz, x, y);
  }

  lemma SliceCount(g: Grid, ox: int, oz: int, x: int)
    requires WellFormed(g) && 0 <= x < ChunkWidth
    requires |MeshFrom(g, ox, oz, x + 1, 0, 0)| == 6 * |ExposedFrom(g, Key(x + 1, 0, 0))|
    ensures |MeshFrom(g, ox, oz, x, ChunkHeight, 0)| == 6 * |ExposedFrom(g, Key(x, ChunkHeight, 0))|
  {
    SliceEnd(g, ox, oz, x);
  }

  /** The z loop: from cell (x, y, z) to the end of the row, six vertices per
      exposed side, given the count from the end of the row on. */
  lemma {:induction false} RowFromCount(g: Grid, ox: int, oz: int, x: int, y: int, z: int)
    requires WellFormed(g) && 0 <= x < ChunkWidth && 0 <= y < ChunkHeight && 0 <= z <= ChunkWidth
    requires |MeshFrom(g, ox, oz, x, y, ChunkWidth)| == 6 * |ExposedFrom(g, Key(x, y, ChunkWidth))|
    ensures |MeshFrom(g, ox, oz, x, y, z)| == 6 * |ExposedFrom(g, Key(x, y, z))|
    decreases ChunkWidth - z
  {
    if z < ChunkWidth {
      RowFromCount(g, ox, oz, x, y, z + 1);
      CellStep(g, ox, oz, x, y, z);
    }
  }

  /** The y loop: from row y of slice x on, given the count from the next
      slice on. */
  lemma {:induction false} SliceFromCount(g: Grid, ox: int, oz: int, x: int, y: int)
    requires WellFormed(g) && 0 <= x < ChunkWidth && 0 <= y <= ChunkHeight
    requires |MeshFrom(g, ox, oz, x + 1, 0, 0)| == 6 * |ExposedFrom(g, Key(x + 1, 0, 0))|
    ensures |MeshFrom(g, ox, oz, x, y, 0)| == 6 * |ExposedFrom(g, Key(x, y, 0))|
    decreases ChunkHeight - y
  {
    if y == ChunkHeight {
      SliceCount(g, ox, oz, x);
    } else {
      SliceFromCount(g, ox, oz, x, y + 1);
      RowCount(g, ox, oz, x, y);
      RowFromCount(g, ox, oz, x, y, 0);
    }
  }

  /** The x loop: each cell from slice x on adds six vertices per exposed
      side. */
  lemma {:induction false} MeshFromCount(g: Grid, ox: int, oz: int, x: int)
    requires WellFormed(g) && 0 <= x <= ChunkWidth
    ensures |MeshFrom(g, ox, oz, x, 0, 0)| == 6 * |ExposedFrom(g, Key(x, 0, 0))|
    decreases ChunkWidth - x
  {
    if x == ChunkWidth {
      EndCount(g, ox, oz);
    } else {
      MeshFromCount(g, ox, oz, x + 1);
      SliceFromCount(g, ox, oz, x, 0);
    }
  }

  /** `buildMesh` emits exactly six vertices per exposed side. */
  lemma MeshSize(g: Grid, ox: int, oz: int)
    requires WellFormed(g)
    ensures |Mesh(g, ox, oz)| == 6 * |ExposedSides(g)|
  {
    MeshFromCount(g, ox, oz, 0);
    KeyOrigin();
  }

  lemma KeyOrigin()
    ensures Key(0, 0, 0) == 0
  {
  }

  /** The flat `vertices` vector holds 42 numbers per exposed side. */
  lemma FlatMeshSize(g: Grid, ox: int, oz: int)
    requires WellFormed(g)
    ensures |Flatten(Mesh(g, ox, oz))| == 42 * |ExposedSides(g)|
  {
    MeshSize(g, ox, oz);
    FlattenLayout(Mesh(g, ox, oz));
    Times7Times6(|ExposedSides(g)|);
  }

  lemma Times7Times6(n: int)
    ensures 7 * (6 * n) == 42 * n
  {
  }

  /** A chunk of air has an empty mesh. */
  lemma AirMeshIsEmpty(g: Grid, ox: int, oz: int)
    requires WellFormed(g)
    requires forall x, y, z :: InChunk(x, y, z) ==> g[x][y][z] == Air
    ensures Mesh(g, ox, oz) == []
  {
    assert ExposedSides(g) == {};
    MeshSize(g, ox, oz);
  }

  /** A single solid block, wherever it is, shows all six sides: 36
      vertices. */
  lemma LoneBlockMesh(g: Grid, ox: int, oz: int, px: int, py: int, pz: int)
    requires WellFormed(g) && InChunk(px, py, pz) && g[px][py][pz] != Air
    requires forall x, y, z :: InChunk(x, y, z) && (x, y, z) != (px, py, pz) ==> g[x][y][z] == Air
    ensures |Mesh(g, ox, oz)| == 36
  {
    LoneBlockSides(g, px, py, pz);
    SidesCard6(px, py, pz, true, true, true, true, true, true);
    MeshSize(g, ox, oz);
  }

  lemma LoneBlockSides(g: Grid, px: int, py: int, pz: int)
    requires WellFormed(g) && InChunk(px, py, pz) && g[px][py][pz] != Air
    requires forall x, y, z :: InChunk(x, y, z) && (x, y, z) != (px, py, pz) ==> g[x][y][z] == Air
    ensures ExposedSides(g) ==
      If(true, (px, py, pz, Top)) + If(true, (px, py, pz, Bottom)) + If(true, (px, py, pz, Right))
      + If(true, (px, py, pz, Left)) + If(true, (px, py, pz, Front)) + If(true, (px, py, pz, Back))
  {
    LoneBlockOnlyCell(g, px, py, pz);
    LoneBlockExposed(g, px, py, pz, Top);
    LoneBlockExposed(g, px, py, pz, Bottom);
    LoneBlockExposed(g, px, py, pz, Right);
    LoneBlockExposed(g, px, py, pz, Left);
    LoneBlockExposed(g, px, py, pz, Front);
    LoneBlockExposed(g, px, py, pz, Back);
    CellExposedAsUnion(g, px, py, pz);
  }

  lemma LoneBlockOnlyCell(g: Grid, px: int, py: int, pz: int)
    requires WellFormed(g) && InChunk(px, py, pz)
    requires forall x, y, z :: InChunk(x, y, z) && (x, y, z) != (px, py, pz) ==> g[x][y][z] == Air
    ensures ExposedSides(g) == CellExposed(g, px, py, pz)
  {
    forall e | e in ExposedSides(g)
      ensures e in CellExposed(g, px, py, pz)
    {
    }
  }

  lemma LoneBlockExposed(g: Grid, px: int, py: int, pz: int, f: Face)
    requires WellFormed(g) && InChunk(px, py, pz) && g[px][py][pz] != Air
    requires forall x, y, z :: InChunk(x, y, z) && (x, y, z) != (px, py, pz) ==> g[x][y][z] == Air
    ensures Exposed(g, px, py, pz, f)
  {
    var n := f.Normal();
    assert n != (0, 0, 0);
  }

  // ----- Ranges of the vertex fields -----

  /** A vertex of the chunk at (ox, oz) lies within the chunk's box, its
      texture coordinates are 0 or 1, its face is one of the six sides and
      its block is not AIR. */
  predicate InBox(v: Vertex, ox: int, oz: int) {
    && ox <= v.x <= ox + ChunkWidth && 0 <= v.y <= ChunkHeight && oz <= v.z <= oz + ChunkWidth
    && 0 <= v.u <= 1 && 0 <= v.v <= 1 && 0 <= v.face < 6 && 1 <= v.block < 7
  }

  lemma SideInBox(g: Grid, x: int, y: int, z: int, f: Face, ox: int, oz: int)
    requires WellFormed(g) && InChunk(x, y, z)
    ensures forall v :: v in SideIfExposed(g, x, y, z, f, ox, oz) ==> InBox(v, ox, oz)
  {
    if Exposed(g, x, y, z, f) {
      forall n | 0 <= n < 6
        ensures InBox(FaceVertex(f, n, x, y, z, g[x][y][z], ox, oz), ox, oz)
      {
        CornersFaceTheTestedNeighbour(f, n);
      }
    }
  }

  lemma CellFacesInBox(g: Grid, x: int, y: int, z: int, ox: int, oz: int)
    requires WellFormed(g) && InChunk(x, y, z)
    ensures forall v :: v in CellFaces(g, x, y, z, ox, oz) ==> InBox(v, ox, oz)
  {
    SideInBox(g, x, y, z, Top, ox, oz);
    SideInBox(g, x, y, z, Bottom, ox, oz);
    SideInBox(g, x, y, z, Right, ox, oz);
    SideInBox(g, x, y, z, Left, ox, oz);
    SideInBox(g, x, y, z, Front, ox, oz);
    SideInBox(g, x, y, z, Back, ox, oz);
  }

  lemma {:induction false} MeshFromInBox(g: Grid, ox: int, oz: int, x: int, y: int, z: int)
    requires WellFormed(g)
    requires 0 <= x <= ChunkWidth && 0 <= y <= ChunkHeight && 0 <= z <= ChunkWidth
    ensures forall v :: v in MeshFrom(g, ox, oz, x, y, z) ==> InBox(v, ox, oz)
    decreases ChunkWidth - x, ChunkHeight - y, ChunkWidth - z
  {
    if x == ChunkWidth {
    } else if y == ChunkHeight {
      MeshFromInBox(g, ox, oz, x + 1, 0, 0);
    } else if z == ChunkWidth {
      MeshFromInBox(g, ox, oz, x, y + 1, 0);
    } else {
      MeshFromInBox(g, ox, oz, x, y, z + 1);
      CellFacesInBox(g, x, y, z, ox, oz);
    }
  }

  /** Every vertex of the mesh is inside the chunk's box and names a side
      and a solid block. */
  lemma MeshInBox(g: Grid, ox: int, oz: int)
    requires WellFormed(g)
    ensures forall v :: v in Mesh(g, ox, oz) ==> InBox(v, ox, oz)
  {
    MeshFromInBox(g, ox, oz, 0, 0, 0);
  }
}
