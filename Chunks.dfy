/** The `Chunk` class: a 16 x 32 x 16 array of blocks at a fixed world
    origin, filled by `genChunk`, turned into a vertex list by `buildMesh`,
    and uploaded once the list is ready. Each method is proved against the
    functions of `Generation` and `Mesh`. */
module Chunks {
  import opened Hash
  import opened Blocks
  import opened Generation
  import opened Mesher

  /** The blocks the source's `genChunk` leaves in the chunk with origin
      (ox, oz) on the surface s, as a grid value. */
  ghost function AsWrittenGrid(s: Surface, ox: int, oz: int): (g: Grid)
    ensures WellFormed(g)
    ensures forall i, j, k :: InChunk(i, j, k) ==> g[i][j][k] == AsWrittenCell(s, TreeAt, ox, oz, i, j, k)
  {
    seq(ChunkWidth, i =>
      seq(ChunkHeight, j =>
        seq(ChunkWidth, k => AsWrittenCell(s, TreeAt, ox, oz, i, j, k))))
  }

  /** `uploadToGpu` hands the vertices to the GPU when they are loaded and
      not yet uploaded. */
  function UploadDue(loaded: bool, uploaded: bool): bool {
    loaded && !uploaded
  }

  class Chunk {
    /** World coordinates of the chunk's first column: 16 times the chunk
        coordinates. */
    const initialX: int
    const initialZ: int
    const blocks: array3<Block>
    var vertices: seq<int>
    var verticesLoaded: bool
    var verticesUploaded: bool

    predicate Valid() {
      blocks.Length0 == ChunkWidth && blocks.Length1 == ChunkHeight && blocks.Length2 == ChunkWidth
    }

    /** The blocks as a grid value. */
    ghost function Cells(): (g: Grid)
      reads blocks
      requires Valid()
      ensures WellFormed(g)
      ensures forall x, y, z :: InChunk(x, y, z) ==> g[x][y][z] == blocks[x, y, z]
    {
      seq(ChunkWidth, x requires 0 <= x < ChunkWidth reads blocks =>
        seq(ChunkHeight, y requires 0 <= y < ChunkHeight reads blocks =>
          seq(ChunkWidth, z requires 0 <= z < ChunkWidth reads blocks => blocks[x, y, z])))
    }

    /** Every cell holds the block `genChunk` leaves there on the surface s
        with the trees `trees`. */
    ghost predicate Generated(s: Surface, trees: Trees)
      reads blocks
      requires Valid()
    {
      forall i, j, k :: InChunk(i, j, k) ==> blocks[i, j, k] == GeneratedCell(s, trees, initialX, initialZ, i, j, k)
    }

    /** Every cell holds the block the interleaved `genChunk` of the source
        leaves there on the surface s with the trees `trees`. */
    ghost predicate GeneratedAsWritten(s: Surface, trees: Trees)
      reads blocks
      requires Valid()
    {
      forall i, j, k :: InChunk(i, j, k) ==> blocks[i, j, k] == AsWrittenCell(s, trees, initialX, initialZ, i, j, k)
    }

    /** What `buildVertices` leaves on the surface s: the blocks of the
        source's `genChunk` with the trees the hash draws, and their mesh. */
    ghost predicate Built(s: Surface)
      reads this, blocks
    {
      Valid() && GeneratedAsWritten(s, TreeAt)
      && vertices == Flatten(Mesh(AsWrittenGrid(s, initialX, initialZ), initialX, initialZ))
    }

    /** Blocks generated as the source does are the grid `AsWrittenGrid`. */
    lemma CellsAsWritten(s: Surface)
      requires Valid() && GeneratedAsWritten(s, TreeAt)
      ensures Cells() == AsWrittenGrid(s, initialX, initialZ)
    {
      var g := Cells();
      var w := AsWrittenGrid(s, initialX, initialZ);
      forall i, j | 0 <= i < ChunkWidth && 0 <= j < ChunkHeight
        ensures g[i][j] == w[i][j]
      {
        assert forall k :: 0 <= k < ChunkWidth ==> g[i][j][k] == w[i][j][k];
      }
      forall i | 0 <= i < ChunkWidth
        ensures g[i] == w[i]
      {
        assert forall j :: 0 <= j < ChunkHeight ==> g[i][j] == w[i][j];
      }
    }

    /** `Chunk(x, z)`: the chunk of chunk coordinates (x, z), generated on
        the surface s and meshed. */
    constructor (chunkX: int, chunkZ: int, s: Surface)
      ensures Valid() && fresh(blocks)
      ensures initialX == chunkX * ChunkWidth && initialZ == chunkZ * ChunkWidth
      ensures GeneratedAsWritten(s, TreeAt)
      ensures vertices == Flatten(Mesh(Cells(), initialX, initialZ))
      ensures verticesLoaded && !verticesUploaded
    {
      initialX := chunkX * ChunkWidth;
      initialZ := chunkZ * ChunkWidth;
      blocks := new Block[ChunkWidth, ChunkHeight, ChunkWidth]((x, y, z) => Air);
      vertices := [];
      verticesLoaded := false;
      verticesUploaded := false;
      new;
      BuildVertices(s);
    }

    /** `genLeaves(x, y, z)`: LEAVES along x from x - 2 to x + 2, clipped to
        the chunk, in row (y, z); nothing when y is outside the chunk. */
    method GenLeaves(x: int, y: int, z: int)
      requires Valid() && 0 <= z < ChunkWidth
      modifies blocks
      ensures forall i, j, k :: InChunk(i, j, k) ==>
        blocks[i, j, k] == if j == y && k == z && x - 2 <= i <= x + 2 then Leaves else old(blocks[i, j, k])
    {
      if y >= ChunkHeight || y < 0 {
        return;
      }
      var leafX := x - 2;
      while leafX <= x + 2
        invariant x - 2 <= leafX <= x + 3
        invariant forall i, j, k :: InChunk(i, j, k) ==>
          blocks[i, j, k] == if j == y && k == z && x - 2 <= i < leafX then Leaves else old(blocks[i, j, k])
      {
        if 0 <= leafX < ChunkWidth {
          blocks[leafX, y, z] := Leaves;
        }
        leafX := leafX + 1;
      }
    }

    /** `genTree(x, y, z)` at world column (x, z) on surface y: the cells of
        `TreeCell` inside the chunk take its blocks, all others keep theirs. */
    method GenTree(x: int, y: int, z: int)
      requires Valid()
      requires initialX <= x < initialX + ChunkWidth && initialZ <= z < initialZ + ChunkWidth
      modifies blocks
      ensures var trunkHeight := TrunkHeight(x, z);
        forall i, j, k :: InChunk(i, j, k) ==>
          blocks[i, j, k] == TreeCell(x - initialX, y, z - initialZ, trunkHeight, i, j, k).GetOr(old(blocks[i, j, k]))
    {
      var trunkHeight := GenRandomInt(x, z, 3) + 4;
      var localX := x - initialX;
      var localZ := z - initialZ;
      PlaceTree(localX, y, localZ, trunkHeight);
    }

    /** The loop of `genTree` for local column (x, z): a LOG at each height
        from y to y + trunkHeight inside the chunk, then the leaves at the
        top. */
    method PlaceTree(x: int, y: int, z: int, trunkHeight: int)
      requires Valid() && 0 <= x < ChunkWidth && 0 <= z < ChunkWidth && 0 <= trunkHeight
      modifies blocks
      ensures forall i, j, k :: InChunk(i, j, k) ==>
        blocks[i, j, k] == TreeCell(x, y, z, trunkHeight, i, j, k).GetOr(old(blocks[i, j, k]))
    {
      var treeY := 0;
      while treeY <= trunkHeight
        invariant 0 <= treeY <= trunkHeight + 1
        invariant forall i, j, k :: InChunk(i, j, k) ==>
          blocks[i, j, k] ==
            if treeY > trunkHeight then TreeCell(x, y, z, trunkHeight, i, j, k).GetOr(old(blocks[i, j, k]))
            else if i == x && k == z && y <= j < y + treeY then Log
            else old(blocks[i, j, k])
      {
        var targetY := y + treeY;
        if 0 <= targetY < ChunkHeight {
          blocks[x, targetY, z] := Log;
        }
        if treeY == trunkHeight {
          GenLeaves(x, targetY, z);
        }
        treeY := treeY + 1;
      }
    }

    /** `genFeatures(x, z, y)`: the tree of world column (x, z), if the
        column draws one; trees are the drawn trees, so this is where the
        hash is drawn. */
    method GenFeatures(x: int, z: int, y: int, ghost trees: Trees)
      requires Valid() && DrawnTrees(trees)
      requires initialX <= x < initialX + ChunkWidth && initialZ <= z < initialZ + ChunkWidth
      modifies blocks
      ensures var tree := trees(x, z);
        forall i, j, k :: InChunk(i, j, k) ==>
          blocks[i, j, k] ==
            if tree.Some? then TreeCell(x - initialX, y, z - initialZ, tree.value, i, j, k).GetOr(old(blocks[i, j, k]))
            else old(blocks[i, j, k])
    {
      assert trees(x, z) == TreeAt(x, z);
      var randomInt := GenRandomInt(x, z, 1000);
      if randomInt < 6 {
        GenTree(x, y, z);
      }
    }

    /** The column fill of `genChunk` for local column (x, z). */
    method FillColumn(x: int, z: int, terrainY: int)
      requires Valid() && 0 <= x < ChunkWidth && 0 <= z < ChunkWidth
      modifies blocks
      ensures forall i, j, k :: InChunk(i, j, k) ==>
        blocks[i, j, k] == if i == x && k == z then ColumnBlock(terrainY, j) else old(blocks[i, j, k])
    {
      for y := 0 to ChunkHeight
        invariant forall i, j, k :: InChunk(i, j, k) ==>
          blocks[i, j, k] == if i == x && k == z && j < y then ColumnBlock(terrainY, j) else old(blocks[i, j, k])
      {
        blocks[x, y, z] := ColumnBlock(terrainY, y);
      }
    }

    /** `genChunk` with every column filled before any tree is planted: each
        cell ends as `GeneratedCell`, so no tree loses a leaf to the fill of a
        later column. */
    method GenChunk(s: Surface, ghost trees: Trees)
      requires Valid() && DrawnTrees(trees)
      modifies blocks
      ensures Generated(s, trees)
    {
      FillChunk(s);
      forall i, j, k | InChunk(i, j, k)
        ensures blocks[i, j, k] == PlantedPrefix(s, trees, initialX, initialZ, 0, 0, i, j, k)
      {
        PlantedStart(s, trees, initialX, initialZ, i, j, k);
      }
      var x := initialX;
      while x <= initialX + ChunkWidth - 1
        invariant initialX <= x <= initialX + ChunkWidth
        invariant forall i, j, k :: InChunk(i, j, k) ==>
          blocks[i, j, k] == PlantedPrefix(s, trees, initialX, initialZ, x - initialX, 0, i, j, k)
      {
        PlantRow(s, trees, x);
        x := x + 1;
      }
    }

    /** The first pass: the column fill of every world column of the chunk. */
    method FillChunk(s: Surface)
      requires Valid()
      modifies blocks
      ensures forall i, j, k :: InChunk(i, j, k) ==> blocks[i, j, k] == Fill(s, initialX, initialZ, i, j, k)
    {
      var x := initialX;
      while x <= initialX + ChunkWidth - 1
        invariant initialX <= x <= initialX + ChunkWidth
        invariant forall i, j, k :: InChunk(i, j, k) ==>
          blocks[i, j, k] == if i < x - initialX then Fill(s, initialX, initialZ, i, j, k) else old(blocks[i, j, k])
      {
        FillRow(s, x);
        x := x + 1;
      }
    }

    /** The fill of the 16 columns of world row x. */
    method FillRow(s: Surface, x: int)
      requires Valid() && initialX <= x < initialX + ChunkWidth
      modifies blocks
      ensures forall i, j, k :: InChunk(i, j, k) ==>
        blocks[i, j, k] == if i == x - initialX then Fill(s, initialX, initialZ, i, j, k) else old(blocks[i, j, k])
    {
      var z := initialZ;
      while z <= initialZ + ChunkWidth - 1
        invariant initialZ <= z <= initialZ + ChunkWidth
        invariant forall i, j, k :: InChunk(i, j, k) ==>
          blocks[i, j, k] ==
            if i == x - initialX && k < z - initialZ then Fill(s, initialX, initialZ, i, j, k)
            else old(blocks[i, j, k])
      {
        FillColumn(x - initialX, z - initialZ, s(x, z));
        z := z + 1;
      }
    }

    /** The second pass over world row x: the trees of its 16 columns, in
        order of z. */
    method PlantRow(s: Surface, ghost trees: Trees, x: int)
      requires Valid() && DrawnTrees(trees) && initialX <= x < initialX + ChunkWidth
      requires forall i, j, k :: InChunk(i, j, k) ==>
        blocks[i, j, k] == PlantedPrefix(s, trees, initialX, initialZ, x - initialX, 0, i, j, k)
      modifies blocks
      ensures forall i, j, k :: InChunk(i, j, k) ==>
        blocks[i, j, k] == PlantedPrefix(s, trees, initialX, initialZ, x + 1 - initialX, 0, i, j, k)
    {
      PlantColumns(s, trees, x);
      forall i, j, k | InChunk(i, j, k)
        ensures blocks[i, j, k] == PlantedPrefix(s, trees, initialX, initialZ, x + 1 - initialX, 0, i, j, k)
      {
        PrefixRowEnd(s, trees, initialX, initialZ, x - initialX, i, j, k, Air);
      }
    }

    /** The loop of the second pass over the 16 columns of world row x. */
    method PlantColumns(s: Surface, ghost trees: Trees, x: int)
      requires Valid() && DrawnTrees(trees) && initialX <= x < initialX + ChunkWidth
      requires forall i, j, k :: InChunk(i, j, k) ==>
        blocks[i, j, k] == PlantedPrefix(s, trees, initialX, initialZ, x - initialX, 0, i, j, k)
      modifies blocks
      ensures forall i, j, k :: InChunk(i, j, k) ==>
        blocks[i, j, k] == PlantedPrefix(s, trees, initialX, initialZ, x - initialX, ChunkWidth, i, j, k)
    {
      for z := initialZ to initialZ + ChunkWidth
        invariant forall i, j, k :: InChunk(i, j, k) ==>
          blocks[i, j, k] == PlantedPrefix(s, trees, initialX, initialZ, x - initialX, z - initialZ, i, j, k)
      {
        PlantColumn(s, trees, x, z);
      }
    }

    /** The tree of world column (x, z) on the cells planted so far. */
    method PlantColumn(s: Surface, ghost trees: Trees, x: int, z: int)
      requires Valid() && DrawnTrees(trees)
      requires initialX <= x < initialX + ChunkWidth && initialZ <= z < initialZ + ChunkWidth
      requires forall i, j, k :: InChunk(i, j, k) ==>
        blocks[i, j, k] == PlantedPrefix(s, trees, initialX, initialZ, x - initialX, z - initialZ, i, j, k)
      modifies blocks
      ensures forall i, j, k :: InChunk(i, j, k) ==>
        blocks[i, j, k] == PlantedPrefix(s, trees, initialX, initialZ, x - initialX, z + 1 - initialZ, i, j, k)
    {
      GenFeatures(x, z, s(x, z), trees);
      forall i, j, k | InChunk(i, j, k)
        ensures blocks[i, j, k] == PlantedPrefix(s, trees, initialX, initialZ, x - initialX, z + 1 - initialZ, i, j, k)
      {
        PlantStep(s, trees, initialX, initialZ, x - initialX, z - initialZ, i, j, k);
      }
    }

    /** `genChunk` as written: column by column, the fill and then the tree.
        Each cell ends as `AsWrittenCell`, which loses the leaves that trees
        put into the two following columns (see `AsWrittenLosesLeaves`). The
        trees here keep to the array's bounds. */
    method GenChunkAsWritten(s: Surface, ghost trees: Trees)
      requires Valid() && DrawnTrees(trees)
      modifies blocks
      ensures GeneratedAsWritten(s, trees)
    {
      ghost var start := Cells();
      forall i, j, k | InChunk(i, j, k)
        ensures blocks[i, j, k] == AsWrittenPrefix(s, trees, initialX, initialZ, 0, 0, i, j, k, start[i][j][k])
      {
        AsWrittenStart(s, trees, initialX, initialZ, i, j, k, start[i][j][k]);
      }
      var x := initialX;
      while x <= initialX + ChunkWidth - 1
        invariant initialX <= x <= initialX + ChunkWidth
        invariant forall i, j, k :: InChunk(i, j, k) ==>
          blocks[i, j, k] == AsWrittenPrefix(s, trees, initialX, initialZ, x - initialX, 0, i, j, k, start[i][j][k])
      {
        VisitRowAsWritten(s, trees, x, start);
        x := x + 1;
      }
    }

    /** World row x as written: for each column in order of z, its fill and
        then its tree. start holds the cells from before the first row. */
    method VisitRowAsWritten(s: Surface, ghost trees: Trees, x: int, ghost start: Grid)
      requires Valid() && DrawnTrees(trees) && initialX <= x < initialX + ChunkWidth && WellFormed(start)
      requires forall i, j, k :: InChunk(i, j, k) ==>
        blocks[i, j, k] == AsWrittenPrefix(s, trees, initialX, initialZ, x - initialX, 0, i, j, k, start[i][j][k])
      modifies blocks
      ensures forall i, j, k :: InChunk(i, j, k) ==>
        blocks[i, j, k] == AsWrittenPrefix(s, trees, initialX, initialZ, x + 1 - initialX, 0, i, j, k, start[i][j][k])
    {
      VisitColumnsAsWritten(s, trees, x, start);
      forall i, j, k | InChunk(i, j, k)
        ensures blocks[i, j, k] ==
          AsWrittenPrefix(s, trees, initialX, initialZ, x + 1 - initialX, 0, i, j, k, start[i][j][k])
      {
        PrefixRowEnd(s, trees, initialX, initialZ, x - initialX, i, j, k, start[i][j][k]);
      }
    }

    /** The inner loop of `genChunk` over the 16 columns of world row x. */
    method VisitColumnsAsWritten(s: Surface, ghost trees: Trees, x: int, ghost start: Grid)
      requires Valid() && DrawnTrees(trees) && initialX <= x < initialX + ChunkWidth && WellFormed(start)
      requires forall i, j, k :: InChunk(i, j, k) ==>
        blocks[i, j, k] == AsWrittenPrefix(s, trees, initialX, initialZ, x - initialX, 0, i, j, k, start[i][j][k])
      modifies blocks
      ensures forall i, j, k :: InChunk(i, j, k) ==>
        blocks[i, j, k] == AsWrittenPrefix(s, trees, initialX, initialZ, x - initialX, ChunkWidth, i, j, k, start[i][j][k])
    {
      for z := initialZ to initialZ + ChunkWidth
        invariant forall i, j, k :: InChunk(i, j, k) ==>
          blocks[i, j, k] == AsWrittenPrefix(s, trees, initialX, initialZ, x - initialX, z - initialZ, i, j, k, start[i][j][k])
      {
        VisitColumnAsWritten(s, trees, x, z, start);
      }
    }

    /** One iteration of the inner loop of `genChunk`: the fill of world
        column (x, z), then its features. */
    method VisitColumnAsWritten(s: Surface, ghost trees: Trees, x: int, z: int, ghost start: Grid)
      requires Valid() && DrawnTrees(trees) && WellFormed(start)
      requires initialX <= x < initialX + ChunkWidth && initialZ <= z < initialZ + ChunkWidth
      requires forall i, j, k :: InChunk(i, j, k) ==>
        blocks[i, j, k] == AsWrittenPrefix(s, trees, initialX, initialZ, x - initialX, z - initialZ, i, j, k, start[i][j][k])
      modifies blocks
      ensures forall i, j, k :: InChunk(i, j, k) ==>
        blocks[i, j, k] == AsWrittenPrefix(s, trees, initialX, initialZ, x - initialX, z + 1 - initialZ, i, j, k, start[i][j][k])
    {
      FillColumn(x - initialX, z - initialZ, s(x, z));
      GenFeatures(x, z, s(x, z), trees);
      forall i, j, k | InChunk(i, j, k)
        ensures blocks[i, j, k] ==
          AsWrittenPrefix(s, trees, initialX, initialZ, x - initialX, z + 1 - initialZ, i, j, k, start[i][j][k])
      {
        AsWrittenStep(s, trees, initialX, initialZ, x - initialX, z - initialZ, i, j, k, start[i][j][k]);
      }
    }

    /** `isAir`: true outside the chunk, and inside exactly on AIR cells. */
    function IsAir(x: int, y: int, z: int): (r: bool)
      reads blocks
      requires Valid()
      ensures r == IsAirAt(Cells(), x, y, z)
    {
      x < 0 || x >= ChunkWidth || z < 0 || z >= ChunkWidth || y < 0 || y >= ChunkHeight || blocks[x, y, z] == Air
    }

    /** `addFace`: appends the six vertices of side `face` of the block b at
        local (x, y, z), seven numbers each. */
    method AddFace(face: Face, x: int, y: int, z: int, b: Block)
      modifies this`vertices
      ensures vertices == old(vertices) + Flatten(FaceVertices(face, x, y, z, b, initialX, initialZ))
    {
      ghost var quad := FaceVertices(face, x, y, z, b, initialX, initialZ);
      for vertex := 0 to 6
        invariant vertices == old(vertices) + Flatten(quad[..vertex])
      {
        FaceVerticesStep(old(vertices), face, vertex, x, y, z, b, initialX, initialZ);
        PushVertex(face, vertex, x, y, z, b);
      }
      assert quad[..6] == quad;
    }

    /** One iteration of the loop of `addFace`: the seven numbers of vertex n
        of side `face` of the block b at local (x, y, z). */
    method PushVertex(face: Face, n: int, x: int, y: int, z: int, b: Block)
      requires 0 <= n < 6
      modifies this`vertices
      ensures vertices == old(vertices) + Fields(FaceVertex(face, n, x, y, z, b, initialX, initialZ))
    {
      var pos := Corner(face, n);
      var uv := Uv(n);
      vertices := vertices + [pos.0 + x + initialX, pos.1 + y, pos.2 + z + initialZ, uv.0, uv.1, face.Id(), b.Id()];
    }

    /** `buildMesh`: clears the vertex list and refills it with the mesh of
        the current blocks, so a second call yields the same list. */
    method BuildMesh()
      requires Valid()
      modifies this`vertices
      ensures vertices == Flatten(Mesh(Cells(), initialX, initialZ))
    {
      ghost var g := Cells();
      vertices := [];
      MeshSlices(g);
      assert [] + Flatten(Mesh(g, initialX, initialZ)) == Flatten(Mesh(g, initialX, initialZ));
    }

    /** The outer loop of `buildMesh`: the slices x = 0 to 15. */
    method MeshSlices(ghost g: Grid)
      requires Valid() && g == Cells()
      modifies this`vertices
      ensures vertices == old(vertices) + Flatten(Mesh(g, initialX, initialZ))
    {
      for x := 0 to ChunkWidth
        invariant vertices + Flatten(MeshFrom(g, initialX, initialZ, x, 0, 0)) ==
          old(vertices) + Flatten(MeshFrom(g, initialX, initialZ, 0, 0, 0))
      {
        MeshSlice(x, g);
      }
      assert MeshFrom(g, initialX, initialZ, ChunkWidth, 0, 0) == [];
    }

    /** The middle loop of `buildMesh`: the cells (x, 0, 0) to (x, 31, 15). */
    method MeshSlice(x: int, ghost g: Grid)
      requires Valid() && 0 <= x < ChunkWidth && g == Cells()
      modifies this`vertices
      ensures vertices + Flatten(MeshFrom(g, initialX, initialZ, x + 1, 0, 0)) ==
        old(vertices) + Flatten(MeshFrom(g, initialX, initialZ, x, 0, 0))
    {
      for y := 0 to ChunkHeight
        invariant vertices + Flatten(MeshFrom(g, initialX, initialZ, x, y, 0)) ==
          old(vertices) + Flatten(MeshFrom(g, initialX, initialZ, x, 0, 0))
      {
        MeshLine(x, y, g);
      }
      SliceEnd(g, initialX, initialZ, x);
    }

    /** The innermost loop of `buildMesh`: the cells (x, y, 0) to (x, y, 15). */
    method MeshLine(x: int, y: int, ghost g: Grid)
      requires Valid() && 0 <= x < ChunkWidth && 0 <= y < ChunkHeight && g == Cells()
      modifies this`vertices
      ensures vertices + Flatten(MeshFrom(g, initialX, initialZ, x, y + 1, 0)) ==
        old(vertices) + Flatten(MeshFrom(g, initialX, initialZ, x, y, 0))
    {
      for z := 0 to ChunkWidth
        invariant vertices + Flatten(MeshFrom(g, initialX, initialZ, x, y, z)) ==
          old(vertices) + Flatten(MeshFrom(g, initialX, initialZ, x, y, 0))
      {
        ghost var before := vertices;
        AddCellFaces(x, y, z);
        MeshFromStep(before, g, initialX, initialZ, x, y, z);
      }
      RowEnd(g, initialX, initialZ, x, y);
    }

    /** One iteration of the innermost loop of `buildMesh`: the exposed sides
        of a non-AIR block at local (x, y, z), in the order of its six tests. */
    method AddCellFaces(x: int, y: int, z: int)
      requires Valid() && InChunk(x, y, z)
      modifies this`vertices
      ensures vertices == old(vertices) + Flatten(CellFaces(Cells(), x, y, z, initialX, initialZ))
    {
      ghost var g := Cells();
      var blockType := blocks[x, y, z];
      if blockType != Air {
        AddSideIfExposed(Top, x, y, z, blockType, g);
        AddSideIfExposed(Bottom, x, y, z, blockType, g);
        AddSideIfExposed(Right, x, y, z, blockType, g);
        AddSideIfExposed(Left, x, y, z, blockType, g);
        AddSideIfExposed(Front, x, y, z, blockType, g);
        AddSideIfExposed(Back, x, y, z, blockType, g);
        CellFacesFlatten(old(vertices), g, x, y, z, initialX, initialZ);
      }
    }

    /** One test of `buildMesh`: side `face` of the block b at local (x, y, z)
        is added when the neighbour across that side is AIR. */
    method AddSideIfExposed(face: Face, x: int, y: int, z: int, b: Block, ghost g: Grid)
      requires Valid() && InChunk(x, y, z) && b == blocks[x, y, z] && b != Air && g == Cells()
      modifies this`vertices
      ensures vertices == old(vertices) + Flatten(SideIfExposed(g, x, y, z, face, initialX, initialZ))
    {
      var n := face.Normal();
      ghost var side := SideIfExposed(g, x, y, z, face, initialX, initialZ);
      SideOfSolid(g, x, y, z, face, b, initialX, initialZ);
      if IsAir(x + n.0, y + n.1, z + n.2) {
        assert side == FaceVertices(face, x, y, z, b, initialX, initialZ);
        AddFace(face, x, y, z, b);
      } else {
        assert Flatten(side) == [];
      }
    }

    /** `buildVertices`: generate in the source's interleaved order, mesh,
        then mark the vertices loaded. */
    method BuildVertices(s: Surface)
      requires Valid()
      modifies this`vertices, this`verticesLoaded, blocks
      ensures GeneratedAsWritten(s, TreeAt)
      ensures vertices == Flatten(Mesh(Cells(), initialX, initialZ))
      ensures verticesLoaded && verticesUploaded == old(verticesUploaded)
    {
      GenChunkAsWritten(s, TreeAt);
      MeshAndMark();
    }

    /** `buildMesh` followed by setting `verticesLoaded`. */
    method MeshAndMark()
      requires Valid()
      modifies this`vertices, this`verticesLoaded
      ensures vertices == Flatten(Mesh(Cells(), initialX, initialZ)) && verticesLoaded
    {
      BuildMesh();
      verticesLoaded := true;
    }

    /** The flag guard of `uploadToGpu`: `uploaded` tells whether this call
        hands the vertices to the GPU. */
    method UploadToGpu() returns (uploaded: bool)
      modifies this
      ensures uploaded == UploadDue(old(verticesLoaded), old(verticesUploaded))
      ensures verticesUploaded == (old(verticesUploaded) || uploaded)
      ensures vertices == old(vertices) && verticesLoaded == old(verticesLoaded)
    {
      uploaded := false;
      if verticesLoaded && !verticesUploaded {
        uploaded := true;
        verticesUploaded := true;
      }
    }
  }

  /** How many of a run of `uploadToGpu` calls hand the vertices to the GPU,
      given `verticesLoaded` as each call sees it. */
  function Uploads(loaded: seq<bool>, uploaded: bool): nat {
    if loaded == [] then 0
    else (if UploadDue(loaded[0], uploaded) then 1 else 0) + Uploads(loaded[1..], uploaded || UploadDue(loaded[0], uploaded))
  }

  /** The vertices reach the GPU exactly once if some call sees them loaded
      and they were not uploaded before, and never otherwise. */
  lemma {:induction false} UploadsOnce(loaded: seq<bool>, uploaded: bool)
    ensures Uploads(loaded, uploaded) == if !uploaded && true in loaded then 1 else 0
  {
    if loaded != [] {
      UploadsOnce(loaded[1..], uploaded || UploadDue(loaded[0], uploaded));
      assert loaded == [loaded[0]] + loaded[1..];
    }
  }
}
