/** Block types, the chunk's dimensions, the column fill of `Chunk::genChunk`
    and the cells a tree occupies (`genTree`, `genLeaves`). */
module Blocks {

  const ChunkWidth: int := 16
  const ChunkHeight: int := 32
  /** The upper end of the "Max Height" slider of the debug menu. */
  const MaxHeightSliderMax: int := 50

  datatype Option<T> = None | Some(value: T) {
    function GetOr(default: T): T {
      match this
      case Some(v) => v
      case None => default
    }
  }

  datatype Block = Air | Grass | Dirt | Stone | Bedrock | Log | Leaves {
    /** The value of the C++ enumerator, which the mesher stores as a vertex's
        block-type field. */
    function Id(): (n: nat)
      ensures n < 7
      ensures n == 0 <==> this == Air
    {
      match this
      case Air => 0
      case Grass => 1
      case Dirt => 2
      case Stone => 3
      case Bedrock => 4
      case Log => 5
      case Leaves => 6
    }
  }

  /** Local coordinates that index the `blocks[16][32][16]` array. */
  predicate InChunk(x: int, y: int, z: int) {
    0 <= x < ChunkWidth && 0 <= y < ChunkHeight && 0 <= z < ChunkWidth
  }

  /** The block the column fill puts at height y of a column whose grass
      layer is at terrainY. */
  function ColumnBlock(terrainY: int, y: int): Block {
    if y == terrainY then Grass
    else if y < terrainY && y >= terrainY - 3 then Dirt
    else if y < terrainY - 3 && y > 0 then Stone
    else if y == 0 then Bedrock
    else Air
  }

  /** The layers of a column, each as an if-and-only-if: grass at the
      surface, three layers of dirt below it, stone down to height 1,
      bedrock at height 0 unless the dirt reaches it (surface 0 to 3), air
      above; the fill never produces a log or leaves. */
  lemma ColumnLayers(terrainY: int, y: int)
    requires 0 <= y
    ensures ColumnBlock(terrainY, y) == Grass <==> y == terrainY
    ensures ColumnBlock(terrainY, y) == Dirt <==> terrainY - 3 <= y < terrainY
    ensures ColumnBlock(terrainY, y) == Stone <==> 0 < y < terrainY - 3
    ensures ColumnBlock(terrainY, y) == Bedrock <==> y == 0 && (terrainY < 0 || terrainY > 3)
    ensures ColumnBlock(terrainY, y) == Air <==> 0 < y && terrainY < y
    ensures ColumnBlock(terrainY, y) != Log && ColumnBlock(terrainY, y) != Leaves
  {
  }

  /** The surface height of a column: the noise height (between 0 and
      maxHeight) raised so that the tallest terrain reaches the top. */
  function TerrainY(height: int, maxHeight: int): int {
    height + (ChunkHeight - maxHeight)
  }

  /** The surface lies in [CHUNK_HEIGHT - maxHeight, CHUNK_HEIGHT]; with the
      slider at its maximum of 50, every noise height below 18 gives a surface
      below the bottom of the chunk. */
  lemma TerrainYRange(height: int, maxHeight: int)
    requires 0 <= height <= maxHeight
    ensures ChunkHeight - maxHeight <= TerrainY(height, maxHeight) <= ChunkHeight
    ensures maxHeight == MaxHeightSliderMax ==> (TerrainY(height, maxHeight) < 0 <==> height < 18)
  {
  }

  /** What the tree rooted at local column (x, z) on surface y, with the
      given trunk height, leaves in cell (i, j, k): LEAVES in the row of five
      cells along x at the top of the trunk (the top trunk cell included, since
      the leaves are written after it), LOG in the trunk from y up to below the
      top, and nothing elsewhere. */
  function TreeCell(x: int, y: int, z: int, trunkHeight: int, i: int, j: int, k: int): Option<Block> {
    if k == z && j == y + trunkHeight && x - 2 <= i <= x + 2 then Some(Leaves)
    else if i == x && k == z && y <= j < y + trunkHeight then Some(Log)
    else None
  }

  type Cell = (int, int, int)
  type Write = (Cell, Block)

  /** The value the last write to cell c in ws stored there, if any. */
  function LastWrite(ws: seq<Write>, c: Cell): Option<Block> {
    if ws == [] then None
    else if ws[|ws| - 1].0 == c then Some(ws[|ws| - 1].1)
    else LastWrite(ws[..|ws| - 1], c)
  }

  lemma {:induction false} LastWriteAppend(a: seq<Write>, b: seq<Write>, c: Cell)
    ensures LastWrite(a + b, c) == if LastWrite(b, c).Some? then LastWrite(b, c) else LastWrite(a, c)
    decreases |b|
  {
    if b == [] {
      assert a + b == a;
    } else {
      assert (a + b)[..|a + b| - 1] == a + b[..|b| - 1];
      LastWriteAppend(a, b[..|b| - 1], c);
    }
  }

  /** The writes `genLeaves(x, y, z)` makes, in order, for leafX from leafX
      up to x + 2: one LEAVES per leafX inside [0, 16). */
  function LeafRowWrites(x: int, y: int, z: int, leafX: int): seq<Write>
    decreases x + 3 - leafX
  {
    if leafX > x + 2 then []
    else (if 0 <= leafX < ChunkWidth then [((leafX, y, z), Leaves)] else [])
         + LeafRowWrites(x, y, z, leafX + 1)
  }

  /** The writes of `genLeaves(x, y, z)` as written: only heights at or above
      CHUNK_HEIGHT are refused. */
  function LeafWritesAsWritten(x: int, y: int, z: int): seq<Write> {
    if y >= ChunkHeight then [] else LeafRowWrites(x, y, z, x - 2)
  }

  /** The writes of `genTree` from iteration treeY on, as written: a LOG
      wherever targetY < CHUNK_HEIGHT, with no lower bound, then the leaves
      at the last iteration. */
  function TrunkWritesAsWritten(x: int, y: int, z: int, trunkHeight: int, treeY: int): seq<Write>
    decreases trunkHeight + 1 - treeY
  {
    if treeY > trunkHeight then []
    else (if y + treeY < ChunkHeight then [((x, y + treeY, z), Log)] else [])
         + (if treeY == trunkHeight then LeafWritesAsWritten(x, y + treeY, z) else [])
         + TrunkWritesAsWritten(x, y, z, trunkHeight, treeY + 1)
  }

  /** Every write of `genTree` rooted at local (x, y, z), in order. */
  function TreeWritesAsWritten(x: int, y: int, z: int, trunkHeight: int): seq<Write> {
    TrunkWritesAsWritten(x, y, z, trunkHeight, 0)
  }

  /** `genLeaves` writes only inside the chunk's x range, in its own row. */
  lemma {:induction false} LeafRowWritesInRow(x: int, y: int, z: int, leafX: int)
    ensures forall w :: w in LeafRowWrites(x, y, z, leafX) ==>
      0 <= w.0.0 < ChunkWidth && w.0.1 == y && w.0.2 == z
    decreases x + 3 - leafX
  {
    if leafX <= x + 2 {
      var head: seq<Write> := if 0 <= leafX < ChunkWidth then [((leafX, y, z), Leaves)] else [];
      var rest := LeafRowWrites(x, y, z, leafX + 1);
      assert LeafRowWrites(x, y, z, leafX) == head + rest;
      LeafRowWritesInRow(x, y, z, leafX + 1);
      forall w | w in head + rest
        ensures 0 <= w.0.0 < ChunkWidth && w.0.1 == y && w.0.2 == z
      {
        if w !in rest {
          assert w in head;
        }
      }
    }
  }

  /** The cells `genLeaves` leaves LEAVES in: those of its row from leafX to
      x + 2 that lie inside the chunk. */
  lemma {:induction false} LeafRowWritesLast(x: int, y: int, z: int, leafX: int, c: Cell)
    ensures LastWrite(LeafRowWrites(x, y, z, leafX), c) ==
      if c.1 == y && c.2 == z && leafX <= c.0 <= x + 2 && 0 <= c.0 < ChunkWidth then Some(Leaves) else None
    decreases x + 3 - leafX
  {
    if leafX <= x + 2 {
      var head: seq<Write> := if 0 <= leafX < ChunkWidth then [((leafX, y, z), Leaves)] else [];
      var rest := LeafRowWrites(x, y, z, leafX + 1);
      assert LeafRowWrites(x, y, z, leafX) == head + rest;
      LeafRowWritesLast(x, y, z, leafX + 1, c);
      LastWriteAppend(head, rest, c);
      assert LastWrite(head, c) == if head != [] && c == (leafX, y, z) then Some(Leaves) else None;
    }
  }

  /** Every write of ws lands in the chunk, in column z, at height low or above. */
  predicate InColumn(ws: seq<Write>, low: int, z: int) {
    forall w :: w in ws ==> 0 <= w.0.0 < ChunkWidth && low <= w.0.1 < ChunkHeight && w.0.2 == z
  }

  lemma {:induction false} TrunkWritesBounds(x: int, y: int, z: int, trunkHeight: int, treeY: int)
    requires 0 <= x < ChunkWidth && 0 <= z < ChunkWidth && 0 <= treeY
    ensures InColumn(TrunkWritesAsWritten(x, y, z, trunkHeight, treeY), y + treeY, z)
    decreases trunkHeight + 1 - treeY
  {
    if treeY <= trunkHeight {
      TrunkWritesBounds(x, y, z, trunkHeight, treeY + 1);
      TrunkStepBounds(x, y, z, trunkHeight, treeY);
    }
  }

  /** One iteration of the trunk loop keeps its writes in the column. */
  lemma TrunkStepBounds(x: int, y: int, z: int, trunkHeight: int, treeY: int)
    requires 0 <= x < ChunkWidth && 0 <= z < ChunkWidth && 0 <= treeY <= trunkHeight
    requires InColumn(TrunkWritesAsWritten(x, y, z, trunkHeight, treeY + 1), y + treeY + 1, z)
    ensures InColumn(TrunkWritesAsWritten(x, y, z, trunkHeight, treeY), y + treeY, z)
  {
    var log: seq<Write> := if y + treeY < ChunkHeight then [((x, y + treeY, z), Log)] else [];
    var leaves := if treeY == trunkHeight then LeafWritesAsWritten(x, y + treeY, z) else [];
    var rest := TrunkWritesAsWritten(x, y, z, trunkHeight, treeY + 1);
    assert TrunkWritesAsWritten(x, y, z, trunkHeight, treeY) == log + leaves + rest;
    if treeY == trunkHeight && y + treeY < ChunkHeight {
      LeafRowWritesInRow(x, y + treeY, z, x - 2);
    } else {
      assert leaves == [];
    }
    forall w | w in log + leaves + rest
      ensures 0 <= w.0.0 < ChunkWidth && y + treeY <= w.0.1 < ChunkHeight && w.0.2 == z
    {
      if w in log {
      } else if w in leaves {
      } else {
        assert w in rest;
      }
    }
  }

  lemma {:induction false} TrunkWritesLast(x: int, y: int, z: int, trunkHeight: int, treeY: int, c: Cell)
    requires 0 <= x < ChunkWidth && 0 <= z < ChunkWidth
    ensures LastWrite(TrunkWritesAsWritten(x, y, z, trunkHeight, treeY), c) ==
      if treeY > trunkHeight then None
      else if c.2 == z && c.1 == y + trunkHeight && x - 2 <= c.0 <= x + 2 && 0 <= c.0 < ChunkWidth && c.1 < ChunkHeight then Some(Leaves)
      else if c.0 == x && c.2 == z && y + treeY <= c.1 < y + trunkHeight && c.1 < ChunkHeight then Some(Log)
      else None
    decreases trunkHeight + 1 - treeY
  {
    if treeY < trunkHeight {
      var log: seq<Write> := if y + treeY < ChunkHeight then [((x, y + treeY, z), Log)] else [];
      var rest := TrunkWritesAsWritten(x, y, z, trunkHeight, treeY + 1);
      assert TrunkWritesAsWritten(x, y, z, trunkHeight, treeY) == log + [] + rest;
      assert log + [] == log;
      LastWriteAppend(log, rest, c);
      assert LastWrite(log, c) == if log != [] && c == (x, y + treeY, z) then Some(Log) else None;
      TrunkWritesLast(x, y, z, trunkHeight, treeY + 1, c);
    } else if treeY == trunkHeight {
      TopOfTrunkLast(x, y, z, trunkHeight, c);
    }
  }

  /** The last iteration of `genTree`: the top trunk cell, then the leaves over it. */
  lemma TopOfTrunkLast(x: int, y: int, z: int, trunkHeight: int, c: Cell)
    requires 0 <= x < ChunkWidth && 0 <= z < ChunkWidth
    ensures LastWrite(TrunkWritesAsWritten(x, y, z, trunkHeight, trunkHeight), c) ==
      if c.2 == z && c.1 == y + trunkHeight && x - 2 <= c.0 <= x + 2 && 0 <= c.0 < ChunkWidth && c.1 < ChunkHeight then Some(Leaves)
      else None
  {
    var top := y + trunkHeight;
    var log: seq<Write> := if top < ChunkHeight then [((x, top, z), Log)] else [];
    var leaves := LeafWritesAsWritten(x, top, z);
    assert TrunkWritesAsWritten(x, y, z, trunkHeight, trunkHeight + 1) == [];
    assert TrunkWritesAsWritten(x, y, z, trunkHeight, trunkHeight) == log + leaves + [];
    assert log + leaves + [] == log + leaves;
    LastWriteAppend(log, leaves, c);
    assert LastWrite(log, c) == if log != [] && c == (x, top, z) then Some(Log) else None;
    if top < ChunkHeight {
      LeafRowWritesLast(x, top, z, x - 2, c);
    } else {
      assert leaves == [];
    }
  }

  /** The out-of-bounds write of `genTree`, exactly: every write keeps x and
      z inside the chunk and y below CHUNK_HEIGHT, but a write falls outside
      the array if and only if the tree stands on a negative surface y;
      inside the array the writes leave exactly `TreeCell`. */
  lemma UnguardedTreeWrites(x: int, y: int, z: int, trunkHeight: int)
    requires 0 <= x < ChunkWidth && 0 <= z < ChunkWidth && 0 <= trunkHeight
    ensures forall w :: w in TreeWritesAsWritten(x, y, z, trunkHeight) ==>
      0 <= w.0.0 < ChunkWidth && w.0.1 < ChunkHeight && 0 <= w.0.2 < ChunkWidth
    ensures (exists w :: w in TreeWritesAsWritten(x, y, z, trunkHeight) && !InChunk(w.0.0, w.0.1, w.0.2)) <==> y < 0
    ensures forall i, j, k :: InChunk(i, j, k) ==>
      LastWrite(TreeWritesAsWritten(x, y, z, trunkHeight), (i, j, k)) == TreeCell(x, y, z, trunkHeight, i, j, k)
  {
    TrunkWritesBounds(x, y, z, trunkHeight, 0);
    if y < 0 {
      var ws := TreeWritesAsWritten(x, y, z, trunkHeight);
      assert ws == [((x, y, z), Log)] + (if trunkHeight == 0 then LeafWritesAsWritten(x, y, z) else [])
        + TrunkWritesAsWritten(x, y, z, trunkHeight, 1);
      assert ws[0] == ((x, y, z), Log);
    }
    forall i, j, k | InChunk(i, j, k)
      ensures LastWrite(TreeWritesAsWritten(x, y, z, trunkHeight), (i, j, k)) == TreeCell(x, y, z, trunkHeight, i, j, k)
    {
      TrunkWritesLast(x, y, z, trunkHeight, 0, (i, j, k));
    }
  }
}
