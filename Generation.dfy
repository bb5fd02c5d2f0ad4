/** Which block each cell of a generated chunk ends up holding.

    `genChunk` visits the 16 x 16 columns with x outer and z inner. For each
    column it writes all 32 cells of the column fill and then lets
    `genFeatures` plant a tree there, which writes the trunk in the column and
    a row of leaves two cells to each side along x. A cell keeps the last
    block written to it. A tree only writes cells of its own z row, and along
    that row the columns are visited in increasing x, so the trees of columns
    x + 1 and x + 2 are planted after the fill of column x, and the trees of
    columns x - 1 and x - 2 before it. */
module Generation {
  import opened Hash
  import opened Blocks

  /** The grass height of every world column, standing for the noise field
      scaled by maxHeight. */
  type Surface = (int, int) -> int

  /** The trunk height of the tree `genFeatures` plants on each world
      column, or None where it plants none. */
  type Trees = (int, int) -> Option<int>

  /** `genFeatures` plants a tree when the column's draw out of 1000 is below
      6, i.e. one of 1..5. */
  function HasTree(wx: int, wz: int): bool {
    GenRandomInt(wx, wz, 1000) < 6
  }

  /** `genRandomInt(x, z, 3) + 4`: a trunk is 5 to 7 blocks tall. */
  function TrunkHeight(wx: int, wz: int): (h: int)
    ensures 5 <= h <= 7
  {
    GenRandomInt(wx, wz, 3) + 4
  }

  /** The trees of the world: a tree of `TrunkHeight` wherever `HasTree`. */
  function TreeAt(wx: int, wz: int): (t: Option<int>)
    ensures t.Some? <==> HasTree(wx, wz)
    ensures t.Some? ==> 5 <= t.value <= 7
  {
    if HasTree(wx, wz) then Some(TrunkHeight(wx, wz)) else None
  }

  /** trees are the ones the hash draws. Proofs about a chunk take the trees
      as a value and meet the hash only through this link, where a method
      actually draws it. */
  ghost predicate DrawnTrees(trees: Trees) {
    forall wx, wz {:trigger TreeAt(wx, wz)} :: trees(wx, wz) == TreeAt(wx, wz)
  }

  /** The block the fill gives cell (i, j, k) of the chunk at origin (ox, oz). */
  function Fill(s: Surface, ox: int, oz: int, i: int, j: int, k: int): Block {
    ColumnBlock(s(ox + i, oz + k), j)
  }

  /** What the tree of local column (t, k), if that column is in the chunk
      and draws a tree, leaves in cell (i, j, k). */
  function ColumnTree(s: Surface, trees: Trees, ox: int, oz: int, t: int, i: int, j: int, k: int): Option<Block> {
    if 0 <= t < ChunkWidth && trees(ox + t, oz + k).Some?
    then TreeCell(t, s(ox + t, oz + k), k, trees(ox + t, oz + k).value, i, j, k)
    else None
  }

  /** Column (t, k) comes before column (x, z) in the visiting order. */
  predicate Visited(x: int, z: int, t: int, k: int) {
    t < x || (t == x && k < z)
  }

  function VisitedTree(s: Surface, trees: Trees, ox: int, oz: int, x: int, z: int, t: int, i: int, j: int, k: int): Option<Block> {
    if Visited(x, z, t, k) then ColumnTree(s, trees, ox, oz, t, i, j, k) else None
  }

  /** Cell (i, j, k) once `genChunk`, as written, has handled every column
      before (x, z); prev is what the cell held before. The fill of column
      (i, k) wipes out the leaves the trees of columns i - 1 and i - 2 put
      there. */
  function AsWrittenPrefix(s: Surface, trees: Trees, ox: int, oz: int, x: int, z: int, i: int, j: int, k: int, prev: Block): Block {
    var next2 := VisitedTree(s, trees, ox, oz, x, z, i + 2, i, j, k);
    var next1 := VisitedTree(s, trees, ox, oz, x, z, i + 1, i, j, k);
    var prev1 := VisitedTree(s, trees, ox, oz, x, z, i - 1, i, j, k);
    var prev2 := VisitedTree(s, trees, ox, oz, x, z, i - 2, i, j, k);
    if next2.Some? then next2.value
    else if next1.Some? then next1.value
    else if Visited(x, z, i, k) then ColumnTree(s, trees, ox, oz, i, i, j, k).GetOr(Fill(s, ox, oz, i, j, k))
    else if prev1.Some? then prev1.value
    else if prev2.Some? then prev2.value
    else prev
  }

  /** Cell (i, j, k) of a chunk whose columns are all filled, once the trees
      of every column before (x, z) are planted. */
  function PlantedPrefix(s: Surface, trees: Trees, ox: int, oz: int, x: int, z: int, i: int, j: int, k: int): Block {
    var next2 := VisitedTree(s, trees, ox, oz, x, z, i + 2, i, j, k);
    var next1 := VisitedTree(s, trees, ox, oz, x, z, i + 1, i, j, k);
    var own := VisitedTree(s, trees, ox, oz, x, z, i, i, j, k);
    var prev1 := VisitedTree(s, trees, ox, oz, x, z, i - 1, i, j, k);
    var prev2 := VisitedTree(s, trees, ox, oz, x, z, i - 2, i, j, k);
    if next2.Some? then next2.value
    else if next1.Some? then next1.value
    else if own.Some? then own.value
    else if prev1.Some? then prev1.value
    else if prev2.Some? then prev2.value
    else Fill(s, ox, oz, i, j, k)
  }

  /** The final block of cell (i, j, k) after `genChunk` as written: the tree
      leaves of the two following columns, else the column's own tree, else
      the column fill. */
  function AsWrittenCell(s: Surface, trees: Trees, ox: int, oz: int, i: int, j: int, k: int): Block {
    AsWrittenPrefix(s, trees, ox, oz, ChunkWidth, 0, i, j, k, Air)
  }

  /** The final block of cell (i, j, k) when every column is filled before
      any tree is planted: the last tree that writes the cell decides it, the
      column fill only where no tree writes. */
  function GeneratedCell(s: Surface, trees: Trees, ox: int, oz: int, i: int, j: int, k: int): Block {
    PlantedPrefix(s, trees, ox, oz, ChunkWidth, 0, i, j, k)
  }

  /** Before any column is visited, every cell holds its fill. */
  lemma PlantedStart(s: Surface, trees: Trees, ox: int, oz: int, i: int, j: int, k: int)
    requires 0 <= k
    ensures PlantedPrefix(s, trees, ox, oz, 0, 0, i, j, k) == Fill(s, ox, oz, i, j, k)
  {
  }

  /** Planting the tree of column (x, z) on top of a prefix moves the prefix
      on by one column: the new tree is the latest of its row, so where it
      writes, it wins. */
  lemma PlantStep(s: Surface, trees: Trees, ox: int, oz: int, x: int, z: int, i: int, j: int, k: int)
    requires 0 <= x < ChunkWidth && 0 <= z < ChunkWidth && 0 <= k < ChunkWidth
    ensures PlantedPrefix(s, trees, ox, oz, x, z + 1, i, j, k) ==
      if k == z then ColumnTree(s, trees, ox, oz, x, i, j, k).GetOr(PlantedPrefix(s, trees, ox, oz, x, z, i, j, k))
      else PlantedPrefix(s, trees, ox, oz, x, z, i, j, k)
  {
  }

  /** The end of a row of the visiting order is the start of the next. */
  lemma PrefixRowEnd(s: Surface, trees: Trees, ox: int, oz: int, x: int, i: int, j: int, k: int, prev: Block)
    requires 0 <= k < ChunkWidth
    ensures PlantedPrefix(s, trees, ox, oz, x, ChunkWidth, i, j, k) == PlantedPrefix(s, trees, ox, oz, x + 1, 0, i, j, k)
    ensures AsWrittenPrefix(s, trees, ox, oz, x, ChunkWidth, i, j, k, prev) == AsWrittenPrefix(s, trees, ox, oz, x + 1, 0, i, j, k, prev)
  {
  }

  /** Before any column is visited, as written, every cell holds what it held. */
  lemma AsWrittenStart(s: Surface, trees: Trees, ox: int, oz: int, i: int, j: int, k: int, prev: Block)
    requires 0 <= i && 0 <= k
    ensures AsWrittenPrefix(s, trees, ox, oz, 0, 0, i, j, k, prev) == prev
  {
  }

  /** One column of `genChunk` as written: the fill of column (x, z), then its
      tree on top. */
  lemma AsWrittenStep(s: Surface, trees: Trees, ox: int, oz: int, x: int, z: int, i: int, j: int, k: int, prev: Block)
    requires 0 <= x < ChunkWidth && 0 <= z < ChunkWidth && 0 <= k < ChunkWidth
    ensures AsWrittenPrefix(s, trees, ox, oz, x, z + 1, i, j, k, prev) ==
      if k == z then
        ColumnTree(s, trees, ox, oz, x, i, j, k).GetOr(
          if i == x then Fill(s, ox, oz, i, j, k) else AsWrittenPrefix(s, trees, ox, oz, x, z, i, j, k, prev))
      else AsWrittenPrefix(s, trees, ox, oz, x, z, i, j, k, prev)
  {
  }

  /** With every column filled first, no tree loses a cell to terrain: each
      cell some tree of the chunk writes ends up as LOG or LEAVES. */
  lemma GeneratedTreesIntact(s: Surface, trees: Trees, ox: int, oz: int, t: int, i: int, j: int, k: int)
    requires InChunk(i, j, k) && ColumnTree(s, trees, ox, oz, t, i, j, k).Some?
    ensures GeneratedCell(s, trees, ox, oz, i, j, k) == Log || GeneratedCell(s, trees, ox, oz, i, j, k) == Leaves
  {
    assert i - 2 <= t <= i + 2;
  }

  /** The two orders disagree only where the fill of a column erased leaves
      that the tree of one of the two previous columns had put there. */
  lemma AsWrittenDiffersOnlyInErasedLeaves(s: Surface, trees: Trees, ox: int, oz: int, i: int, j: int, k: int)
    requires InChunk(i, j, k)
    ensures AsWrittenCell(s, trees, ox, oz, i, j, k) != GeneratedCell(s, trees, ox, oz, i, j, k) <==>
      && ColumnTree(s, trees, ox, oz, i + 2, i, j, k).None?
      && ColumnTree(s, trees, ox, oz, i + 1, i, j, k).None?
      && ColumnTree(s, trees, ox, oz, i, i, j, k).None?
      && (ColumnTree(s, trees, ox, oz, i - 1, i, j, k).Some? || ColumnTree(s, trees, ox, oz, i - 2, i, j, k).Some?)
      && Fill(s, ox, oz, i, j, k) != Leaves
    ensures AsWrittenCell(s, trees, ox, oz, i, j, k) != GeneratedCell(s, trees, ox, oz, i, j, k) ==>
      AsWrittenCell(s, trees, ox, oz, i, j, k) == Fill(s, ox, oz, i, j, k) && GeneratedCell(s, trees, ox, oz, i, j, k) == Leaves
  {
    ColumnLayers(s(ox + i, oz + k), j);
  }

  lemma HashOfColumn61()
    ensures GenRandomInt(6, 1, 1000) == 5
  {
    BitsOfNatural(6);
    BitsOfNatural(1);
    assert RandomAfter(6, 1, 1000, 0) == -1378133675;
    assert -1378133675 % Modulus32 == 0xADDB_5955;
    assert Bits(-1378133675) == 0xADDB_5955;
    assert FirstMix(-1378133675) == 261873199;
    assert RandomAfter(6, 1, 1000, 1) == 261873199;
    assert Bits(261873199) == 0x0F9B_DE2F;
    assert SecondMix(261873199) == 261870004;
    assert RandomAfter(6, 1, 1000, 2) == 261870004;
  }

  lemma TrunkOfColumn61()
    ensures GenRandomInt(6, 1, 3) == 2
  {
    BitsOfNatural(6);
    BitsOfNatural(1);
    assert RandomAfter(6, 1, 3, 0) == -1378133675;
    assert -1378133675 % Modulus32 == 0xADDB_5955;
    assert Bits(-1378133675) == 0xADDB_5955;
    assert FirstMix(-1378133675) == 261873199;
    assert RandomAfter(6, 1, 3, 1) == 261873199;
    assert Bits(261873199) == 0x0F9B_DE2F;
    assert SecondMix(261873199) == 261870004;
    assert RandomAfter(6, 1, 3, 2) == 261870004;
  }

  lemma HashOfColumn71()
    ensures GenRandomInt(7, 1, 1000) == 745
  {
    BitsOfNatural(7);
    BitsOfNatural(1);
    assert RandomAfter(7, 1, 1000, 0) == -1003372282;
    assert -1003372282 % Modulus32 == 0xC431_C106;
    assert Bits(-1003372282) == 0xC431_C106;
    assert FirstMix(-1003372282) == -29324408;
    assert RandomAfter(7, 1, 1000, 1) == -29324408;
    assert -29324408 % Modulus32 == 0xFE40_8B88;
    assert Bits(-29324408) == 0xFE40_8B88;
    assert SecondMix(-29324408) == 29324744;
    assert RandomAfter(7, 1, 1000, 2) == 29324744;
  }

  lemma HashOfColumn81()
    ensures GenRandomInt(8, 1, 1000) == 975
  {
    BitsOfNatural(8);
    BitsOfNatural(1);
    assert RandomAfter(8, 1, 1000, 0) == -628610889;
    assert -628610889 % Modulus32 == 0xDA88_28B7;
    assert Bits(-628610889) == 0xDA88_28B7;
    assert FirstMix(-628610889) == 1321771830;
    assert RandomAfter(8, 1, 1000, 1) == 1321771830;
    assert Bits(1321771830) == 0x4EC8_A336;
    assert SecondMix(1321771830) == 1321790974;
    assert RandomAfter(8, 1, 1000, 2) == 1321790974;
  }

  lemma HashOfColumn91()
    ensures GenRandomInt(9, 1, 1000) == 333
  {
    BitsOfNatural(9);
    BitsOfNatural(1);
    assert RandomAfter(9, 1, 1000, 0) == -253849496;
    assert -253849496 % Modulus32 == 0xF0DE_9068;
    assert Bits(-253849496) == 0xF0DE_9068;
    assert FirstMix(-253849496) == 1164997916;
    assert RandomAfter(9, 1, 1000, 1) == 1164997916;
    assert Bits(1164997916) == 0x4570_751C;
    assert SecondMix(1164997916) == 1164980332;
    assert RandomAfter(9, 1, 1000, 2) == 1164980332;
  }

  lemma TreesAroundColumn7()
    ensures TreeAt(6, 1) == Some(6)
    ensures TreeAt(7, 1) == None && TreeAt(8, 1) == None && TreeAt(9, 1) == None
  {
    HashOfColumn61();
    TrunkOfColumn61();
    HashOfColumn71();
    HashOfColumn81();
    HashOfColumn91();
  }

  lemma {:induction false} LeafErasedAt7(s: Surface, trees: Trees)
    requires forall x, z :: s(x, z) == 10
    requires trees(6, 1) == Some(6)
    requires trees(7, 1) == None && trees(8, 1) == None && trees(9, 1) == None
    ensures ColumnTree(s, trees, 0, 0, 6, 7, 16, 1) == Some(Leaves)
    ensures AsWrittenCell(s, trees, 0, 0, 7, 16, 1) == Air
    ensures GeneratedCell(s, trees, 0, 0, 7, 16, 1) == Leaves
  {
    assert s(7, 1) == 10 && s(6, 1) == 10;
  }

  /** A flat surface at height 10 in chunk (0, 0): world column (6, 1) draws a
      tree with a trunk of 6, whose leaves belong at height 16 in columns 4 to
      8. As written, the fill of column 7 replaces the leaf at (7, 16, 1) by
      air; filling all columns first keeps it. */
  lemma AsWrittenLosesLeaves()
    ensures TreeAt(6, 1) == Some(6)
    ensures ColumnTree((x, z) => 10, TreeAt, 0, 0, 6, 7, 16, 1) == Some(Leaves)
    ensures AsWrittenCell((x, z) => 10, TreeAt, 0, 0, 7, 16, 1) == Air
    ensures GeneratedCell((x, z) => 10, TreeAt, 0, 0, 7, 16, 1) == Leaves
  {
    TreesAroundColumn7();
    LeafErasedAt7((x, z) => 10, TreeAt);
  }
}
