# Voxel chunk generation, meshing and streaming

This project models the voxel logic of a small Minecraft-like OpenGL renderer
(`src/main.cpp`). It covers the `Chunk` class and the chunk map that follows
the camera.

- **Hash** (`Hash.dfy`): `genRandomInt`, the deterministic feature hash of a
  world column. It works on 32-bit two's-complement `int`s, with wrapping
  multiplication, arithmetic `>>` and C++'s truncating `%`.
- **Blocks** (`Blocks.dfy`): the block types, the 16 x 32 x 16 chunk size, and
  the column fill. It also gives the cells a tree occupies (`genTree`,
  `genLeaves`). The writes of `genTree` as written are a sequence of
  (cell, block) pairs, and the lemmas say exactly which of them fall outside
  the array.
- **Generation** (`Generation.dfy`): the block each cell holds after
  `genChunk`, as a function of the surface height of every column and of the
  trees the hash draws. There are two versions: the source's interleaved
  order (`AsWrittenCell`) and the order that fills every column before
  planting any tree (`GeneratedCell`). Chunks are built in the source's
  order; the other order is the corrected `genChunk` of the Findings.
- **Mesher** (`Mesher.dfy`): the vertex list `buildMesh` produces from a snapshot
  of the blocks. It gives six vertices of seven numbers for every side of a
  solid block whose neighbour `isAir`. It also proves:
  - the count (42 numbers per exposed side);
  - the range of every vertex field;
  - the winding of the corner table.
- **Chunks** (`Chunks.dfy`): the `Chunk` class. It holds the `blocks` array,
  the `vertices` list and the two upload flags. `genLeaves`, `genTree`,
  `genFeatures`, `genChunk`, `isAir`, `addFace`, `buildMesh`, `buildVertices`
  and `uploadToGpu` are methods over that state, proved against the functions
  above.
- **Streaming** (`Streaming.dfy`): the `chunks` map from chunk coordinates to
  chunks, with `initChunks`, `handleChunks` and `updatePlayerChunkPos`. After
  `handleChunks` the keys are exactly the square window around the player's
  chunk, and chunks already inside the window are kept.

The grass height of each world column is an input, a function `Surface` from
world (x, z) to an integer. It stands for the Perlin noise scaled by
`maxHeight`. The trees are a ghost function `Trees`. Its link to the hash
(`DrawnTrees`) is checked where `genFeatures` actually draws the hash.

`genRandomInt` returns a number in [1, maxInt], never 0. The last step
`seed ^ (seed >> 16)` always clears the sign bit, so `seed % maxInt` is never
negative and `abs` never changes the result (`Hash.FinalStepClearsSign`,
`Hash.GenRandomInt`). The comment at `src/main.cpp:140` gives the range as
"0 to maxInt", and the model follows the code.

## Model

| member | source | states |
|---|---|---|
| Hash.Bits | src/main.cpp:136-138 | the 32-bit pattern of an `int`, its value modulo 2^32; `Hash.SignedBits` states that it undoes `Hash.Signed` |
| Hash.Signed | src/main.cpp:136-138 | an `int` read from 32 bits lies in [-2^31, 2^31 - 1] and is negative exactly when the sign bit is set |
| Hash.SignedBits | src/main.cpp:136-138 | reading 32 bits as an `int` and writing that `int` back gives the same bits, so `Signed` picks the one `int` of that range with the pattern |
| Hash.Asr | src/main.cpp:137-138 | `>>` on an `int` keeps the sign bit; on a non-negative value it is the logical shift, and on a negative one it is the complement of the logical shift of the complement, so the vacated bits are ones |
| Hash.FirstMix | src/main.cpp:137 | the second assignment `(seed ^ (seed >> 13)) * 1274126177` on 32 bits with wrap-around; `Hash.GenRandomIntSample` traces it on concrete seeds |
| Hash.FinalStepClearsSign | src/main.cpp:138 | `seed ^ (seed >> 16)` never has the sign bit set, whatever the seed |
| Hash.SecondMix | src/main.cpp:138 | the seed after the third assignment is in [0, 2^31 - 1] |
| Hash.TruncRem | src/main.cpp:141 | C++ `%`: the remainder takes the sign of the dividend and its magnitude is the magnitude of the dividend modulo the divisor |
| Hash.Abs | src/main.cpp:141 | `abs` returns a non-negative number equal to a or -a |
| Hash.RandomAfter | src/main.cpp:135-141 | the seed after each statement of `genRandomInt` in turn, with the `abs(seed % maxInt + 1)` of the return last; `Hash.GenRandomInt` bounds its final value to [1, maxInt] and `Hash.SecondMix` its third to [0, 2^31 - 1] |
| Hash.GenRandomInt | src/main.cpp:133-142 | for every maxInt in [1, 2^31 - 1] the result is in [1, maxInt] and depends on nothing but (x, z, maxInt) |
| Hash.GenRandomIntSample | src/main.cpp:133-142 | the hash of column (5, -3) with range 1000 is 425, traced through the wrapping 32-bit steps |
| Hash.GenRandomIntReachesMax | src/main.cpp:133-142 | the top of the range is reached: column (0, 7) with range 3 draws 3 |
| Blocks.Block.Id | src/main.cpp:46-55 | the enumerator values are 0 to 6, and 0 exactly for AIR |
| Blocks.ColumnBlock | src/main.cpp:217-242 | the if-chain that fills one column relative to terrainY; its layers are stated one by one as if-and-only-ifs by `Blocks.ColumnLayers` |
| Blocks.ColumnLayers | src/main.cpp:217-242 | each layer of the column fill as an if-and-only-if: grass at terrainY, three dirt layers below it, stone down to height 1, bedrock at 0 unless dirt reaches it, air above; never log or leaves |
| Blocks.TerrainY | src/main.cpp:215 | the surface height `height + (CHUNK_HEIGHT - maxHeight)`; `Blocks.TerrainYRange` bounds it and says when it is negative |
| Blocks.TerrainYRange | src/main.cpp:210-215 | the surface lies in [32 - maxHeight, 32]; with maxHeight at the slider's top value 50 it is negative exactly when the noise height is below 18 |
| Blocks.TreeCell | src/main.cpp:159-183 | what a tree leaves in a cell once its loop is done: LEAVES in the five-cell row at the top of the trunk, LOG below it in its column, nothing elsewhere; `Blocks.UnguardedTreeWrites` and `Chunks.Chunk.PlaceTree` state that the loop leaves exactly this |
| Blocks.LeafRowWrites | src/main.cpp:148-152 | the writes of the `genLeaves` loop from leafX on, skipping x outside [0, 16); `Blocks.LeafRowWritesInRow` and `Blocks.LeafRowWritesLast` state where they land |
| Blocks.LeafWritesAsWritten | src/main.cpp:144-156 | the writes of `genLeaves` as written: none at or above the chunk top, and no lower bound on y; stated by the same two lemmas |
| Blocks.LeafRowWritesInRow | src/main.cpp:148-150 | `genLeaves` writes only cells with x in [0, 16), in its own row (y, z) |
| Blocks.LeafRowWritesLast | src/main.cpp:148-150 | the cells `genLeaves` leaves as LEAVES are exactly those of its row with x in [x - 2, x + 2] and in [0, 16) |
| Blocks.TrunkWritesAsWritten | src/main.cpp:168-182 | the writes of the `genTree` loop from iteration treeY on, as written: a LOG wherever targetY is below 32, with no lower bound, then the leaves at the last iteration; `Blocks.TrunkWritesBounds` and `Blocks.TrunkWritesLast` state where they land and which write is last |
| Blocks.TreeWritesAsWritten | src/main.cpp:159-183 | all writes of one `genTree` call as written; `Blocks.UnguardedTreeWrites` states that one lands outside the array exactly when y is negative (the as-written half of the first finding) |
| Blocks.TrunkWritesBounds | src/main.cpp:168-182 | every write of the `genTree` loop as written has x and z inside the chunk and a height from y + treeY up to below 32 |
| Blocks.TrunkStepBounds | src/main.cpp:168-182 | one iteration of the `genTree` loop keeps its writes within those bounds |
| Blocks.TrunkWritesLast | src/main.cpp:168-182 | the last write to each cell from iteration treeY on: LEAVES in the five-cell row at the top, LOG in the trunk below it, nothing elsewhere, all clipped to heights below 32 |
| Blocks.TopOfTrunkLast | src/main.cpp:170-181 | the last iteration writes the top trunk cell and then the leaves over it, so the leaves win |
| Blocks.UnguardedTreeWrites | src/main.cpp:159-183 | as written, a write of `genTree` lands outside the array exactly when the surface y is negative; inside the array the writes leave exactly `TreeCell` |
| Generation.TrunkHeight | src/main.cpp:163 | a trunk is 5 to 7 blocks tall |
| Generation.HasTree | src/main.cpp:188-190 | the tree test of `genFeatures`, a draw out of 1000 below 6; `Generation.TreeAt` ties it to the trees used everywhere else, and `Chunks.Chunk.GenFeatures` to the planting |
| Generation.TreeAt | src/main.cpp:185-195 | a column has a tree exactly when its draw out of 1000 is below 6, and that tree's trunk height is 5 to 7 |
| Generation.Fill | src/main.cpp:212-242 | the block the fill gives a cell: `ColumnBlock` of its world column's surface at its height; `Chunks.Chunk.FillColumn` and `Chunks.Chunk.FillChunk` leave it in the cells |
| Generation.ColumnTree | src/main.cpp:185-195 | what the tree of one in-chunk column, when the column draws one, leaves in a cell (`Blocks.TreeCell`); `Generation.PlantStep` and `Generation.AsWrittenStep` use it for one planted tree |
| Generation.AsWrittenPrefix | src/main.cpp:199-245 | a cell once the source's loop has handled every column before (x, z): a tree of the two next columns, else, once its own column is visited, that column's tree over its fill, else a tree of the two previous columns, else what it held; `Generation.AsWrittenStart` and `Generation.AsWrittenStep` show that the loop computes it |
| Generation.PlantedPrefix | src/main.cpp:199-245 | a cell of a filled chunk once the trees of every column before (x, z) are planted; `Generation.PlantedStart`, `Generation.PlantStep` and `Generation.PrefixRowEnd` show that planting column by column computes it |
| Generation.AsWrittenCell | src/main.cpp:197-248 | the block each cell holds after the source's `genChunk`; `Generation.AsWrittenStart` and `Generation.AsWrittenStep` show that the column loop computes it, and `Chunks.Chunk.GenChunkAsWritten` leaves it in every cell |
| Generation.GeneratedCell | src/main.cpp:197-248 | the block each cell holds when every column is filled before any tree is planted; `Generation.GeneratedTreesIntact` and `Generation.AsWrittenDiffersOnlyInErasedLeaves` state how it relates to the trees and to `AsWrittenCell` |
| Generation.PlantedStart | src/main.cpp:215-242 | before any tree is planted, every cell holds its column fill |
| Generation.PlantStep | src/main.cpp:185-195 | planting the tree of the next column changes exactly the cells that tree writes, which take its block |
| Generation.PrefixRowEnd | src/main.cpp:199-202 | the end of one row of columns is the start of the next, in both orders |
| Generation.AsWrittenStart | src/main.cpp:197-202 | before the first column, as written, every cell holds what it held |
| Generation.AsWrittenStep | src/main.cpp:212-245 | one column as written: its cells take the fill, then the tree of that column overwrites the cells it writes, in that column and in the four columns around it along x |
| Generation.GeneratedTreesIntact | src/main.cpp:244-245 | when all columns are filled before any tree is planted, every cell a tree writes ends as LOG or LEAVES |
| Generation.AsWrittenDiffersOnlyInErasedLeaves | src/main.cpp:199-245 | the two orders differ at a cell exactly when a tree of one of the two previous columns writes it, no tree of its own column or of the two next columns does, and its fill is not LEAVES; the as-written cell then holds the fill where the corrected one holds LEAVES |
| Generation.HashOfColumn61 | src/main.cpp:188 | world column (6, 1) draws 5 out of 1000, so it has a tree |
| Generation.TrunkOfColumn61 | src/main.cpp:163 | world column (6, 1) draws 2 out of 3, so its trunk is 6 tall |
| Generation.HashOfColumn71 | src/main.cpp:188 | world column (7, 1) draws 745, so it has no tree |
| Generation.HashOfColumn81 | src/main.cpp:188 | world column (8, 1) draws 975, so it has no tree |
| Generation.HashOfColumn91 | src/main.cpp:188 | world column (9, 1) draws 333, so it has no tree |
| Generation.TreesAroundColumn7 | src/main.cpp:185-195 | the only tree among world columns (6, 1) to (9, 1) stands on (6, 1), with trunk height 6 |
| Generation.LeafErasedAt7 | src/main.cpp:199-245 | on a flat surface at 10 with those trees, the leaf the tree of column 6 puts at (7, 16, 1) is AIR as written and LEAVES when all columns are filled first |
| Generation.AsWrittenLosesLeaves | src/main.cpp:199-245 | the same loss with the trees the hash actually draws |
| Chunks.Chunk.Cells | src/main.cpp:80 | the grid value of the `blocks` array is well formed and equal to the array cell by cell |
| Chunks.Chunk.constructor | src/main.cpp:370-380 | a chunk's origin is 16 times its chunk coordinates; once built, every block is the one the source's interleaved `genChunk` leaves (`AsWrittenCell`), its vertices are the mesh of those blocks, and it is loaded but not uploaded |
| Chunks.Chunk.GenLeaves | src/main.cpp:144-156 | the cells of row (y, z) with x in [x - 2, x + 2] become LEAVES and all other cells keep their blocks; nothing changes when y is at or above the chunk's top, and (corrected, see Left out) when y is negative |
| Chunks.Chunk.GenTree | src/main.cpp:159-183 | the trunk height is drawn from the hash, and the cells of that tree become its blocks while all others keep theirs |
| Chunks.Chunk.PlaceTree | src/main.cpp:168-182 | the `genTree` loop with heights clipped to the array: LOG up the trunk, then the leaves at the top; every other cell keeps its block |
| Chunks.Chunk.GenFeatures | src/main.cpp:185-195 | a tree is planted exactly when the column draws one, and otherwise nothing changes |
| Chunks.Chunk.FillColumn | src/main.cpp:217-242 | the 32 cells of one column take the column fill and no other cell changes |
| Chunks.Chunk.GenChunk | src/main.cpp:197-248 | corrected order: every cell ends as `GeneratedCell`, so no tree loses a leaf to terrain |
| Chunks.Chunk.FillChunk | src/main.cpp:199-242 | every cell of the chunk takes its column fill |
| Chunks.Chunk.FillRow | src/main.cpp:202-242 | the 16 columns of one world row take their fill, and the other rows are unchanged |
| Chunks.Chunk.PlantRow | src/main.cpp:199-245 | the trees of one more world row are planted on top of the cells |
| Chunks.Chunk.PlantColumns | src/main.cpp:202-245 | the trees of the 16 columns of a row are planted in order of z |
| Chunks.Chunk.PlantColumn | src/main.cpp:245 | the tree of one column is planted on top of the earlier ones |
| Chunks.Chunk.GenChunkAsWritten | src/main.cpp:197-248 | as written, column by column fill then tree: every cell ends as `AsWrittenCell` |
| Chunks.Chunk.VisitRowAsWritten | src/main.cpp:199-247 | one world row as written moves the cells on by one row of columns |
| Chunks.Chunk.VisitColumnsAsWritten | src/main.cpp:202-246 | the inner loop as written visits the 16 columns of a row in order of z |
| Chunks.Chunk.VisitColumnAsWritten | src/main.cpp:212-245 | one column as written: the fill of that column, then its features |
| Chunks.Chunk.IsAir | src/main.cpp:250-264 | `isAir` is true for every position outside the chunk and, inside it, exactly for AIR cells |
| Chunks.Chunk.AddFace | src/main.cpp:286-311 | the vertex list grows by the six vertices of the side, seven numbers each, and keeps what it held |
| Chunks.Chunk.PushVertex | src/main.cpp:297-309 | one vertex is appended: corner plus local plus chunk origin, texture coordinates, face id, block id |
| Chunks.Chunk.BuildMesh | src/main.cpp:313-345 | the vertex list is cleared and becomes the mesh of the current blocks, so a second call gives the same list |
| Chunks.Chunk.MeshSlices | src/main.cpp:317-342 | the x loop appends the whole mesh to the list |
| Chunks.Chunk.MeshSlice | src/main.cpp:319-341 | the y loop appends the mesh of one slice x |
| Chunks.Chunk.MeshLine | src/main.cpp:321-340 | the z loop appends the mesh of one row (x, y) |
| Chunks.Chunk.AddCellFaces | src/main.cpp:323-339 | an AIR cell adds nothing; a solid cell adds its exposed sides in the order top, bottom, right, left, front, back |
| Chunks.Chunk.AddSideIfExposed | src/main.cpp:328-339 | one side is appended exactly when the neighbour across it `isAir` |
| Chunks.Chunk.BuildVertices | src/main.cpp:347-352 | the blocks are generated in the source's interleaved order (every cell is `AsWrittenCell`), the vertices are their mesh, `verticesLoaded` is set and `verticesUploaded` is unchanged |
| Chunks.Chunk.MeshAndMark | src/main.cpp:350-351 | the vertices are the mesh of the blocks and `verticesLoaded` is set |
| Chunks.UploadDue | src/main.cpp:356 | the guard of `uploadToGpu`: loaded and not yet uploaded; `Chunks.Chunk.UploadToGpu` hands over exactly when it holds |
| Chunks.Chunk.UploadToGpu | src/main.cpp:354-361 | the vertices are handed over exactly when they are loaded and not yet uploaded, and they are then marked uploaded |
| Chunks.Uploads | src/main.cpp:354-361 | how many of a run of `uploadToGpu` calls hand the vertices over; `Chunks.UploadsOnce` states it is one or none |
| Chunks.UploadsOnce | src/main.cpp:354-361 | over any run of `uploadToGpu` calls, the vertices are handed over once if some call sees them loaded and they were not uploaded before, and never otherwise |
| Mesher.Face.Id | src/main.cpp:90-98 | the face enumerator values are 0 to 5 |
| Mesher.Face.Normal | src/main.cpp:328-339 | the neighbour offset tested before each side: y + 1 for TOP, y - 1 for BOTTOM, x + 1 for RIGHT, x - 1 for LEFT, z + 1 for FRONT, z - 1 for BACK; `Mesher.CornersFaceTheTestedNeighbour` states that each side's corners lie toward it |
| Mesher.IsAirAt | src/main.cpp:250-264 | `isAir` on a grid: true outside the chunk and on AIR cells; `Chunks.Chunk.IsAir` returns it and `Mesher.LoneBlockExposed` uses it |
| Mesher.Corner | src/main.cpp:266-273 | the corner table `localPos`, one row per side; `Mesher.CornersFaceTheTestedNeighbour` and `Mesher.SidesWindOutwards` state that each row lies on the right cube face and winds outwards |
| Mesher.Uv | src/main.cpp:276-283 | the texture coordinate table `localUv`; `Mesher.SideInBox` states every entry is 0 or 1 |
| Mesher.FaceVertex | src/main.cpp:297-309 | one vertex as `addFace` pushes it: corner plus local position plus chunk origin, texture coordinates, face id, block id; `Mesher.SideInBox` bounds it and `Chunks.Chunk.PushVertex` appends it |
| Mesher.FaceVertices | src/main.cpp:295-310 | the six vertices of one `addFace` call in table order; `Mesher.FaceVerticesStep` and `Chunks.Chunk.AddFace` state that the loop appends them |
| Mesher.CornersFaceTheTestedNeighbour | src/main.cpp:267-274 | each side's corners are 0 or 1 and lie on the face of the unit cube toward the neighbour that `buildMesh` tests for it |
| Mesher.SidesWindOutwards | src/main.cpp:267-274 | both triangles of every side wind counter-clockwise seen from outside, so back-face culling (`src/main.cpp:515-516`) keeps the visible sides, and the two triangles share a diagonal |
| Mesher.TopWindsOutwards | src/main.cpp:268 | the winding of the TOP row of the corner table |
| Mesher.BottomWindsOutwards | src/main.cpp:269 | the winding of the BOTTOM row |
| Mesher.FrontWindsOutwards | src/main.cpp:270 | the winding of the FRONT row |
| Mesher.BackWindsOutwards | src/main.cpp:271 | the winding of the BACK row |
| Mesher.LeftWindsOutwards | src/main.cpp:272 | the winding of the LEFT row |
| Mesher.RightWindsOutwards | src/main.cpp:273 | the winding of the RIGHT row |
| Mesher.Exposed | src/main.cpp:323-339 | a side of a cell is drawn: the cell is solid and its neighbour across that side `isAir`; `Mesher.CellExposedCard` and `Mesher.MeshSize` count these sides |
| Mesher.SideIfExposed | src/main.cpp:328-339 | one `if (isAir(...)) addFace(...)` test: the side's six vertices when exposed, nothing otherwise; `Mesher.SideOfSolid` and `Chunks.Chunk.AddSideIfExposed` state it |
| Mesher.SideOfSolid | src/main.cpp:328-339 | for a solid block, a side yields its six vertices when the neighbour is air and nothing otherwise |
| Mesher.CellFaces | src/main.cpp:323-339 | the vertices one cell adds: none for AIR, else the six sides in source order, each when its neighbour `isAir`; counted by `Mesher.CellCount` and bounded by `Mesher.CellFacesInBox` |
| Mesher.MeshFrom | src/main.cpp:317-342 | the vertices the three nested loops add from cell (x, y, z) on; `Mesher.MeshFromStep`, `Mesher.MeshFromCount` and `Mesher.MeshFromInBox` state its steps, count and range |
| Mesher.Mesh | src/main.cpp:313-345 | the vertex list of `buildMesh`; `Mesher.MeshSize` counts it against the set of exposed sides, `Mesher.MeshInBox` bounds it, and `Chunks.Chunk.BuildMesh` produces it |
| Mesher.CellFacesFlatten | src/main.cpp:327-339 | the numbers a solid cell adds are those of its six tests, one after the other |
| Mesher.MeshFromStep | src/main.cpp:317-342 | the faces of one cell followed by the rest of the mesh make the mesh from that cell on |
| Mesher.FlattenAppend | src/main.cpp:301-309 | the flat vector of two vertex lists is the concatenation of their flat vectors |
| Mesher.FlattenLayout | src/main.cpp:295-310 | the flat vector holds seven numbers per vertex, with vertex n at positions 7n to 7n + 6 |
| Mesher.FaceVerticesStep | src/main.cpp:295-310 | one iteration of the `addFace` loop appends the seven numbers of the next vertex |
| Mesher.CellFacesLength | src/main.cpp:323-339 | a cell adds six vertices per exposed side |
| Mesher.CellExposedCard | src/main.cpp:328-339 | the six tests name six different (cell, side) pairs, so a cell has as many exposed sides as tests that pass |
| Mesher.CellCount | src/main.cpp:323-339 | the vertices of a cell number six times its exposed sides |
| Mesher.SplitExposed | src/main.cpp:317-322 | the exposed sides from one cell on are that cell's sides plus, disjointly, those of the later cells |
| Mesher.ExposedFromEnd | src/main.cpp:317 | no exposed side lies after the last cell |
| Mesher.CellStep | src/main.cpp:321-339 | the count of six vertices per exposed side carries from cell z + 1 back to cell z |
| Mesher.RowFromCount | src/main.cpp:321-340 | the z loop: six vertices per exposed side from any cell of a row on |
| Mesher.SliceFromCount | src/main.cpp:319-341 | the y loop: six vertices per exposed side from any row of a slice on |
| Mesher.MeshFromCount | src/main.cpp:317-342 | the x loop: six vertices per exposed side from any slice on |
| Mesher.MeshSize | src/main.cpp:313-345 | the mesh has exactly six vertices per (solid cell, side whose neighbour is air) |
| Mesher.FlatMeshSize | src/main.cpp:286-345 | the vertex list holds exactly 42 numbers per exposed side |
| Mesher.AirMeshIsEmpty | src/main.cpp:323-325 | a chunk of air has an empty mesh |
| Mesher.LoneBlockMesh | src/main.cpp:313-345 | a single solid block, anywhere in the chunk, gives 36 vertices |
| Mesher.LoneBlockSides | src/main.cpp:328-339 | the exposed sides of a lone block are its six sides |
| Mesher.LoneBlockOnlyCell | src/main.cpp:323-325 | in a chunk with one solid block, every exposed side belongs to it |
| Mesher.LoneBlockExposed | src/main.cpp:250-264 | every side of a lone block is exposed, since each neighbour is an AIR cell or outside the chunk |
| Mesher.SideInBox | src/main.cpp:295-310 | every vertex of a side lies in the chunk's box, has texture coordinates 0 or 1, a face id below 6 and a non-AIR block id |
| Mesher.CellFacesInBox | src/main.cpp:323-339 | every vertex a cell adds is in the chunk's box |
| Mesher.MeshFromInBox | src/main.cpp:317-342 | every vertex from any cell on is in the chunk's box |
| Mesher.MeshInBox | src/main.cpp:286-345 | every vertex of the mesh lies in [16cx, 16cx + 16] x [0, 32] x [16cz, 16cz + 16], with fields in range |
| Streaming.Rect | src/main.cpp:766-768 | a key is in the rectangle exactly when both of its coordinates are in range |
| Streaming.Window | src/main.cpp:760-768 | a key is in the window exactly when it is within the render distance of the centre along both axes |
| Streaming.LineSize | src/main.cpp:768 | a line of h keys holds h chunks |
| Streaming.RectSize | src/main.cpp:766-768 | a w x h rectangle holds w * h chunks |
| Streaming.WindowSize | src/main.cpp:760-768 | the window holds (2r + 1)^2 chunks, 121 at the default distance 5 |
| Streaming.ChunkOf | src/main.cpp:801 | the chunk coordinate c of world coordinate w satisfies 16c <= w < 16c + 16 |
| Streaming.ChunkOfExactly | src/main.cpp:801 | that chunk is the only one whose 16 columns contain w |
| Streaming.EraseStep | src/main.cpp:781-796 | one erase step keeps the map's keys equal to the window keys visited so far plus the keys not yet visited |
| Streaming.World.constructor | src/main.cpp:394 | the map starts empty, with render distance 5 |
| Streaming.World.MakeChunk | src/main.cpp:370-380 | a new chunk is made for its key with its blocks array, loaded and not uploaded; its blocks are those of the source's `genChunk` on the world's surface with the trees the hash draws, and its vertices are their mesh (`Chunks.Chunk.Built`) |
| Streaming.World.InitChunks | src/main.cpp:396-410 | the keys become the old keys plus the window around (0, 0); existing entries are kept and new ones are fresh |
| Streaming.World.EmplaceLine | src/main.cpp:405-408 | the inner loop adds the keys of one line |
| Streaming.World.EmplaceKey | src/main.cpp:407 | `emplace` adds the key if absent and keeps an existing entry |
| Streaming.World.Emplace | src/main.cpp:407 | `chunks.emplace(key, chunk)`: the map gains the chunk at the key when the key has none, and is unchanged otherwise |
| Streaming.World.Store | src/main.cpp:775 | the insertion in `handleChunks`, made only for an absent key: the map gains the chunk at the key, every other entry unchanged |
| Streaming.World.HandleChunks | src/main.cpp:758-797 | afterwards the keys are exactly the window around the player's chunk; entries already present keep their chunk; a second call changes nothing |
| Streaming.World.LoadWindow | src/main.cpp:765-778 | the load loop adds exactly the missing keys of the window and keeps every existing entry |
| Streaming.World.LoadLine | src/main.cpp:768-777 | the inner load loop adds the missing keys of one line |
| Streaming.World.LoadKey | src/main.cpp:770-776 | a chunk is made for a key only if it has none |
| Streaming.World.UnloadOutside | src/main.cpp:780-796 | the unload loop leaves exactly the old keys inside the window, with their chunks, whatever order the keys are visited in |
| Streaming.World.EraseIfOutside | src/main.cpp:783-795 | a key is erased exactly when it lies outside the window |
| Streaming.World.UpdatePlayerChunkPos | src/main.cpp:799-814 | the player's chunk becomes the camera's; the map is unchanged when that chunk is unchanged and otherwise becomes exactly the window around it |

## Left out

- OpenGL: `setVertices`, `renderChunk`, the destructor's `glDeleteBuffers`, `restoreState` and `display` are GPU calls. `UploadToGpu` returns whether it would hand the vertices over, in place of calling `setVertices`.
- Threads: the constructor runs `buildVertices` on a detached `std::thread`, and `verticesLoaded` is a `std::atomic`. The model runs `BuildVertices` in the constructor, in sequence. So `Chunks.Chunk.constructor` promises a chunk that is already loaded, where the source returns before the thread finishes.
- Noise: `stb_perlin_noise3` and the float normalisation to `height` are replaced by the `Surface` input, which gives each world column's grass height. `Blocks.TerrainY` models only the integer step that raises the height by `CHUNK_HEIGHT - maxHeight`.
- Floating point: vertex numbers are `float` in the source and `int` here. Corners, texture coordinates and ids are small integers. Positions are world coordinates, which a `float` holds exactly only while their magnitude is at most 2^24; the model assumes that range.
- Camera: `glm::floor(camPos / 16)` is replaced by an integer world column and floor division (`Streaming.ChunkOf`). The declaration of `playerChunkPos` is not part of this model, so its start value is a constructor argument of `World`.
- Integer width: only the hash is modelled on 32 bits. Chunk and world coordinates are unbounded integers. Signed overflow in `x * 374761393` is undefined behaviour in C++; it is modelled as the wrap-around compilers produce.
- `Chunks.Chunk.GenChunkAsWritten`: it models the interleaved order of fill and trees, which `BuildVertices` and so every chunk uses, but it plants trees with the corrected lower-bound guard. The out-of-bounds writes of that order are stated separately, by `Blocks.UnguardedTreeWrites`.
- `Chunks.Chunk.GenLeaves`: it returns for a negative y as well as for y at or above the chunk's top, where the source only checks the top and writes below the array (see Findings).
- `Chunks.Chunk.GenTree` and `Chunks.Chunk.PlaceTree`: they require the tree's column to lie in the chunk, as every call from `genFeatures` does. They skip heights below 0 where the source writes out of bounds (see Findings).
- `Chunks.Chunk.GenFeatures`, `Chunks.Chunk.VisitColumnAsWritten` and `Chunks.Chunk.BuildVertices`: they inherit the skipped heights from `GenTree`. Their contracts give each cell the block of the clipped tree or else the block it had, so for a surface below 0 they say that `blocks[x - 1][31][z]` is not touched by the tree of column x, where the source's write of `blocks[x][-1][z]` lands on that cell by flat index and puts a LOG there (see Findings).
- `Streaming.World.HandleChunks`, `Streaming.World.InitChunks` and `Streaming.World.UpdatePlayerChunkPos`: they promise that every new entry is a fresh chunk made for its key, with its blocks array, but they do not carry `MakeChunk`'s statement about its blocks and mesh (`Chunks.Chunk.Built`) through their loops; only `Streaming.World.MakeChunk` states it. Carrying that statement through every iteration of the loops costs more proof effort than the resource limit allows.
- Debug menu: the sliders and the "Reload Chunks" button (`chunks.clear()` then `initChunks()`) are UI. The render distance is a field, and `maxHeight` appears only through `Blocks.TerrainYRange`.
- Audio, input handling, texture loading, matrices and the shader class are I/O and are not modelled.
- The `blocks` array starts uninitialised in C++. The model starts it as AIR; every cell is written by the fill before it is read.

## Findings

| source | as written | input that shows it | evidently intended | confidence | as-written member | corrected member |
|---|---|---|---|---|---|---|
| src/main.cpp:168-175 | `genTree` writes LOG at `targetY` whenever `targetY < CHUNK_HEIGHT`, with no lower bound, and `genLeaves` refuses only `y >= CHUNK_HEIGHT` | `maxHeight` at the slider's top value 50 (`src/main.cpp:485`) with any noise height below 18 gives a negative terrainY (`Blocks.TerrainYRange`); at noise height 17, terrainY = -1, and a column drawing a tree writes LOG to `blocks[x][-1][z]`, which for x >= 1 is the memory of `blocks[x-1][31][z]`, a stray LOG at the top of the neighbouring slice | writes only for `0 <= targetY < CHUNK_HEIGHT` | high; not executed | Blocks.UnguardedTreeWrites | Chunks.Chunk.PlaceTree |
| src/main.cpp:199-245 | each column is filled and then gets its tree before columns x + 1 and x + 2 are filled, so their fill overwrites the leaves that tree put there | flat surface at 10, chunk (0, 0): world column (6, 1) draws a tree with trunk 6, and the leaf at local (7, 16, 1) ends as AIR | trees are planted after the terrain, as the comment at `src/main.cpp:244` says, so no leaf is erased | medium; not executed | Generation.AsWrittenLosesLeaves | Chunks.Chunk.GenChunk |
