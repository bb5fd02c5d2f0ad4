/** Chunk streaming: the map from chunk coordinates to loaded chunks, kept
    equal to the square window of chunks within the render distance of the
    chunk the camera is in. */
module Streaming {
  import opened Blocks
  import opened Generation
  import opened Chunks

  /** Chunk coordinates (x, z). */
  type Pos = (int, int)

  /** The w x h rectangle of chunk coordinates whose corner is (x0, z0). */
  function Rect(x0: int, z0: int, w: int, h: int): (r: set<Pos>)
    ensures forall p :: p in r <==> x0 <= p.0 < x0 + w && z0 <= p.1 < z0 + h
  {
    set x, z | x0 <= x < x0 + w && z0 <= z < z0 + h :: (x, z)
  }

  /** The chunks within `r` of `center` along both axes: the keys from
      center - r to center + r inclusive that `handleChunks` and `initChunks`
      loop over. */
  function Window(center: Pos, r: int): (w: set<Pos>)
    ensures forall p :: p in w <==>
      center.0 - r <= p.0 <= center.0 + r && center.1 - r <= p.1 <= center.1 + r
  {
    Rect(center.0 - r, center.1 - r, 2 * r + 1, 2 * r + 1)
  }

  lemma {:induction false} LineSize(x: int, z0: int, h: nat)
    ensures |Rect(x, z0, 1, h)| == h
    decreases h
  {
    if h == 0 {
      assert Rect(x, z0, 1, 0) == {};
    } else {
      LineStep(x, z0, h - 1);
      LineSize(x, z0, h - 1);
    }
  }

  /** A line of keys grows by one key at its end. */
  lemma LineStep(x: int, z0: int, n: nat)
    ensures Rect(x, z0, 1, n + 1) == Rect(x, z0, 1, n) + {(x, z0 + n)}
  {
  }

  /** A w x h rectangle holds w * h chunks. */
  lemma {:induction false} RectSize(x0: int, z0: int, w: nat, h: nat)
    ensures |Rect(x0, z0, w, h)| == w * h
    decreases w
  {
    if w == 0 {
      assert Rect(x0, z0, 0, h) == {};
    } else {
      var v: nat := w - 1;
      var left := Rect(x0, z0, v, h);
      var line := Rect(x0 + v, z0, 1, h);
      RectSplit(x0, z0, v, h);
      assert Rect(x0, z0, w, h) == left + line;
      RectSize(x0, z0, v, h);
      LineSize(x0 + v, z0, h);
      assert |left + line| == |left| + |line|;
      MulStep(v, w, h);
    }
  }

  /** A rectangle one column wider is the old one plus a disjoint line. */
  lemma RectSplit(x0: int, z0: int, w: nat, h: nat)
    ensures Rect(x0, z0, w + 1, h) == Rect(x0, z0, w, h) + Rect(x0 + w, z0, 1, h)
    ensures Rect(x0, z0, w, h) * Rect(x0 + w, z0, 1, h) == {}
  {
  }

  lemma MulStep(v: int, w: int, h: int)
    requires w == v + 1
    ensures v * h + h == w * h
  {
  }

  /** The window of render distance r holds (2r + 1)^2 chunks: 121 at the
      default distance 5. */
  lemma WindowSize(center: Pos, r: nat)
    ensures |Window(center, r)| == (2 * r + 1) * (2 * r + 1)
  {
    RectSize(center.0 - r, center.1 - r, 2 * r + 1, 2 * r + 1);
  }

  /** The chunk coordinate of world coordinate w: `floor(w / 16)`. */
  function ChunkOf(w: int): (c: int)
    ensures c * ChunkWidth <= w < c * ChunkWidth + ChunkWidth
  {
    w / ChunkWidth
  }

  /** The chunk of a world coordinate is the only one whose 16 columns
      contain it. */
  lemma ChunkOfExactly(w: int, c: int)
    ensures ChunkOf(w) == c <==> c * ChunkWidth <= w < c * ChunkWidth + ChunkWidth
  {
  }

  /** One iteration of the erase loop keeps the keys equal to the visited
      keys inside the window plus the keys not yet visited. */
  lemma EraseStep(all: set<Pos>, keys: set<Pos>, window: set<Pos>, current: set<Pos>, next: set<Pos>, p: Pos)
    requires p in keys && keys <= all && current == all * (keys + window)
    requires next == if p in window then current else current - {p}
    ensures next == all * ((keys - {p}) + window)
  {
  }

  /** Chunk c was made for key p: its origin is p's first column and it
      has its blocks array. */
  predicate MadeFor(c: Chunk, p: Pos) {
    c.initialX == p.0 * ChunkWidth && c.initialZ == p.1 * ChunkWidth && c.Valid()
  }

  /** The global state of chunk streaming: the `chunks` map, the player's
      chunk and the render distance, with the surface new chunks are
      generated on. */
  class World {
    var chunks: map<Pos, Chunk>
    var playerChunkPos: Pos
    var renderDistance: int
    const surface: Surface

    /** Every loaded chunk sits at its own key. */
    predicate Placed()
      reads this
    {
      forall p :: p in chunks ==> MadeFor(chunks[p], p)
    }

    /** The start state: no chunk loaded, render distance 5. */
    constructor (s: Surface, start: Pos)
      ensures chunks == map[] && playerChunkPos == start && renderDistance == 5 && surface == s
      ensures Placed()
    {
      chunks := map[];
      playerChunkPos := start;
      renderDistance := 5;
      surface := s;
    }

    /** `std::make_unique<Chunk>(x, z)`: a new chunk, generated on the
        world's surface and meshed, for key (x, z). */
    method MakeChunk(x: int, z: int) returns (chunk: Chunk)
      ensures fresh(chunk) && MadeFor(chunk, (x, z))
      ensures chunk.Valid() && chunk.verticesLoaded && !chunk.verticesUploaded
      ensures chunk.Built(surface)
    {
      chunk := new Chunk(x, z, surface);
      chunk.CellsAsWritten(surface);
    }

    /** `initChunks`: a chunk is made for every key of the window around
        chunk (0, 0) and emplaced, which keeps an entry the map already
        has. */
    method InitChunks()
      requires Placed()
      modifies this`chunks
      ensures chunks.Keys == old(chunks).Keys + Window((0, 0), renderDistance)
      ensures forall p :: p in old(chunks) ==> chunks[p] == old(chunks)[p]
      ensures forall p :: p in chunks && p !in old(chunks) ==> fresh(chunks[p])
      ensures Placed()
    {
      var fromX := -renderDistance;
      var fromZ := -renderDistance;
      var toX := renderDistance;
      var toZ := renderDistance;
      var x := fromX;
      while x <= toX
        invariant fromX <= x && (x <= toX + 1 || x == fromX)
        invariant chunks.Keys == old(chunks).Keys + Rect(fromX, fromZ, x - fromX, toZ - fromZ + 1)
        invariant forall p :: p in old(chunks) ==> chunks[p] == old(chunks)[p]
        invariant forall p :: p in chunks && p !in old(chunks) ==> fresh(chunks[p])
        invariant Placed()
      {
        EmplaceLine(x, fromZ, toZ);
        x := x + 1;
      }
    }

    /** The inner loop of `initChunks`: keys (x, fromZ) to (x, toZ). */
    method EmplaceLine(x: int, fromZ: int, toZ: int)
      requires Placed()
      modifies this`chunks
      ensures chunks.Keys == old(chunks).Keys + Rect(x, fromZ, 1, toZ - fromZ + 1)
      ensures forall p :: p in old(chunks) ==> chunks[p] == old(chunks)[p]
      ensures forall p :: p in chunks && p !in old(chunks) ==> fresh(chunks[p])
      ensures Placed()
    {
      var z := fromZ;
      while z <= toZ
        invariant fromZ <= z && (z <= toZ + 1 || z == fromZ)
        invariant chunks.Keys == old(chunks).Keys + Rect(x, fromZ, 1, z - fromZ)
        invariant forall p :: p in old(chunks) ==> chunks[p] == old(chunks)[p]
        invariant forall p :: p in chunks && p !in old(chunks) ==> fresh(chunks[p])
        invariant Placed()
      {
        LineStep(x, fromZ, z - fromZ);
        EmplaceKey(x, z);
        z := z + 1;
      }
    }

    /** `chunks.emplace(key, new Chunk(...))` for key (x, z): the chunk is
        constructed in any case, and stored only if the key has none. */
    method EmplaceKey(x: int, z: int)
      requires Placed()
      modifies this`chunks
      ensures chunks.Keys == old(chunks).Keys + {(x, z)}
      ensures forall p :: p in old(chunks) ==> chunks[p] == old(chunks)[p]
      ensures forall p :: p in chunks && p !in old(chunks) ==> fresh(chunks[p])
      ensures Placed()
    {
      var chunk := MakeChunk(x, z);
      Emplace((x, z), chunk);
    }

    /** `emplace(p, chunk)`: stores the chunk only when key p has none. */
    method Emplace(p: Pos, chunk: Chunk)
      requires Placed() && MadeFor(chunk, p)
      modifies this`chunks
      ensures chunks == if p in old(chunks) then old(chunks) else old(chunks)[p := chunk]
      ensures Placed()
    {
      if p !in chunks {
        Store(p, chunk);
      }
    }

    /** Stores the chunk made for key p at p. */
    method Store(p: Pos, chunk: Chunk)
      requires Placed() && MadeFor(chunk, p)
      modifies this`chunks
      ensures chunks == old(chunks)[p := chunk]
      ensures Placed()
    {
      chunks := chunks[p := chunk];
    }

    /** `handleChunks`: loads a chunk for every key of the window around the
        player's chunk that has none, then unloads every chunk outside it.
        Chunks inside the window stay as they were; once the map matches the
        window a second call changes nothing. */
    method HandleChunks()
      requires Placed()
      modifies this`chunks
      ensures chunks.Keys == Window(playerChunkPos, renderDistance)
      ensures forall p :: p in old(chunks) && p in chunks ==> chunks[p] == old(chunks)[p]
      ensures forall p :: p in chunks && p !in old(chunks) ==> fresh(chunks[p])
      ensures old(chunks).Keys == Window(playerChunkPos, renderDistance) ==> chunks == old(chunks)
      ensures Placed()
    {
      LoadWindow();
      UnloadOutside();
    }

    /** The first loop of `handleChunks`: a chunk for each missing key of the
        window, x outer and z inner. */
    method LoadWindow()
      requires Placed()
      modifies this`chunks
      ensures chunks.Keys == old(chunks).Keys + Window(playerChunkPos, renderDistance)
      ensures forall p :: p in old(chunks) ==> chunks[p] == old(chunks)[p]
      ensures forall p :: p in chunks && p !in old(chunks) ==> fresh(chunks[p])
      ensures Placed()
    {
      var fromX := playerChunkPos.0 - renderDistance;
      var fromZ := playerChunkPos.1 - renderDistance;
      var toX := playerChunkPos.0 + renderDistance;
      var toZ := playerChunkPos.1 + renderDistance;
      var x := fromX;
      while x <= toX
        invariant fromX <= x && (x <= toX + 1 || x == fromX)
        invariant chunks.Keys == old(chunks).Keys + Rect(fromX, fromZ, x - fromX, toZ - fromZ + 1)
        invariant forall p :: p in old(chunks) ==> chunks[p] == old(chunks)[p]
        invariant forall p :: p in chunks && p !in old(chunks) ==> fresh(chunks[p])
        invariant Placed()
      {
        LoadLine(x, fromZ, toZ);
        x := x + 1;
      }
    }

    /** The inner loop of the first loop of `handleChunks`: keys (x, fromZ)
        to (x, toZ). */
    method LoadLine(x: int, fromZ: int, toZ: int)
      requires Placed()
      modifies this`chunks
      ensures chunks.Keys == old(chunks).Keys + Rect(x, fromZ, 1, toZ - fromZ + 1)
      ensures forall p :: p in old(chunks) ==> chunks[p] == old(chunks)[p]
      ensures forall p :: p in chunks && p !in old(chunks) ==> fresh(chunks[p])
      ensures Placed()
    {
      var z := fromZ;
      while z <= toZ
        invariant fromZ <= z && (z <= toZ + 1 || z == fromZ)
        invariant chunks.Keys == old(chunks).Keys + Rect(x, fromZ, 1, z - fromZ)
        invariant forall p :: p in old(chunks) ==> chunks[p] == old(chunks)[p]
        invariant forall p :: p in chunks && p !in old(chunks) ==> fresh(chunks[p])
        invariant Placed()
      {
        LineStep(x, fromZ, z - fromZ);
        LoadKey(x, z);
        z := z + 1;
      }
    }

    /** One iteration of the first loop of `handleChunks`: a chunk is made
        for key (x, z) only if the key has none. */
    method LoadKey(x: int, z: int)
      requires Placed()
      modifies this`chunks
      ensures chunks.Keys == old(chunks).Keys + {(x, z)}
      ensures forall p :: p in old(chunks) ==> chunks[p] == old(chunks)[p]
      ensures forall p :: p in chunks && p !in old(chunks) ==> fresh(chunks[p])
      ensures Placed()
    {
      if (x, z) !in chunks {
        var chunk := MakeChunk(x, z);
        Store((x, z), chunk);
      }
    }

    /** The second loop of `handleChunks`: every key outside the window is
        erased; the order in which the keys are visited does not matter. */
    method UnloadOutside()
      modifies this`chunks
      ensures chunks.Keys == old(chunks).Keys * Window(playerChunkPos, renderDistance)
      ensures forall p :: p in chunks ==> chunks[p] == old(chunks)[p]
    {
      var window := Window(playerChunkPos, renderDistance);
      var keys := chunks.Keys;
      while keys != {}
        invariant keys <= old(chunks).Keys
        invariant chunks.Keys == old(chunks).Keys * (keys + window)
        invariant forall p :: p in chunks ==> chunks[p] == old(chunks)[p]
        decreases |keys|
      {
        var p :| p in keys;
        ghost var current := chunks.Keys;
        EraseIfOutside(p);
        EraseStep(old(chunks).Keys, keys, window, current, chunks.Keys, p);
        keys := keys - {p};
      }
    }

    /** The body of the second loop of `handleChunks`: the chunk at key p is
        erased when p lies outside the window. */
    method EraseIfOutside(p: Pos)
      modifies this`chunks
      ensures chunks == if p in Window(playerChunkPos, renderDistance) then old(chunks) else old(chunks) - {p}
      ensures chunks.Keys == if p in Window(playerChunkPos, renderDistance) then old(chunks).Keys else old(chunks).Keys - {p}
      ensures forall q :: q in chunks ==> q in old(chunks) && chunks[q] == old(chunks)[q]
    {
      var x := p.0;
      var z := p.1;
      if x < playerChunkPos.0 - renderDistance || x > playerChunkPos.0 + renderDistance
        || z < playerChunkPos.1 - renderDistance || z > playerChunkPos.1 + renderDistance
      {
        chunks := chunks - {p};
      }
    }

    /** `updatePlayerChunkPos` for a camera in world column (camX, camZ):
        nothing happens while the camera stays in the same chunk; when it
        enters another, the player's chunk moves and the map follows. */
    method UpdatePlayerChunkPos(camX: int, camZ: int)
      requires Placed()
      modifies this`chunks, this`playerChunkPos
      ensures playerChunkPos == (ChunkOf(camX), ChunkOf(camZ))
      ensures old(playerChunkPos) == playerChunkPos ==> chunks == old(chunks)
      ensures old(playerChunkPos) != playerChunkPos ==> chunks.Keys == Window(playerChunkPos, renderDistance)
      ensures forall p :: p in old(chunks) && p in chunks ==> chunks[p] == old(chunks)[p]
      ensures forall p :: p in chunks && p !in old(chunks) ==> fresh(chunks[p])
      ensures Placed()
    {
      var newPos := (ChunkOf(camX), ChunkOf(camZ));
      if playerChunkPos == newPos {
        return;
      }
      playerChunkPos := newPos;
      HandleChunks();
    }
  }
}
