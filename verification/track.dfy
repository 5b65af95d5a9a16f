/** The parsed track record and the world-coordinate tile lookup (`Track.get_tile` and
    `Track.get_surface_info`, identical in main.py and game/core.py). */
module Tracks {
  import opened Outcome
  import opened Constants

  /** Row-major grid of tile codes: `grid[y][x]`. */
  type Grid = seq<seq<int>>

  /** The start pose in tile coordinates; `angle` may be missing from the file. */
  datatype StartPose = StartPose(x: int, y: int, angle: Option<real>)

  /** A track file after JSON parsing. `start` is `None` when `start_position` is absent. */
  datatype TrackRecord = TrackRecord(
    name: string,
    width: int,
    height: int,
    tileSize: int,
    grid: Grid,
    start: Option<StartPose>)

  /** Every row has the length of the first one. */
  predicate Rectangular(g: Grid) {
    forall y :: 0 <= y < |g| ==> |g[y]| == |g[0]|
  }

  /** What `get_tile` needs to run without an exception: a non-zero tile size and a cell at every
      index it may read, that is, inside the declared width and height. */
  predicate Indexable(t: TrackRecord) {
    && t.tileSize != 0
    && t.height <= |t.grid|
    && forall y :: 0 <= y < t.height ==> t.width <= |t.grid[y]|
  }

  /** `int(v // tile_size)`: floor division of a world coordinate. */
  function TileIndex(v: real, tileSize: int): int
    requires tileSize != 0
  {
    (v / tileSize as real).Floor
  }

  predicate InTiles(t: TrackRecord, tx: int, ty: int) {
    0 <= tx < t.width && 0 <= ty < t.height
  }

  /** The world-coordinate rectangle the declared grid covers (for a positive tile size). */
  predicate InWorld(t: TrackRecord, x: real, y: real) {
    && 0.0 <= x < (t.width * t.tileSize) as real
    && 0.0 <= y < (t.height * t.tileSize) as real
  }

  /** For a positive tile size, the tile index lies in `[0, n)` exactly when the coordinate lies in
      `[0, n * tileSize)`. */
  lemma IndexInRange(v: real, tileSize: int, n: int)
    requires tileSize != 0
    ensures tileSize > 0 ==> (0 <= TileIndex(v, tileSize) < n <==> 0.0 <= v < (n * tileSize) as real)
  {
    if tileSize < 0 {
      return;
    }
    var ts := tileSize as real;
    var q := v / ts;
    assert v == q * ts;
    assert (n * tileSize) as real == n as real * ts;
    if 0.0 <= v < (n * tileSize) as real {
      assert 0.0 <= q < n as real;
    }
    if 0 <= q.Floor < n {
      assert 0.0 <= q;
      assert q < n as real;
      assert v < n as real * ts;
    }
  }

  /** The tile code under world point `(x, y)`; outside the declared grid it is the curb code. */
  function GetTile(t: TrackRecord, x: real, y: real): (code: int)
    requires Indexable(t)
    ensures t.tileSize > 0 && !InWorld(t, x, y) ==> code == Curb
    ensures t.tileSize > 0 && InWorld(t, x, y) ==>
      && InTiles(t, TileIndex(x, t.tileSize), TileIndex(y, t.tileSize))
      && code == t.grid[TileIndex(y, t.tileSize)][TileIndex(x, t.tileSize)]
  {
    var tx := TileIndex(x, t.tileSize);
    var ty := TileIndex(y, t.tileSize);
    IndexInRange(x, t.tileSize, t.width);
    IndexInRange(y, t.tileSize, t.height);
    if InTiles(t, tx, ty) then t.grid[ty][tx] else Curb
  }

  /** The catalog entry under world point `(x, y)`, with the curb as fallback for unknown codes
      and for points off the grid. */
  function SurfaceInfo(t: TrackRecord, x: real, y: real): (s: Surface)
    requires Indexable(t)
    ensures 0.0 < s.traction <= 1.0
    ensures t.tileSize > 0 && !InWorld(t, x, y) ==> s == Catalog[Curb]
    ensures s.traction == 1.0 <==> GetTile(t, x, y) == Asphalt
    ensures GetTile(t, x, y) in Catalog ==> s == Catalog[GetTile(t, x, y)]
    ensures GetTile(t, x, y) !in Catalog ==> s == Catalog[Curb]
  {
    SurfaceOf(GetTile(t, x, y))
  }

  /** Every world point inside the square of tile `(tx, ty)` reads that tile's code. */
  lemma TileSquare(t: TrackRecord, tx: int, ty: int, x: real, y: real)
    requires Indexable(t) && t.tileSize > 0 && InTiles(t, tx, ty)
    requires (tx * t.tileSize) as real <= x < ((tx + 1) * t.tileSize) as real
    requires (ty * t.tileSize) as real <= y < ((ty + 1) * t.tileSize) as real
    ensures GetTile(t, x, y) == t.grid[ty][tx]
  {
    FloorInCell(x, t.tileSize, tx);
    FloorInCell(y, t.tileSize, ty);
  }

  /** A coordinate inside `[k * ts, (k + 1) * ts)` has tile index `k`. */
  lemma FloorInCell(v: real, tileSize: int, k: int)
    requires tileSize > 0
    requires (k * tileSize) as real <= v < ((k + 1) * tileSize) as real
    ensures TileIndex(v, tileSize) == k
  {
    var ts := tileSize as real;
    var q := v / ts;
    assert v == q * ts;
    assert (k * tileSize) as real == k as real * ts;
    assert ((k + 1) * tileSize) as real == (k as real + 1.0) * ts;
    var hi := k as real + 1.0;
    assert v < hi * ts;
    if q >= hi {
      assert false;
    }
    if q < k as real {
      assert false;
    }
  }
}
