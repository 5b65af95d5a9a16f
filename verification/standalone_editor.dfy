/** The standalone editor of track_editor.py: a fixed 50 by 30 grid painted one cell at a time,
    a movable start tile and the record its S key writes. It reacts to the same pygame events as
    the brush editor, so it shares their datatypes. */
module StandaloneEditor {
  import opened Outcome
  import opened Constants
  import opened Tracks
  import opened Dynamics
  import Editor

  const GridWidth: int := 50
  const GridHeight: int := 30

  /** The editor's module-level state. `running` is cleared by a window close; the rest of that
      frame's events are still handled. */
  datatype Standalone = Standalone(grid: Grid, start: StartPose, currentType: int, drawing: bool, running: bool)

  /** What every reachable state satisfies: a 30 by 50 grid and a surface the catalog knows. */
  predicate Valid(s: Standalone) {
    Editor.Shaped(s.grid, GridWidth, GridHeight) && s.currentType in Catalog
  }

  /** The state at program start: all offroad, start on the centre tile, asphalt selected. */
  function Initial(): (s: Standalone)
    ensures Valid(s) && s.running && !s.drawing && s.currentType == Asphalt
    ensures s.start == StartPose(25, 15, Some(0.0))
    ensures forall y, x :: 0 <= y < GridHeight && 0 <= x < GridWidth ==> s.grid[y][x] == Offroad
  {
    Standalone(Editor.Zeros(GridWidth, GridHeight), StartPose(GridWidth / 2, GridHeight / 2, Some(0.0)), Asphalt, false, true)
  }

  /** Tile `(tx, ty)` lies on the fixed grid. */
  predicate OnGrid(tx: int, ty: int) {
    0 <= tx < GridWidth && 0 <= ty < GridHeight
  }

  /** `grid[ty][tx] = value`. */
  function Paint(grid: Grid, tx: int, ty: int, value: int): (g: Grid)
    requires 0 <= ty < |grid| && 0 <= tx < |grid[ty]|
    ensures |g| == |grid| && forall y :: 0 <= y < |g| ==> |g[y]| == |grid[y]|
    ensures forall y, x :: 0 <= y < |g| && 0 <= x < |g[y]| ==>
      g[y][x] == (if y == ty && x == tx then value else grid[y][x])
  {
    grid[ty := grid[ty][tx := value]]
  }

  /** Painting one cell is the brush editor's stroke of size 1 on the same grid. */
  lemma PaintIsUnitBrush(grid: Grid, tx: int, ty: int, value: int)
    requires Editor.Shaped(grid, GridWidth, GridHeight) && OnGrid(tx, ty)
    ensures Paint(grid, tx, ty, value) == Editor.Brushed(grid, GridWidth, GridHeight, tx, ty, 1, value)
  {
    var p, b := Paint(grid, tx, ty, value), Editor.Brushed(grid, GridWidth, GridHeight, tx, ty, 1, value);
    forall y | 0 <= y < |p|
      ensures p[y] == b[y]
    {
      assert forall x :: 0 <= x < |p[y]| ==> p[y][x] == b[y][x];
    }
  }

  /** One event with the cursor over tile `(tx, ty)`. Keys 1-3 pick the surface (an `elif` chain,
      S saves and changes no state), the left button paints one cell and starts a stroke, the
      right button moves the start tile, releasing the left button ends the stroke and motion
      paints while a stroke is on. Clicks off the grid change nothing. */
  function Step(s: Standalone, tx: int, ty: int, e: Editor.Event): (r: Standalone)
    requires Editor.Shaped(s.grid, GridWidth, GridHeight)
    ensures Editor.Shaped(r.grid, GridWidth, GridHeight)
    ensures s.currentType in Catalog ==> r.currentType in Catalog
    ensures e.KeyDown? && e.key in {Editor.Key1, Editor.Key2, Editor.Key3} ==> r.currentType in Catalog
    ensures r.grid != s.grid ==>
      && OnGrid(tx, ty) && (e == Editor.MouseDown(1) || (e.MouseMotion? && s.drawing))
      && r.grid[ty][tx] == s.currentType
      && forall y, x :: 0 <= y < GridHeight && 0 <= x < GridWidth && (y != ty || x != tx) ==>
           r.grid[y][x] == s.grid[y][x]
    ensures r.start != s.start ==>
      OnGrid(tx, ty) && e == Editor.MouseDown(3) && r.start == s.start.(x := tx, y := ty)
    ensures e.MouseDown? && !OnGrid(tx, ty) ==> r == s
    ensures e.Quit? ==> r == s.(running := false)
    ensures e == Editor.MouseUp(1) ==> !r.drawing && r.grid == s.grid
    ensures OnGrid(tx, ty) && (e == Editor.MouseDown(1) || (e.MouseMotion? && s.drawing)) ==>
      r.grid == Paint(s.grid, tx, ty, s.currentType) && r.drawing
    ensures e.MouseMotion? && !s.drawing ==> r == s
    ensures e == Editor.KeyDown(Editor.Key1) ==> r == s.(currentType := Offroad)
    ensures e == Editor.KeyDown(Editor.Key2) ==> r == s.(currentType := Asphalt)
    ensures e == Editor.KeyDown(Editor.Key3) ==> r == s.(currentType := Curb)
    ensures e.KeyDown? && e.key !in {Editor.Key1, Editor.Key2, Editor.Key3} ==> r == s
    ensures e == Editor.MouseUp(1) ==> r == s.(drawing := false)
    ensures e.MouseUp? && e.button != 1 ==> r == s
    ensures r.running != s.running ==> e.Quit?
    ensures OnGrid(tx, ty) && e == Editor.MouseDown(1) ==>
      r == s.(grid := Paint(s.grid, tx, ty, s.currentType), drawing := true)
    ensures OnGrid(tx, ty) && e == Editor.MouseDown(3) ==> r == s.(start := s.start.(x := tx, y := ty))
    ensures e.MouseDown? && e.button != 1 && e.button != 3 ==> r == s
    ensures e.MouseMotion? && s.drawing ==>
      r == s.(grid := if OnGrid(tx, ty) then Paint(s.grid, tx, ty, s.currentType) else s.grid)
  {
    match e
    case Quit => s.(running := false)
    case KeyDown(k) => KeyStep(s, k)
    case MouseDown(b) => PressStep(s, tx, ty, b)
    case MouseUp(b) => if b == 1 then s.(drawing := false) else s
    case MouseMotion => MotionStep(s, tx, ty)
  }

  /** A key press: 1-3 pick the surface (an `elif` chain); every other key leaves the state alone. */
  function KeyStep(s: Standalone, k: Editor.Key): (r: Standalone)
    ensures r.(currentType := s.currentType) == s
    ensures k == Editor.Key1 ==> r.currentType == Offroad
    ensures k == Editor.Key2 ==> r.currentType == Asphalt
    ensures k == Editor.Key3 ==> r.currentType == Curb
    ensures k !in {Editor.Key1, Editor.Key2, Editor.Key3} ==> r == s
  {
    if k == Editor.Key1 then s.(currentType := Offroad)
    else if k == Editor.Key2 then s.(currentType := Asphalt)
    else if k == Editor.Key3 then s.(currentType := Curb)
    else s
  }

  /** A mouse press over tile `(tx, ty)`: the left button paints one cell and starts a stroke, the
      right button moves the start tile; other buttons, or a press off the grid, do nothing. */
  function PressStep(s: Standalone, tx: int, ty: int, b: int): (r: Standalone)
    requires Editor.Shaped(s.grid, GridWidth, GridHeight)
    ensures Editor.Shaped(r.grid, GridWidth, GridHeight)
    ensures b == 1 && OnGrid(tx, ty) ==> r == s.(grid := Paint(s.grid, tx, ty, s.currentType), drawing := true)
    ensures b == 3 && OnGrid(tx, ty) ==> r == s.(start := s.start.(x := tx, y := ty))
    ensures (b != 1 && b != 3) || !OnGrid(tx, ty) ==> r == s
  {
    if b == 1 then
      if OnGrid(tx, ty) then s.(grid := Paint(s.grid, tx, ty, s.currentType), drawing := true) else s
    else if b == 3 then
      if OnGrid(tx, ty) then s.(start := s.start.(x := tx, y := ty)) else s
    else s
  }

  /** Mouse motion over tile `(tx, ty)`: during a stroke the cell under the cursor is painted. */
  function MotionStep(s: Standalone, tx: int, ty: int): (r: Standalone)
    requires Editor.Shaped(s.grid, GridWidth, GridHeight)
    ensures Editor.Shaped(r.grid, GridWidth, GridHeight)
    ensures r == s.(grid := if s.drawing && OnGrid(tx, ty) then Paint(s.grid, tx, ty, s.currentType) else s.grid)
  {
    if s.drawing && OnGrid(tx, ty) then s.(grid := Paint(s.grid, tx, ty, s.currentType)) else s
  }

  /** One pass of the main loop: the cursor tile is read once, then every queued event is handled. */
  function Frame(s: Standalone, mouseX: int, mouseY: int, events: seq<Editor.Event>): Standalone
    requires Editor.Shaped(s.grid, GridWidth, GridHeight)
    decreases |events|
  {
    if |events| == 0 then s
    else
      Frame(Step(s, Editor.MouseTile(mouseX), Editor.MouseTile(mouseY), events[0]), mouseX, mouseY, events[1..])
  }

  /** Whatever events arrive, the grid stays 30 by 50, the selected surface stays a known code, and
      a grid of known codes never gains an unknown one. */
  lemma {:induction false} FrameKeepsValid(s: Standalone, mouseX: int, mouseY: int, events: seq<Editor.Event>)
    requires Valid(s)
    ensures Valid(Frame(s, mouseX, mouseY, events))
    ensures Editor.KnownCodes(s.grid) ==> Editor.KnownCodes(Frame(s, mouseX, mouseY, events).grid)
    decreases |events|
  {
    if |events| > 0 {
      var tx, ty := Editor.MouseTile(mouseX), Editor.MouseTile(mouseY);
      var next := Step(s, tx, ty, events[0]);
      FrameKeepsValid(next, mouseX, mouseY, events[1..]);
    }
  }

  /** The record the S key writes: the fixed size, the game's tile size, the grid and start. */
  function SaveRecord(s: Standalone): (t: TrackRecord)
    ensures t.width == GridWidth && t.height == GridHeight && t.tileSize == TileSize
    ensures t.grid == s.grid && t.start == Some(s.start)
  {
    TrackRecord("Custom Track", GridWidth, GridHeight, TileSize, s.grid, Some(s.start))
  }

  /** A saved track loads in the game: every lookup is in range, a car can be placed, and a start
      tile on the grid puts the car on the surface painted there. */
  lemma SavedTrackPlayable(s: Standalone)
    requires Valid(s)
    ensures Indexable(SaveRecord(s))
    ensures StartCar(SaveRecord(s)).Ok?
    ensures OnGrid(s.start.x, s.start.y) ==>
      var car := StartCar(SaveRecord(s)).value;
      GetTile(SaveRecord(s), car.x, car.y) == s.grid[s.start.y][s.start.x]
  {
  }
}
