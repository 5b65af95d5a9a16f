/** The brush track editor of main.py (`run_track_editor`): opening a slot with crop/pad repair of
    the stored grid, the square brush, and the key and mouse rules of its event loop. Files are
    given as already-parsed records; rendering and the window are not modelled. */
module Editor {
  import opened Outcome
  import opened Numeric
  import opened Constants
  import opened Tracks
  import opened Dynamics

  /** Caps on the size of a loaded grid. */
  const MaxGridWidth: int := 100
  const MaxGridHeight: int := 100

  /** Size of a brand-new track. */
  const NewWidth: int := 100
  const NewHeight: int := 80

  /** Pixels per tile on the editor canvas. */
  const EditTileSize: int := 16

  /** The grid has `max(h, 0)` rows of `max(w, 0)` cells: what `range(h)` by `range(w)` builds. */
  predicate Shaped(g: Grid, w: int, h: int) {
    && |g| == Max0(h)
    && forall y :: 0 <= y < |g| ==> |g[y]| == Max0(w)
  }

  /** Every cell holds a code the surface catalog knows. */
  predicate KnownCodes(g: Grid) {
    forall y, x :: 0 <= y < |g| && 0 <= x < |g[y]| ==> g[y][x] in Catalog
  }

  /** The editor's state. `open` becomes false when the editor returns to its caller. */
  datatype EditorState = EditorState(
    slot: string,
    width: int,
    height: int,
    grid: Grid,
    start: StartPose,
    currentType: int,
    brushSize: int,
    drawing: bool,
    open: bool)

  /** The brush sizes the Q/W/E keys select. */
  predicate BrushSize(n: int) {
    n == 1 || n == 3 || n == 5
  }

  /** What every reachable editor state satisfies. */
  predicate Valid(s: EditorState) {
    && Shaped(s.grid, s.width, s.height)
    && s.width <= MaxGridWidth && s.height <= MaxGridHeight
    && s.currentType in Catalog
    && BrushSize(s.brushSize)
  }

  // ---------------------------------------------------------------------------------------------
  // Opening a slot
  // ---------------------------------------------------------------------------------------------

  /** A `height` by `width` grid of offroad. */
  function Zeros(width: int, height: int): (g: Grid)
    ensures Shaped(g, width, height)
    ensures forall y, x :: 0 <= y < |g| && 0 <= x < |g[y]| ==> g[y][x] == Offroad
  {
    seq(Max0(height), y => seq(Max0(width), x => Offroad))
  }

  /** The cell the crop/pad repair puts at `(y, x)`: the stored cell where the stored grid has one,
      offroad elsewhere. Columns are bounded by the first row's length, as the Python loop is. */
  function CopiedCell(grid: Grid, y: int, x: int): int
    requires Rectangular(grid)
  {
    if 0 <= y < |grid| && 0 <= x < |grid[0]| then grid[y][x] else Offroad
  }

  /** The repaired grid: `height` rows of `width` cells, copied where they overlap the stored grid. */
  function Resized(grid: Grid, width: int, height: int): (g: Grid)
    requires Rectangular(grid)
    ensures Shaped(g, width, height)
  {
    seq(Max0(height), y => seq(Max0(width), x => CopiedCell(grid, y, x)))
  }

  /** The crop/pad loop as written: a zero grid, then a copy of the overlapping rectangle. */
  method ResizeGrid(grid: Grid, width: int, height: int) returns (g: Grid)
    requires Rectangular(grid)
    ensures g == Resized(grid, width, height)
  {
    g := Zeros(width, height);
    var rows := MinInt(|grid|, height);
    var y := 0;
    while y < rows
      invariant 0 <= y <= Max0(rows)
      invariant Shaped(g, width, height)
      invariant forall i, j :: 0 <= i < |g| && 0 <= j < |g[i]| ==>
        g[i][j] == (if i < y then CopiedCell(grid, i, j) else Offroad)
    {
      var cols := MinInt(|grid[0]|, width);
      var x := 0;
      while x < cols
        invariant 0 <= x <= Max0(cols)
        invariant Shaped(g, width, height)
        invariant forall i, j :: 0 <= i < |g| && 0 <= j < |g[i]| ==>
          g[i][j] == (if i < y || (i == y && j < x) then CopiedCell(grid, i, j) else Offroad)
      {
        g := g[y := g[y][x := grid[y][x]]];
        x := x + 1;
      }
      y := y + 1;
    }
    var want := Resized(grid, width, height);
    forall i | 0 <= i < |g|
      ensures g[i] == want[i]
    {
      assert forall j :: 0 <= j < |g[i]| ==> g[i][j] == CopiedCell(grid, i, j);
    }
  }

  /** The grid as the editor opens it: the stored grid itself when its size matches the capped
      declared size, the repaired copy otherwise. With no rows and a height of 0 the size check
      reads the missing first row, which is the failure case. */
  function LoadGrid(grid: Grid, width: int, height: int): (r: Result<Grid, LoadError>)
    requires Rectangular(grid)
  {
    if |grid| != height then Ok(Resized(grid, width, height))
    else if |grid| == 0 then Err(FirstRowMissing)
    else if |grid[0]| != width then Ok(Resized(grid, width, height))
    else Ok(grid)
  }

  /** Why opening a slot raises instead of returning an editor. */
  datatype LoadError = FirstRowMissing

  /** A fresh editor on `slot` with the given track. */
  function Fresh(slot: string, width: int, height: int, grid: Grid, start: StartPose): EditorState {
    EditorState(slot, width, height, grid, start, Asphalt, 1, false, true)
  }

  /** The start pose used when the file gives none: the centre tile, facing angle 0. */
  function DefaultStart(width: int, height: int): StartPose {
    StartPose(width / 2, height / 2, Some(0.0))
  }

  /** Opening a slot: `file` is the parsed track if the slot exists. A missing slot gives a new
      100 by 80 offroad track; an existing one has its declared size capped at 100 and its grid
      cropped or zero-padded to that size, keeping the overlapping cells. */
  function Open(slot: string, file: Option<TrackRecord>): (r: Result<EditorState, LoadError>)
    requires file.Some? ==> Rectangular(file.value.grid)
    ensures r.Err? <==> file.Some? && |file.value.grid| == 0 && MinInt(file.value.height, MaxGridHeight) == 0
    ensures r.Ok? ==> Valid(r.value) && r.value.open && !r.value.drawing && r.value.slot == slot
    ensures r.Ok? ==> r.value.currentType == Asphalt && r.value.brushSize == 1
    ensures file.None? ==>
      && r.Ok? && r.value.width == NewWidth && r.value.height == NewHeight
      && r.value.start == StartPose(50, 40, Some(0.0))
      && forall y, x :: 0 <= y < NewHeight && 0 <= x < NewWidth ==> r.value.grid[y][x] == Offroad
    ensures file.Some? && r.Ok? ==>
      && r.value.width == MinInt(file.value.width, MaxGridWidth)
      && r.value.height == MinInt(file.value.height, MaxGridHeight)
      && r.value.start == ValueOr(file.value.start, DefaultStart(r.value.width, r.value.height))
      && forall y, x :: 0 <= y < r.value.height && 0 <= x < r.value.width ==>
           r.value.grid[y][x] == CopiedCell(file.value.grid, y, x)
  {
    match file
    case None =>
      Ok(Fresh(slot, NewWidth, NewHeight, Zeros(NewWidth, NewHeight), DefaultStart(NewWidth, NewHeight)))
    case Some(data) =>
      var width := MinInt(data.width, MaxGridWidth);
      var height := MinInt(data.height, MaxGridHeight);
      match LoadGrid(data.grid, width, height)
      case Err(e) => Err(e)
      case Ok(grid) => Ok(Fresh(slot, width, height, grid, ValueOr(data.start, DefaultStart(width, height))))
  }

  /** A stored grid that already has the capped declared size is opened unchanged. */
  lemma OpenKeepsFittingGrid(slot: string, data: TrackRecord)
    requires Rectangular(data.grid)
    requires 0 < data.height <= MaxGridHeight && 0 <= data.width <= MaxGridWidth
    requires Shaped(data.grid, data.width, data.height)
    ensures Open(slot, Some(data)).Ok? && Open(slot, Some(data)).value.grid == data.grid
  {
  }

  // ---------------------------------------------------------------------------------------------
  // The brush
  // ---------------------------------------------------------------------------------------------

  /** Cell `(x, y)` is inside the declared grid. */
  predicate InGrid(width: int, height: int, x: int, y: int) {
    0 <= x < width && 0 <= y < height
  }

  /** Cell `(x, y)` is within Chebyshev distance `radius` of `(cx, cy)`. */
  predicate InSquare(cx: int, cy: int, radius: int, x: int, y: int) {
    AbsInt(x - cx) <= radius && AbsInt(y - cy) <= radius
  }

  /** The grid after painting `value` on every in-grid cell of the `size` brush centred on
      `(cx, cy)`: a square of radius `size // 2`. */
  function Brushed(grid: Grid, width: int, height: int, cx: int, cy: int, size: int, value: int): (g: Grid)
  {
    seq(|grid|, y requires 0 <= y < |grid| =>
      seq(|grid[y]|, x requires 0 <= x < |grid[y]| =>
        if InGrid(width, height, x, y) && InSquare(cx, cy, size / 2, x, y) then value else grid[y][x]))
  }

  /** `apply_brush` as written: two nested loops over the square's offsets with a bounds check. */
  method ApplyBrush(grid: Grid, width: int, height: int, cx: int, cy: int, size: int, value: int)
    returns (g: Grid)
    requires Shaped(grid, width, height)
    ensures g == Brushed(grid, width, height, cx, cy, size, value)
  {
    g := grid;
    var radius := size / 2;
    var dy := -radius;
    while dy <= radius
      invariant radius >= 0 ==> -radius <= dy <= radius + 1
      invariant |g| == |grid| && forall i :: 0 <= i < |g| ==> |g[i]| == |grid[i]|
      invariant forall i, j :: 0 <= i < |g| && 0 <= j < |g[i]| ==>
        g[i][j] == (if InGrid(width, height, j, i) && InSquare(cx, cy, radius, j, i) && i < cy + dy
                    then value else grid[i][j])
    {
      var dx := -radius;
      while dx <= radius
        invariant -radius <= dx <= radius + 1
        invariant |g| == |grid| && forall i :: 0 <= i < |g| ==> |g[i]| == |grid[i]|
        invariant forall i, j :: 0 <= i < |g| && 0 <= j < |g[i]| ==>
          g[i][j] == (if InGrid(width, height, j, i) && InSquare(cx, cy, radius, j, i)
                         && (i < cy + dy || (i == cy + dy && j < cx + dx))
                      then value else grid[i][j])
      {
        var nx, ny := cx + dx, cy + dy;
        if 0 <= ny < height && 0 <= nx < width {
          g := g[ny := g[ny][nx := value]];
        }
        dx := dx + 1;
      }
      dy := dy + 1;
    }
    var want := Brushed(grid, width, height, cx, cy, size, value);
    forall i | 0 <= i < |g|
      ensures g[i] == want[i]
    {
      assert forall j :: 0 <= j < |g[i]| ==> g[i][j] == want[i][j];
    }
  }

  /** The brush paints exactly the in-grid cells of its square, leaves every other cell and the
      grid's shape alone, and painting the same stroke twice changes nothing more. */
  lemma BrushFrame(grid: Grid, width: int, height: int, cx: int, cy: int, size: int, value: int)
    ensures var g := Brushed(grid, width, height, cx, cy, size, value);
      && |g| == |grid| && (forall y :: 0 <= y < |g| ==> |g[y]| == |grid[y]|)
      && (Shaped(grid, width, height) ==> Shaped(g, width, height))
      && (forall y, x :: 0 <= y < |grid| && 0 <= x < |grid[y]| ==>
            if InGrid(width, height, x, y) && InSquare(cx, cy, size / 2, x, y) then g[y][x] == value
            else g[y][x] == grid[y][x])
      && Brushed(g, width, height, cx, cy, size, value) == g
  {
    var g := Brushed(grid, width, height, cx, cy, size, value);
    var g2 := Brushed(g, width, height, cx, cy, size, value);
    forall y | 0 <= y < |g|
      ensures g2[y] == g[y]
    {
    }
  }

  /** Painting only ever writes `value`, so a grid of known codes stays one when `value` is known. */
  lemma BrushKeepsCodes(grid: Grid, width: int, height: int, cx: int, cy: int, size: int, value: int)
    requires KnownCodes(grid) && value in Catalog
    ensures KnownCodes(Brushed(grid, width, height, cx, cy, size, value))
  {
  }

  // ---------------------------------------------------------------------------------------------
  // Events
  // ---------------------------------------------------------------------------------------------

  /** The keys the editor reacts to; every other key is `OtherKey`. */
  datatype Key = Key1 | Key2 | Key3 | KeyQ | KeyW | KeyE | KeyS | KeyEscape | OtherKey

  /** The pygame events the editor handles. Mouse events carry their button number. */
  datatype Event = Quit | KeyDown(key: Key) | MouseDown(button: int) | MouseUp(button: int) | MouseMotion

  /** The tile under a pixel coordinate: `m // 16`. */
  function MouseTile(m: int): (t: int)
    ensures EditTileSize * t <= m < EditTileSize * t + EditTileSize
  {
    m / EditTileSize
  }

  /** The record the S key writes to the slot. */
  function SaveRecord(s: EditorState): (t: TrackRecord)
    ensures t.width == s.width && t.height == s.height && t.tileSize == EditTileSize
    ensures t.grid == s.grid && t.start == Some(s.start)
  {
    TrackRecord("Custom Track - " + s.slot, s.width, s.height, EditTileSize, s.grid, Some(s.start))
  }

  /** One event with the cursor over tile `(tx, ty)`. Quit and Escape close the editor; keys 1-3
      pick the surface, Q/W/E the brush size; the left button paints and starts a stroke, the right
      button moves the start tile, releasing the left button ends the stroke, and motion paints
      while a stroke is on. Clicks outside the grid do nothing. */
  function Step(s: EditorState, tx: int, ty: int, e: Event): (r: EditorState)
    ensures r.width == s.width && r.height == s.height && r.slot == s.slot
    ensures Valid(s) ==> Valid(r)
    ensures !s.open ==> r == s
    ensures s.open && (e.Quit? || e == KeyDown(KeyEscape)) ==> r == s.(open := false)
    ensures r.grid != s.grid ==>
      && InGrid(s.width, s.height, tx, ty)
      && r.grid == Brushed(s.grid, s.width, s.height, tx, ty, s.brushSize, s.currentType)
    ensures r.start != s.start ==>
      && InGrid(s.width, s.height, tx, ty) && e == MouseDown(3)
      && r.start == s.start.(x := tx, y := ty)
    ensures s.open && InGrid(s.width, s.height, tx, ty) && (e == MouseDown(1) || (e.MouseMotion? && s.drawing)) ==>
      && r.grid == Brushed(s.grid, s.width, s.height, tx, ty, s.brushSize, s.currentType)
      && r.drawing
    ensures e.MouseMotion? && !s.drawing ==> r == s
    ensures e.MouseDown? && !InGrid(s.width, s.height, tx, ty) ==> r == s
    ensures s.open && e == KeyDown(Key1) ==> r == s.(currentType := Offroad)
    ensures s.open && e == KeyDown(Key2) ==> r == s.(currentType := Asphalt)
    ensures s.open && e == KeyDown(Key3) ==> r == s.(currentType := Curb)
    ensures s.open && e == KeyDown(KeyQ) ==> r == s.(brushSize := 1)
    ensures s.open && e == KeyDown(KeyW) ==> r == s.(brushSize := 3)
    ensures s.open && e == KeyDown(KeyE) ==> r == s.(brushSize := 5)
    ensures e == KeyDown(KeyS) || e == KeyDown(OtherKey) ==> r == s
    ensures s.open && e == MouseUp(1) ==> r == s.(drawing := false)
    ensures e.MouseUp? && e.button != 1 ==> r == s
    ensures s.open && InGrid(s.width, s.height, tx, ty) && e == MouseDown(1) ==>
      r == s.(grid := Brushed(s.grid, s.width, s.height, tx, ty, s.brushSize, s.currentType), drawing := true)
    ensures s.open && InGrid(s.width, s.height, tx, ty) && e == MouseDown(3) ==>
      r == s.(start := s.start.(x := tx, y := ty))
    ensures e.MouseDown? && e.button != 1 && e.button != 3 ==> r == s
    ensures s.open && e.MouseMotion? && s.drawing ==>
      r == s.(grid := if InGrid(s.width, s.height, tx, ty)
                      then Brushed(s.grid, s.width, s.height, tx, ty, s.brushSize, s.currentType)
                      else s.grid)
  {
    if !s.open then s
    else
      match e
      case Quit => s.(open := false)
      case KeyDown(k) => KeyStep(s, k)
      case MouseDown(b) => PressStep(s, tx, ty, b)
      case MouseUp(b) => if b == 1 then s.(drawing := false) else s
      case MouseMotion => MotionStep(s, tx, ty)
  }

  /** A key press in an open editor: Escape closes it, 1-3 pick the surface, Q/W/E the brush. */
  function KeyStep(s: EditorState, k: Key): (r: EditorState)
    ensures r.(open := s.open, currentType := s.currentType, brushSize := s.brushSize) == s
    ensures Valid(s) ==> Valid(r)
    ensures k == KeyEscape ==> r == s.(open := false)
    ensures k != KeyEscape ==> r.open == s.open
    ensures k == Key1 ==> r == s.(currentType := Offroad)
    ensures k == Key2 ==> r == s.(currentType := Asphalt)
    ensures k == Key3 ==> r == s.(currentType := Curb)
    ensures k == KeyQ ==> r == s.(brushSize := 1)
    ensures k == KeyW ==> r == s.(brushSize := 3)
    ensures k == KeyE ==> r == s.(brushSize := 5)
    ensures k == KeyS || k == OtherKey ==> r == s
  {
    match k
    case KeyEscape => s.(open := false)
    case Key1 => s.(currentType := Offroad)
    case Key2 => s.(currentType := Asphalt)
    case Key3 => s.(currentType := Curb)
    case KeyQ => s.(brushSize := 1)
    case KeyW => s.(brushSize := 3)
    case KeyE => s.(brushSize := 5)
    case KeyS => s
    case OtherKey => s
  }

  /** A mouse press over tile `(tx, ty)`: the left button paints and starts a stroke, the right
      button moves the start tile; anything else, or a press off the grid, does nothing. */
  function PressStep(s: EditorState, tx: int, ty: int, b: int): (r: EditorState)
    ensures Valid(s) ==> Valid(r)
    ensures b == 1 && InGrid(s.width, s.height, tx, ty) ==>
      r == s.(grid := Brushed(s.grid, s.width, s.height, tx, ty, s.brushSize, s.currentType), drawing := true)
    ensures b == 3 && InGrid(s.width, s.height, tx, ty) ==> r == s.(start := s.start.(x := tx, y := ty))
    ensures (b != 1 && b != 3) || !InGrid(s.width, s.height, tx, ty) ==> r == s
  {
    if b == 1 && InGrid(s.width, s.height, tx, ty) then
      BrushFrame(s.grid, s.width, s.height, tx, ty, s.brushSize, s.currentType);
      s.(grid := Brushed(s.grid, s.width, s.height, tx, ty, s.brushSize, s.currentType), drawing := true)
    else if b == 3 && InGrid(s.width, s.height, tx, ty) then
      s.(start := s.start.(x := tx, y := ty))
    else s
  }

  /** Mouse motion over tile `(tx, ty)`: during a stroke the brush paints there if it is on the grid. */
  function MotionStep(s: EditorState, tx: int, ty: int): (r: EditorState)
    ensures Valid(s) ==> Valid(r)
    ensures r == s.(grid := if s.drawing && InGrid(s.width, s.height, tx, ty)
                            then Brushed(s.grid, s.width, s.height, tx, ty, s.brushSize, s.currentType)
                            else s.grid)
  {
    if s.drawing && InGrid(s.width, s.height, tx, ty) then
      BrushFrame(s.grid, s.width, s.height, tx, ty, s.brushSize, s.currentType);
      s.(grid := Brushed(s.grid, s.width, s.height, tx, ty, s.brushSize, s.currentType))
    else s
  }

  /** One frame of the event loop: the cursor position is read once, then every queued event is
      handled with that tile until one closes the editor. */
  function Frame(s: EditorState, mouseX: int, mouseY: int, events: seq<Event>): EditorState
    decreases |events|
  {
    if |events| == 0 then s
    else Frame(Step(s, MouseTile(mouseX), MouseTile(mouseY), events[0]), mouseX, mouseY, events[1..])
  }

  /** Any sequence of events keeps the editor valid, keeps its size and slot, and keeps a grid of
      known codes free of unknown ones. */
  lemma {:induction false} FrameKeepsValid(s: EditorState, mouseX: int, mouseY: int, events: seq<Event>)
    requires Valid(s)
    ensures var r := Frame(s, mouseX, mouseY, events);
      && Valid(r) && r.width == s.width && r.height == s.height && r.slot == s.slot
      && (KnownCodes(s.grid) ==> KnownCodes(r.grid))
    decreases |events|
  {
    if |events| > 0 {
      var tx, ty := MouseTile(mouseX), MouseTile(mouseY);
      var next := Step(s, tx, ty, events[0]);
      if next.grid != s.grid && KnownCodes(s.grid) {
        BrushKeepsCodes(s.grid, s.width, s.height, tx, ty, s.brushSize, s.currentType);
      }
      FrameKeepsValid(next, mouseX, mouseY, events[1..]);
    }
  }

  /** Once the editor is closed no later event changes it. */
  lemma {:induction false} ClosedIgnoresEvents(s: EditorState, mouseX: int, mouseY: int, events: seq<Event>)
    requires !s.open
    ensures Frame(s, mouseX, mouseY, events) == s
    decreases |events|
  {
    if |events| > 0 {
      ClosedIgnoresEvents(s, mouseX, mouseY, events[1..]);
    }
  }

  // ---------------------------------------------------------------------------------------------
  // Save and reopen
  // ---------------------------------------------------------------------------------------------

  /** Saving and reopening the slot gives back the same size, grid and start pose, with the
      surface, brush and stroke reset, as long as the height is not 0. */
  lemma SaveReopen(s: EditorState)
    requires Valid(s) && s.open && s.height != 0
    ensures Open(s.slot, Some(SaveRecord(s))) == Ok(Fresh(s.slot, s.width, s.height, s.grid, s.start))
  {
    var t := SaveRecord(s);
    assert Rectangular(t.grid) by {
      if |t.grid| > 0 {
        assert forall y :: 0 <= y < |t.grid| ==> |t.grid[y]| == Max0(s.width);
      }
    }
    var loaded := LoadGrid(t.grid, s.width, s.height);
    assert loaded == Ok(s.grid) by {
      if |s.grid| != s.height || |s.grid[0]| != s.width {
        ResizedIdentity(s.grid, s.width, s.height);
      }
    }
  }

  /** A saved track loads in the game: every lookup is in range, a car can be placed, and a start
      tile on the grid puts the car on the surface painted there. */
  lemma SavedTrackPlayable(s: EditorState)
    requires Valid(s)
    ensures Indexable(SaveRecord(s))
    ensures StartCar(SaveRecord(s)).Ok?
    ensures InGrid(s.width, s.height, s.start.x, s.start.y) ==>
      var car := StartCar(SaveRecord(s)).value;
      GetTile(SaveRecord(s), car.x, car.y) == s.grid[s.start.y][s.start.x]
  {
  }

  /** Repairing a grid that already has the target shape reproduces it. */
  lemma ResizedIdentity(grid: Grid, width: int, height: int)
    requires Shaped(grid, width, height) && Rectangular(grid)
    ensures Resized(grid, width, height) == grid
  {
    var g := Resized(grid, width, height);
    forall y | 0 <= y < |g|
      ensures g[y] == grid[y]
    {
      assert |grid[0]| == Max0(width);
    }
  }

  /** A saved track of height 0 has no rows, so reopening it fails on the missing first row. */
  lemma SaveReopenHeightZero(s: EditorState)
    requires Valid(s) && s.height == 0
    ensures Open(s.slot, Some(SaveRecord(s))).Err?
  {
  }
}
