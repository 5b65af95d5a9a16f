# EasyRaceW simulation kernel in Dafny

EasyRaceW is a small top-down racing game written with pygame. The game, its two track editors and
its AI runner all share one small simulation kernel, and this project models that kernel:

- **Surface catalog and tile lookup.** `game/constants.py` holds the traction table.
  `Track.get_tile` and `Track.get_surface_info` (in `main.py` and `game/core.py`) turn a world
  point into a tile code and a surface. Points off the grid and unknown codes read as curb.
- **One tick of car dynamics (`Car.update`).** In order: throttle and reverse, the speed clamp,
  friction, steering scaled by the speed fraction, then a move along the heading. The move is
  scaled by the traction at the *prospective* position, and cut to 5% under the handbrake.
  `main.py`'s car (top speed 10, handbrake) and `game/core.py`'s car (top speed 4, no handbrake)
  are one model with a `Variant` parameter. The start placement of `Game.__init__` is modelled
  too.
- **The AI runner's codec (`test_ai.py`).**
  - the action-id-to-keys table, with its inverse;
  - the 8-number observation: normalised speed, heading sine and cosine mapped to [0, 1], and
    five stepped rays.
- **The brush editor of `main.py` (`run_track_editor`).**
  - opening a slot, which caps the declared size at 100 and crops or zero-pads the stored grid;
  - the square brush;
  - the key and mouse rules of its event loop;
  - the record the S key saves.
- **The standalone editor `track_editor.py`.** Its fixed 50 by 30 grid, single-cell painting,
  drag flag, start tile and saved record.

Python floats are Dafny `real`s. `math.radians` is `deg * π / 180`, with π written as the double
`math.pi`; the rounding of the double product is not modelled.
`cos` and `sin` are function-valued parameters (`Dynamics.Trig`). A property that needs them
bounded, or on the unit circle, takes that as a hypothesis (`TrigBounded`, `UnitTrig`). Python's
floor division `//` by a positive divisor is Dafny's Euclidean `/`. A float `int(x // ts)` is
`(x / ts).Floor`. Two exceptions become `Result` errors: a track file with no start position
(`Dynamics.StartCar`) and the editor's read of a missing first row (`Editor.Open`). The others
are excluded by preconditions, listed under "Left out".

A few behaviours of the code worth knowing, which the model keeps:

- The speed is clamped first; friction then applies only when neither pedal is held.
- The AI runner's action table has nine ids. Id 8 holds only SPACE, the handbrake.
- `get_surface_info` falls back to the curb entry (0.6) for an unknown code. That is not the
  lowest traction; offroad is 0.3.
- The handbrake multiplies the traction by 0.05 unconditionally. Every catalog traction is
  positive, so the result is always positive.

## Model

| member | source | states |
|---|---|---|
| Constants.SurfaceOf | main.py:54-56 | a known code gets its own catalog entry and any other code the curb entry; the traction is 1.0 for asphalt, 0.3 for offroad and 0.6 for everything else |
| Constants.CatalogShape | game/constants.py:10-17 | the catalog holds exactly codes 0, 1, 2; every traction is in (0, 1]; asphalt > curb > offroad; the tile size is positive |
| Tracks.IndexInRange | main.py:48-50 | for a positive tile size, a floor-divided tile index lies in [0, n) exactly when the coordinate lies in [0, n * tileSize) |
| Tracks.GetTile | main.py:47-52 | a point outside the declared world rectangle (negative ones included) reads code 2; a point inside reads `grid[y // ts][x // ts]`, and those indices are in range |
| Tracks.SurfaceInfo | game/core.py:25-27 | the surface is the catalog entry of the tile under the point, or the curb entry for an unknown code or a point off the grid; traction is in (0, 1] and is 1 exactly on asphalt |
| Tracks.TileSquare | game/core.py:18-23 | every world point inside the square of tile (tx, ty) reads that tile's code |
| Dynamics.NextSpeed | main.py:78-91 | the speed ends in [-max/2, max] for any keys and any start; with no pedal it moves toward 0 by at most the friction, never changing sign, and reaches 0 or moves by exactly 0.1; W alone adds 0.15, S alone subtracts 0.105, both together net +0.045, each capped at the clamp |
| Dynamics.NextAngle | main.py:97-100 | A and D together, or speed 0, leave the heading unchanged; A alone turns by -2.5 * \|speed\| / max, D alone by +2.5 * \|speed\| / max; within the speed range the turn is at most 2.5 degrees |
| Dynamics.TurnBound | game/core.py:59-62 | the turn per tick is non-negative, and at most the steering rate when \|speed\| <= max |
| Dynamics.Traction | main.py:107-111 | grip is the traction of the tile at the point (1.0 asphalt, 0.3 offroad, 0.6 otherwise), times 0.05 with the handbrake; it is in (0, 1] |
| Dynamics.Move | main.py:113-114 | only the position changes; a car at speed 0 stays put; with full grip the car moves by the whole intended displacement |
| Dynamics.MoveAlongHeading | main.py:102-114 | each axis moves the grip fraction of the intended displacement, in its direction, and the path is parallel to the heading vector |
| Dynamics.Control | main.py:78-100 | the position is unchanged; the new speed is the pedal, clamp and friction rule of `NextSpeed` and the new heading the per-key steering rule of `NextAngle` at that speed; the speed ends in range; with no pedal \|speed\| does not grow and keeps its sign; the heading turns by at most 2.5 degrees, and not at all with A+D or speed 0; the handbrake flag is the SPACE key in the handbrake variant, unchanged otherwise |
| Dynamics.Update | main.py:76-114 | for both variants: the new speed and heading follow the per-key rules of `NextSpeed` and `NextAngle`; speed in [-max/2, max]; friction never grows \|speed\| or flips its sign; the heading rules hold; a car whose new speed is 0 does not move; the handbrake flag follows SPACE only in main.py's car |
| Dynamics.UpdateDisplacement | main.py:102-114 | each axis moves at most the intended displacement \|speed * cos\|, \|speed * sin\|, and at most 5% of it under the handbrake |
| Dynamics.TractionLookahead | main.py:102-114 | the car moves the intended displacement times the traction of the tile at the prospective position, and a twentieth of that under the handbrake; the tile it stands on plays no part |
| Dynamics.FreeRollingLookahead | game/core.py:64-72 | without the handbrake the car covers all of the intended displacement towards asphalt, 30% towards offroad, 60% towards curb or an unknown code |
| Dynamics.HandbrakeLookahead | main.py:107-114 | under the handbrake the car covers 5% of the intended displacement towards asphalt, 1.5% towards offroad, 3% towards curb or an unknown code |
| Dynamics.OffGridLookahead | main.py:47-52 | a prospective position off the grid reads as curb: the car covers 60% of the intended displacement, or 3% under the handbrake |
| Dynamics.IntendedWithinSpeed | main.py:103-105 | with cos and sin in [-1, 1], each component of the intended displacement is at most \|speed\| |
| Dynamics.StepWithinSpeed | main.py:102-114 | with bounded trig the car moves at most \|new speed\| along each axis, and at most 5% of it under the handbrake |
| Dynamics.MoveDistanceBound | main.py:102-114 | with cos² + sin² = 1, the Euclidean distance moved in one tick is at most \|new speed\| |
| Dynamics.MoveWithinSpeed | main.py:113-114 | a move along a unit direction, scaled by a grip in (0, 1], covers at most \|speed\| |
| Dynamics.DriveKeepsSpeedInRange | main.py:142-156 | after any non-empty sequence of per-frame updates, or any sequence from an in-range speed, the speed is in [-max/2, max] |
| Dynamics.CoreIgnoresSpace | game/core.py:46-72 | in game/core.py's car, SPACE changes nothing in a tick, and the speed stays in [-2, 4] |
| Dynamics.StartCar | main.py:122-128 | a missing start position is the only failure; the car starts at rest at the centre of its start tile, `x = sx * ts + ts // 2` and `y = sy * ts + ts // 2`, facing the file's angle or 0; for ts >= 1 and an in-grid start tile, the tile under the car is the start tile's code |
| Dynamics.CentreInTile | game/core.py:84-85 | for ts >= 1 the centre `k * ts + ts // 2` lies in [k * ts, (k + 1) * ts) |
| Agent.ActionToKeys | test_ai.py:51-68 | never W with S, never A with D; ids outside 0..8 hold no key; SPACE is held exactly for id 8, and then alone; ids 0-3 and 8 hold one key, ids 4-7 hold two |
| Agent.KeysToAction | test_ai.py:59-67 | a recognised key set maps to an id in 0..8 |
| Agent.ActionKeysRoundTrip | test_ai.py:51-68 | decoding the keys of any id in 0..8 gives that id back; a key set that decodes is exactly the keys of its id |
| Agent.ActionsDistinct | test_ai.py:59-67 | distinct ids in 0..8 hold distinct key sets |
| Agent.NormSpeed | test_ai.py:22-23 | the feature is in [0, 1]; it is 0 exactly at or below -max/2 and 1 exactly at or above max; inside the range it inverts to speed = r * 1.5 max - max/2 |
| Agent.NormSpeedMonotone | test_ai.py:22-23 | the speed feature is monotone in the speed |
| Agent.HeadingFeature | test_ai.py:25-27 | the feature is in [0, 1] exactly when its input is in [-1, 1], and `2r - 1` recovers the input |
| Agent.RayFrom | test_ai.py:30-38 | the result is in [0, 1]; it is 1 exactly when no remaining sample hits offroad or curb; otherwise it is d/200 at the first sample that hits |
| Agent.CastRay | test_ai.py:30-38 | every ray value is in [0, 1] |
| Agent.CastRayMeaning | test_ai.py:32-38 | a ray reads 1 exactly when none of the samples at d = 0, 4, ..., 196 hits offroad or curb, and reads below 1 exactly when there is a first hit, at d/200 |
| Agent.RaysZeroOffTrack | test_ai.py:32-37 | a car standing on offroad or curb reads 0 on every ray |
| Agent.Observe | test_ai.py:40-41 | the observation has 8 components in the order normalised speed, sine feature, cosine feature, then one ray per entry of `RayOffsets` |
| Agent.ObservationInUnitBox | test_ai.py:20-41 | with bounded trig every component is in [0, 1]; the speed component is 0 exactly at full reverse and 1 exactly at top speed |
| Agent.ObservationRays | test_ai.py:30-41 | ray n of the observation looks -90 + 45n degrees off the heading; it reads 1 exactly when no sample in that direction is offroad or curb, and otherwise d/200 at the first one that is |
| Agent.ObservationOffTrack | test_ai.py:40-41 | on offroad or curb the five ray components are all 0 |
| Agent.AgentStep | test_ai.py:47-49 | the chosen id's keys drive the tick: the new speed and heading are `NextSpeed` and `NextAngle` under `ActionToKeys(id)`; the speed stays in main.py's range; the handbrake flag is set exactly for id 8; an unknown id only coasts, never turning or speeding up |
| Agent.ThrottleLeftAction | test_ai.py:63 | id 4 adds one acceleration step, capped at top speed, and turns left by 2.5 times the new speed fraction, both in the same tick |
| Agent.HandbrakeActionCrawls | test_ai.py:67 | with bounded trig, id 8 moves the car at most 5% of its speed along each axis |
| Editor.Zeros | main.py:198 | a grid of max(h, 0) rows of max(w, 0) cells, all offroad |
| Editor.Resized | main.py:197-202 | the repaired grid has the target shape |
| Editor.ResizeGrid | main.py:197-202 | the zero-fill-then-copy loops compute exactly the repaired grid: stored cells where they overlap, offroad elsewhere |
| Editor.Open | main.py:188-208 | a missing slot opens a 100 by 80 offroad track with start (50, 40, 0); an existing slot gets width and height capped at 100, the stored start or the centre tile, and every cell copied where the grids overlap and 0 elsewhere; the result is a valid open editor with asphalt and brush 1; it fails exactly when the stored grid is empty and the capped height is 0 |
| Editor.OpenKeepsFittingGrid | main.py:197-202 | a stored grid that already has the declared size opens unchanged |
| Editor.ApplyBrush | main.py:225-231 | the nested offset loops compute exactly the grid with every in-grid cell within Chebyshev radius size // 2 of the centre set to the value |
| Editor.BrushFrame | main.py:225-231 | the brush paints exactly the in-grid cells of its square, leaves every other cell and the grid's shape alone, and is idempotent |
| Editor.BrushKeepsCodes | main.py:231 | painting a known code keeps a grid of known codes known |
| Editor.MouseTile | main.py:236-237 | the tile index puts the pixel inside that tile's 16-pixel span |
| Editor.SaveRecord | main.py:251-259 | the saved record keeps the editor's width, height, grid and start, with tile size 16 |
| Editor.Step | main.py:239-276 | size and slot are kept and validity is preserved; a closed editor ignores events; Quit and Escape close it; keys 1/2/3 select codes 0/1/2 and Q/W/E brush sizes 1/3/5, changing nothing else; S and other keys change nothing; a left click in the grid applies the brush and marks a stroke, and changes nothing else; motion during a stroke applies the brush in the grid and changes nothing off it; nothing else changes the grid; left release only ends the stroke; a right click in the grid moves the start tile to that tile, keeping its angle, changes nothing else, and is the only event that moves it; middle and other buttons, motion with no stroke and clicks off the grid change nothing |
| Editor.FrameKeepsValid | main.py:234-276 | any frame of events keeps the editor valid, its size and slot, and a grid of known codes known |
| Editor.ClosedIgnoresEvents | main.py:240-244 | after a quit or Escape no later event of the frame changes anything |
| Editor.SaveReopen | main.py:190-203 | saving and reopening gives back the same size, grid and start pose, with selection, brush and stroke reset, for any height other than 0 |
| Editor.SavedTrackPlayable | main.py:251-259 | a saved track is one the game can read at every tile and place a car on; a start tile on the grid puts the car on the surface painted there |
| Editor.ResizedIdentity | main.py:197-202 | repairing a grid that already has the target shape reproduces it |
| Editor.SaveReopenHeightZero | main.py:193-197 | a saved track of height 0 has no rows, and reopening it fails on the missing first row |
| StandaloneEditor.Initial | track_editor.py:26-35 | the initial grid is 30 by 50 offroad, the start is (25, 15, 0), asphalt is selected, no stroke is on |
| StandaloneEditor.Paint | track_editor.py:73 | the painted grid has the same shape, with exactly cell (tx, ty) set |
| StandaloneEditor.PaintIsUnitBrush | track_editor.py:73 | painting one cell is the brush editor's stroke of size 1 |
| StandaloneEditor.Step | track_editor.py:42-87 | the grid stays 30 by 50; keys 1/2/3 select codes 0/1/2 and change nothing else, every other key changes nothing; a left click on the grid paints exactly that cell and marks a stroke, and changes nothing else; motion during a stroke paints the cell under the cursor on the grid and changes nothing off it; nothing else changes the grid; a right click on the grid moves the start tile to that tile, keeping its angle, changes nothing else, and is the only event that moves it; other buttons and a click off the grid change nothing; only Quit touches the running flag, and clears only it; left release only ends the stroke |
| StandaloneEditor.FrameKeepsValid | track_editor.py:37-87 | any frame of events keeps the grid 30 by 50 and the selected code known, and keeps a grid of known codes known |
| StandaloneEditor.SaveRecord | track_editor.py:56-63 | the saved record has width 50, height 30, tile size 16, and the current grid and start |
| StandaloneEditor.SavedTrackPlayable | track_editor.py:54-63 | the saved track can be read by the game at every tile and gives a car; a start tile on the grid places the car on the surface painted there |

## Left out

- Rendering, the camera, fonts, the window, fullscreen toggling and all menus (`menu/menu_screens.py`, the menu part of `main.py`). These are pygame output with no state the kernel depends on.
- JSON file reading and writing, `os.makedirs` and image loading. Tracks come in as already-parsed `TrackRecord`s, and a missing slot is `None`.
- `train_ai.py`, which is a training harness around an external reinforcement-learning library.
- The policy's `predict` call and the `run_ai_game` loop. The policy is an external network; `Agent.Observe` gives its input and `Agent.AgentStep` consumes its output.
- The game loop's F11 and Escape handling and its frame clock. `Dynamics.Drive` models only the per-frame call to `Car.update`.
- Floating-point rounding, the `float32` observation array and the accuracy of `cos`, `sin`: reals are exact, and the trig functions are parameters.
- Checkpoints, laps, a lap timer, a decaying brake factor and a reward signal: the code has none of them, so nothing here models them.
- Tracks.GetTile: requires `Indexable` (a non-zero tile size and a grid covering the declared width and height), as do `Dynamics.Update`, `Agent.CastRay` and `Agent.Observe`. Python raises `ZeroDivisionError` or `IndexError` for such files instead; those errors are not modelled. Both editors' saved tracks satisfy it (`Editor.SavedTrackPlayable`, `StandaloneEditor.SavedTrackPlayable`).
- Tracks.GetTile: computes the lookup for any non-zero tile size, but its contract speaks only of positive ones, because every track the editors write has tile size 16.
- Editor.Open: requires rows of equal length. Python accepts most ragged grids: when the row count and the first row's length already match the declared size, no copy runs and the grid is kept as stored (main.py:197), and during the copy a row longer than the first raises nothing (main.py:199-201). Only a row shorter than the first, inside the copied rectangle, raises `IndexError`. The model does not cover ragged stored grids, because the editor's own saves are always rectangular.
- The render loops read `SURFACE_TYPES[code]` with no fallback, so an unknown code in a grid raises `KeyError` while drawing. Drawing is not modelled; `KnownCodes` states when that cannot happen.
