# Metroidvania kinematic core in Dafny

A model of the movement and collision core of the Metroidvania tile
platformer, with proofs about it. One player box moves against a fixed 12 by
20 grid of 32-pixel tiles. Screen Y grows downwards. Every float quantity is a
Dafny `real`, and the C# `(int)` cast is truncation toward zero (`Tiles.Trunc`).

The modules follow the program:

- `Geometry` (geometry.dfy): `Vector2` as `Vec2` and the `AABB` record struct.
- `CollisionMath` (geometry.dfy): the Minkowski difference, the strict overlap
  test and the penetration vector. Also the reference predicate `Overlap` and
  the lemmas about push-out, symmetry and antisymmetry.
- `Tiles` (tilemap.dfy):
  - the `TileMap` class, with its cells in an `array2<int>`;
  - `Cast`, a method with nested loops that writes into an `array<AABB>` buffer;
  - the reference function `Candidates`: the solid cells of the clamped, widened
    window in row-major order, as 32 by 32 boxes;
  - lemmas for membership, order and capacity.
- `Controls` (controls.dfy): the `Input` class and its key lists. The keyboard
  poll is replaced by a parameter `pressed: set<Key>`.
- `Movement` (movement.dfy): each stage of a tick as a function of the
  player's state, built up to `Tick`, with lemmas about whole ticks.
- `Controller` (controller.dfy): the `Player` and `PlayerController` classes.
  - Their methods update the player's fields in place.
  - `Update` is proved to produce exactly `Movement.Tick` of its old state.
  - Its invariant `Valid` keeps the box within one tile in each dimension, so the
    twenty-slot collision buffer never overflows.
  - That invariant is set up by `SpawnPlayer` and the constructor (`NewGame`).

## Model

| member | source | states |
|---|---|---|
| Geometry.Create | Metroidvania/MetroidvaniaGame.cs:203-204 | the box's min corner is (x, y), its width is `width` and its height is `height` |
| Geometry.AABB.Width | Metroidvania/MetroidvaniaGame.cs:206 | min.x plus the width is max.x; the width is non-negative iff the corners are in order on X |
| Geometry.AABB.Height | Metroidvania/MetroidvaniaGame.cs:207 | min.y plus the height is max.y; the height is non-negative iff the corners are in order on Y |
| Geometry.AABB.Translate | Metroidvania/PlayerController.cs:66-67 | moving both corners moves `min` by d and keeps the width and height |
| CollisionMath.Abs | Metroidvania/MetroidvaniaGame.cs:218-220 | `Math.Abs` is non-negative and equals x or -x |
| CollisionMath.MinkowskiDifference | Metroidvania/MetroidvaniaGame.cs:225-231 | min is a.Min - b.Max and max is a.Max - b.Min; width and height are the sums of the two boxes' sizes |
| CollisionMath.NearestExit | Metroidvania/MetroidvaniaGame.cs:218-219 | the per-axis exit is one of the two sides of the difference |
| CollisionMath.NearestExitMinimal | Metroidvania/MetroidvaniaGame.cs:218-219 | the exit's magnitude is at most that of either side; on a tie the Max side is taken |
| CollisionMath.AreColliding | Metroidvania/MetroidvaniaGame.cs:212-223 | the result is true iff the open intervals of the boxes overlap on both axes; the penetration vector has a zero component |
| CollisionMath.PenetrationIsShortestExit | Metroidvania/MetroidvaniaGame.cs:218-220 | the penetration is one of the four single-axis exits, the shortest; a tie between the axes picks Y |
| CollisionMath.ShorterExit | Metroidvania/MetroidvaniaGame.cs:220 | the axis choice: the penetration is the X exit with Y zero or the Y exit with X zero, and its size is at most the magnitude of either exit |
| CollisionMath.CollidingSymmetric | Metroidvania/MetroidvaniaGame.cs:214-216 | the collision verdict does not depend on the order of the boxes |
| CollisionMath.SelfOverlap | Metroidvania/MetroidvaniaGame.cs:216 | a box of positive size collides with itself |
| CollisionMath.TouchingDoesNotCollide | Metroidvania/MetroidvaniaGame.cs:216 | boxes that share an edge, or are apart, on some axis do not collide |
| CollisionMath.PushOutSeparates | Metroidvania/MetroidvaniaGame.cs:216-220 | moving a colliding box by the negated penetration leaves it not colliding |
| CollisionMath.NearestExitNegated | Metroidvania/MetroidvaniaGame.cs:218-219 | with unequal magnitudes, negating and swapping the sides negates the exit |
| CollisionMath.NearestExitMirror | Metroidvania/MetroidvaniaGame.cs:218-219 | negating and swapping the sides of an axis never changes the magnitude of its exit, tie or not |
| CollisionMath.PenetrationOf | Metroidvania/MetroidvaniaGame.cs:215-221 | the penetration is the shorter of the two axis exits of the Minkowski difference, Y on a tie |
| CollisionMath.ShorterExitNegated | Metroidvania/MetroidvaniaGame.cs:221 | exits of the same magnitudes, with the chosen one negated, give the negated penetration |
| CollisionMath.MirroredExits | Metroidvania/MetroidvaniaGame.cs:218-221 | mirroring the sides of both axes negates the penetration unless the axis it is taken on has a tie |
| CollisionMath.PenetrationAntisymmetric | Metroidvania/MetroidvaniaGame.cs:212-221 | unless the axis the penetration is taken on has its two exits at the same distance, swapping the boxes negates the penetration vector |
| CollisionMath.PenetrationTieNotNegated | Metroidvania/MetroidvaniaGame.cs:218-221 | a box of positive size against itself has a tie on both axes and a penetration that is not its own negation: (0, height) when it is at least as wide as tall |
| CollisionMath.PenetrationOffAxisTie | Metroidvania/MetroidvaniaGame.cs:218-221 | two boxes of the same columns, one sunk into the other by less than their width, tie on X yet get (0, depth) and (0, -depth): a tie off the chosen axis does no harm |
| Tiles.Level | Metroidvania/MetroidvaniaGame.cs:107-121 | the grid is 12 by 20 and has the floor layout: rows 7 to 11 solid, rows 0 to 6 empty |
| Tiles.Trunc | Metroidvania/MetroidvaniaGame.cs:125-128 | `(int)` truncates toward zero: the result is the integer next to x on the side of zero |
| Tiles.Clamp | Metroidvania/MetroidvaniaGame.cs:125-128 | the result lies in [lo, hi]; it is v inside the range and the nearer bound outside it |
| Tiles.CellIndex | Metroidvania/MetroidvaniaGame.cs:125-128 | the index is a cell of the grid; unwidened, a coordinate inside the grid gets the cell that holds it |
| Tiles.WindowOf | Metroidvania/MetroidvaniaGame.cs:125-128 | all four window indices are inside the grid; an upright box gives a non-empty window |
| Tiles.TileBox | Metroidvania/MetroidvaniaGame.cs:137 | cell (row, col) is the 32 by 32 box at (col*32, row*32) |
| Tiles.RowTiles | Metroidvania/MetroidvaniaGame.cs:134-138 | the reference definition of the column loop, with no contract of its own: the boxes of one row's solid cells in a stretch of columns, left to right. Its properties are stated by `RowTilesSound`, `RowTilesComplete`, `RowTilesPlaced`, `RowTilesOrdered`, `RowTilesCount`, `RowTilesStep` and `RowTilesPrefix` |
| Tiles.Tiles | Metroidvania/MetroidvaniaGame.cs:132-139 | the reference definition of the row loop, with no contract of its own: the rows' stretches one after another. Its properties are stated by `TilesSound`, `TilesComplete`, `TilesMembers`, `TilesPlaced`, `TilesOrdered`, `TilesCount` and `TilesPrefix`, and `CastRows` and `CastRow` are proved against it |
| Tiles.Candidates | Metroidvania/MetroidvaniaGame.cs:123-141 | the query never yields more boxes than the grid has cells |
| Tiles.RowTilesAtMost | Metroidvania/MetroidvaniaGame.cs:134-137 | a row stretch has at most one box per column of the grid, for any stretch, also an empty or inverted one (`RowTilesCount` bounds an ordered stretch by its own width) |
| Tiles.TilesAtMost | Metroidvania/MetroidvaniaGame.cs:132-139 | a band of rows has at most one grid row of boxes per row, and none when the band is empty or inverted, whatever the columns; this is what bounds `Candidates` for any box, however the window is clamped (`TilesCount` bounds an ordered window by its own area) |
| Tiles.RowTilesSound | Metroidvania/MetroidvaniaGame.cs:134-137 | each box of one row's stretch is a solid cell of that stretch |
| Tiles.RowTilesComplete | Metroidvania/MetroidvaniaGame.cs:134-137 | each solid cell of one row's stretch appears in it |
| Tiles.TilesSound | Metroidvania/MetroidvaniaGame.cs:132-139 | each box of a window is the box of a solid cell in it |
| Tiles.TilesComplete | Metroidvania/MetroidvaniaGame.cs:132-139 | the box of each solid cell in a window is emitted |
| Tiles.TilesMembers | Metroidvania/MetroidvaniaGame.cs:132-139 | a box is emitted for a window iff it is a solid cell of that window |
| Tiles.CandidatesMembers | Metroidvania/MetroidvaniaGame.cs:125-139 | a box is a candidate of the query iff it is a solid cell of the query's clamped window |
| Tiles.CandidatesCover | Metroidvania/MetroidvaniaGame.cs:125-139 | every solid cell the box overlaps or touches on any side, including the one it stands on, is a candidate: the widening by one cell covers the cell whose right or bottom edge the box's left or top edge lies on |
| Tiles.RowTilesPlaced | Metroidvania/MetroidvaniaGame.cs:134-137 | every box of a row stretch lies in that row, within its columns |
| Tiles.RowTilesOrdered | Metroidvania/MetroidvaniaGame.cs:134-137 | a row stretch runs strictly left to right |
| Tiles.TilesPlaced | Metroidvania/MetroidvaniaGame.cs:132-139 | every box of a window lies within its rows |
| Tiles.TilesOrdered | Metroidvania/MetroidvaniaGame.cs:132-139 | a window's boxes come in strict row-major order |
| Tiles.ConcatOrdered | Metroidvania/MetroidvaniaGame.cs:132-139 | boxes all above a row line, followed by boxes on that line, stay in row-major order |
| Tiles.CandidatesOrdered | Metroidvania/MetroidvaniaGame.cs:125-139 | the query's candidates come in strict row-major order, so no box appears twice |
| Tiles.RowTilesCount | Metroidvania/MetroidvaniaGame.cs:134-137 | a row stretch has at most one box per column |
| Tiles.TilesCount | Metroidvania/MetroidvaniaGame.cs:132-139 | a window has at most one box per cell |
| Tiles.TruncSpread | Metroidvania/MetroidvaniaGame.cs:125-128 | truncating two coordinates at most one cell apart gives indices at most one apart |
| Tiles.WindowSpan | Metroidvania/MetroidvaniaGame.cs:125-128 | a box at most one cell wide and high has a window of at most 4 by 4 cells |
| Tiles.SmallWindowCount | Metroidvania/MetroidvaniaGame.cs:132-139 | a window of at most 4 by 4 cells holds at most sixteen boxes |
| Tiles.CandidatesBound | Metroidvania/MetroidvaniaGame.cs:125-141 | such a box has at most sixteen candidates, fewer than the twenty slots of the controller's buffer |
| Tiles.RowTilesStep | Metroidvania/MetroidvaniaGame.cs:134-137 | one more column adds that cell's box exactly when the cell is solid; the shorter stretch is a prefix of the longer |
| Tiles.RowTilesPrefix | Metroidvania/MetroidvaniaGame.cs:134-137 | a row stretch that ends earlier is a prefix of the longer one |
| Tiles.TilesPrefix | Metroidvania/MetroidvaniaGame.cs:132-139 | what the loops have emitted so far is a prefix of the whole window's boxes |
| Tiles.TileMap.constructor | Metroidvania/MetroidvaniaGame.cs:107-121 | the cell array is 12 by 20 and holds the level layout |
| Tiles.TileMap.Cast | Metroidvania/MetroidvaniaGame.cs:123-142 | if the candidates fit, the buffer starts with exactly them in row-major order, the count is returned and the rest of the buffer is untouched; otherwise Overflow is returned with the buffer full of the first candidates |
| Tiles.TileMap.CastRows | Metroidvania/MetroidvaniaGame.cs:130-141 | the row loop writes the window's boxes to the front of the buffer, or reports overflow with the buffer full |
| Tiles.TileMap.CastRow | Metroidvania/MetroidvaniaGame.cs:134-138 | the column loop appends one row's boxes from `start`, leaves the earlier slots alone and reports overflow when they do not fit |
| Tiles.OutsideBoxSeesBorder | Metroidvania/MetroidvaniaGame.cs:125-139 | a box right of the grid at (1000, 300) still gets the four solid cells of the clamped last column |
| Tiles.OutsideBoxWindow | Metroidvania/MetroidvaniaGame.cs:125-128 | that box's window is clamped to rows 8 to 11 of column 19 |
| Tiles.BorderColumn | Metroidvania/MetroidvaniaGame.cs:132-139 | on the level's layout rows 8 to 11 of column 19 yield their four boxes in order |
| Tiles.BorderCell | Metroidvania/MetroidvaniaGame.cs:134-137 | the last column of a solid row of the level is one box |
| Tiles.AboveBoxSeesNothing | Metroidvania/MetroidvaniaGame.cs:125-139 | a box above the grid at (0, -1000) is clamped to the top row, which the level leaves empty, and gets no candidates |
| Controls.Direction | Metroidvania/Input.cs:41-46 | the direction is -1, 0 or 1: -1 iff some left key is down, 1 iff none is and some right key is, 0 iff neither |
| Controls.AnyDownAppend | Metroidvania/Input.cs:23-39 | binding one more key adds exactly that key to the keys that count |
| Controls.PressedLeftWins | Metroidvania/Input.cs:43 | a bound left key that is down gives -1 whatever the right keys are |
| Controls.DefaultBindings | Metroidvania/PlayerController.cs:118-125 | with the controller's bindings, Left or A goes left, otherwise Right or D goes right, and Space or Z is up |
| Controls.Input.constructor | Metroidvania/Input.cs:19-21 | all three key lists start empty |
| Controls.Input.BindKeyboardLeft | Metroidvania/Input.cs:23-27 | appends the key to the left list only and returns the same object |
| Controls.Input.BindKeyboardRight | Metroidvania/Input.cs:29-33 | appends the key to the right list only and returns the same object |
| Controls.Input.BindKeyboardUp | Metroidvania/Input.cs:35-39 | appends the key to the up list only and returns the same object |
| Controls.Input.GetHorizontalVelocity | Metroidvania/Input.cs:41-46 | returns `Direction` of the bound lists: in {-1, 0, 1}, left first |
| Controls.Input.IsUpDown | Metroidvania/Input.cs:48 | true iff some up key is down |
| Controls.Input.AnyKeyDown | Metroidvania/Input.cs:50-56 | the scan returns true iff some key of the list is in the pressed set |
| Movement.Derive | Metroidvania/PlayerController.cs:97-99 | for a jump of positive height the launch points up and both gravities down; the jump gravity uses up the launch speed exactly after tp seconds |
| Movement.DeriveKinematics | Metroidvania/PlayerController.cs:97-99 | with the derived constants, a jump stops rising after tp seconds at height h, and a fall from rest covers h in td seconds |
| Movement.DefaultTuning | Metroidvania/PlayerController.cs:97-107 | h = 128, tp = 0.5 and td = 0.4 give launch velocity -512, jump gravity 1024 and fall gravity 1600 |
| Movement.Gravity | Metroidvania/PlayerController.cs:103 | the gravity is the jump gravity if and only if the body is rising (vy < 0) with the jump flag set, and the fall gravity otherwise |
| Movement.ApplyGravity | Metroidvania/PlayerController.cs:56-61 | a grounded body's velocity is unchanged; otherwise only the vertical velocity grows by Gravity*dt; nothing else changes |
| Movement.Steer | Metroidvania/PlayerController.cs:32 | the horizontal velocity is set, not added, to dir * 300; nothing else changes |
| Movement.Jump | Metroidvania/PlayerController.cs:34-45 | up while grounded launches at the jump velocity and ungrounds; otherwise grounding is kept; after a release the body never rises; with up held on neither this tick nor the last nothing changes; position, box and vx are kept |
| Movement.Move | Metroidvania/PlayerController.cs:63-68 | position and box move by d; velocity, grounding, box size and box offset are kept |
| Movement.ApplyVelocity | Metroidvania/PlayerController.cs:51-54 | the position moves by velocity * dt; velocity, grounding and the box's shape are kept |
| Movement.PreMove | Metroidvania/PlayerController.cs:30-45 | before integration: position and box unchanged, vx = dir*300; up while grounded launches at the jump velocity and ungrounds; otherwise vy is the post-gravity value, cut to 0 on release while rising |
| Movement.StepShape | Metroidvania/PlayerController.cs:77-89 | one resolution step keeps the box's size, its offset and the horizontal velocity |
| Movement.ResolveStep | Metroidvania/PlayerController.cs:79-88 | after the step the tile no longer overlaps the box; the body is grounded iff it was before or the tile's top edge is the box's bottom edge |
| Movement.ResolveAll | Metroidvania/PlayerController.cs:77-89 | resolving tiles in order never loses grounding |
| Movement.Resolve | Metroidvania/PlayerController.cs:70-90 | with no candidates the body is only ungrounded |
| Movement.Tick | Metroidvania/PlayerController.cs:28-49 | a tick leaves vx = dir*300 and records this tick's up key as the next tick's jump flag |
| Movement.ResolveAllShape | Metroidvania/PlayerController.cs:77-89 | resolving a sequence of tiles keeps the box's size, its offset and the horizontal velocity |
| Movement.LandedSplit | Metroidvania/PlayerController.cs:77-89 | a landing among the tiles is a landing among all but the last, or on the last |
| Movement.LandsOnPrefix | Metroidvania/PlayerController.cs:77-89 | whether a tile lands the body does not depend on the tiles after it |
| Movement.ResolveAllGrounding | Metroidvania/PlayerController.cs:84-88 | the body ends grounded iff it started grounded or some tile was level with the box's bottom when examined; then vy is 0, otherwise the velocity is unchanged |
| Movement.ResolveGrounding | Metroidvania/PlayerController.cs:70-90 | after ResolveCollisions the player is grounded iff some candidate landed it, then with vy = 0; otherwise the velocity is unchanged; the shape is kept |
| Movement.TickShape | Metroidvania/PlayerController.cs:28-49 | a tick keeps the box's size and offset, leaves vx = dir*300 and records this tick's up key |
| Movement.ResolveAllBelow | Metroidvania/PlayerController.cs:77-83 | tiles all at or below the box's bottom edge never move it |
| Movement.RestingOnFloorStaysGrounded | Metroidvania/PlayerController.cs:28-90 | on the level's layout, a player standing still on the floor with no key down stays in place, grounded, at zero velocity |
| Movement.RestingOnFloorResolves | Metroidvania/PlayerController.cs:70-90 | for such a box, the resolution grounds it and moves nothing, at zero velocity |
| Movement.CandidatesBelowFloor | Metroidvania/MetroidvaniaGame.cs:107-139 | on the level's layout every candidate of any box lies at or below the floor's top edge |
| Movement.HoveringAboveFloorStaysAirborne | Metroidvania/PlayerController.cs:28-90 | a player at rest one pixel above the floor, not grounded and with no key down, is after one tick at 60 ticks a second still not grounded, falling at 1600/60, with its bottom 1 - 1600/3600 of a pixel above the floor: nothing snaps it down |
| Movement.AboveFloorResolves | Metroidvania/PlayerController.cs:70-90 | on the level's layout a box whose bottom edge is above the floor is neither pushed nor grounded by the resolution, and keeps its velocity |
| Movement.FloorCandidate | Metroidvania/MetroidvaniaGame.cs:107-139 | a box standing on the floor has a floor cell among its candidates, at an index it returns |
| Movement.FloorIsCandidate | Metroidvania/MetroidvaniaGame.cs:107-139 | the floor cell in the window's first column is a candidate, with its top edge on the box's bottom edge |
| Movement.FloorInWindow | Metroidvania/MetroidvaniaGame.cs:125-128 | that box's window covers the floor row |
| Controller.Player.constructor | Metroidvania/PlayerController.cs:14-24 | a new player has every field at its default value |
| Controller.SpawnPlayer | Metroidvania/MetroidvaniaGame.cs:34-38 | the player is placed at (320, 0) with a 16 by 32 box whose corner is at the position |
| Controller.PlayerController.constructor | Metroidvania/PlayerController.cs:92-125 | the constants are `Derive` of the jump height and times, that is -512, 1024 and 1600; the keys are bound as listed and the map stays valid; a fitting box makes the controller valid |
| Controller.PlayerController.Update | Metroidvania/PlayerController.cs:28-49 | the new player and jump flag are exactly `Tick` of the old ones with this frame's direction and up key; the box's shape is kept and the invariant holds |
| Controller.PlayerController.ApplyGravity | Metroidvania/PlayerController.cs:56-61 | the player's new state is `Movement.ApplyGravity` of its old state, with gravity chosen from the stored jump flag |
| Controller.PlayerController.ApplyVelocity | Metroidvania/PlayerController.cs:51-54 | the player moves by velocity * dt |
| Controller.PlayerController.Move | Metroidvania/PlayerController.cs:63-68 | the player's new state is `Movement.Move` of its old state |
| Controller.PlayerController.ResolveCollisions | Metroidvania/PlayerController.cs:70-90 | the player's new state is `Resolve` over the candidates of its old box; the buffer never overflows and the invariant holds |
| Controller.PlayerController.ResolveEach | Metroidvania/PlayerController.cs:77-89 | the loop leaves the player at `ResolveAll` of its old state over the buffer's first `count` tiles |
| Controller.PlayerController.ResolveTile | Metroidvania/PlayerController.cs:79-88 | one iteration leaves the player at `ResolveStep` of its old state for that tile |
| Controller.NewGame | Metroidvania/MetroidvaniaGame.cs:15-50 | the game's setup: a fresh map (line 15) and player (line 17), `SpawnPlayer` (line 49) and the controller built over them (line 50) satisfy the controller's invariant |

## Left out

- The MonoGame plumbing is not part of this model. That covers the game's `Initialize`, `Update` and `Draw`, `TileMap.Render`, `SpriteBatchExtension`, the render target and texture loading. They are rendering and I/O.
- `KeyboardListener` polls a device. Every key query takes the set of keys that are down as a parameter instead.
- `Animator`, `Sprite` and `TextureRegion2D` are not modelled. They are drawing and animation timing, with no effect on movement.
- `PlayerState`, `Player.State`, `Player.JumpDuration` and `Player.Color` are declared but never computed, so they are not modelled.
- The `Player` and `TileMap` objects are created by the game class. `NewGame` stands in for that setup.
- Float rounding, overflow to infinity and NaN are not modelled, because coordinates are reals. In particular, the exact `==` of the grounding test is exact on reals.
- The frame time `dt` is a parameter, so the game clock is not modelled.
- `Movement.Derive`: requires positive times. The C# division by zero would give infinities, which reals do not have.
- Tiles.TileMap.Cast: when there are more candidates than slots, C# throws an index error. The model instead returns `Overflow` with the buffer full of the first candidates. The controller proves this never happens for a box of at most one tile by one tile. That bound is part of its invariant `Valid`.
- Tiles.CellIndex: does not model the 32-bit range of the C# `int`. `(int)(coord / 32)` is out of range once a coordinate's magnitude reaches about 2^31 * 32, roughly 6.9e10, and the `- 1` and `+ 1` then wrap (Metroidvania/MetroidvaniaGame.cs:125-128). Where that conversion gives `int.MinValue`, a box at `min.x = -1e11` gets a first column of 19 and a last column of 0 and scans no column, while the model clamps both to 0. Coordinates are unbounded integers and reals here.
- Controller.PlayerController.Update: requires `Valid`. That is, the map is well formed, the keys are bound as the constructor binds them, and the box is at most one tile in each dimension. `Update` keeps that invariant.
- Controller.PlayerController.ResolveCollisions: requires a box of at most one tile, as kept by `Valid`. Larger boxes, for which the twenty-slot buffer could overflow, are not modelled.

Notes on the code:

- The constructor computes the launch velocity as `(2f * h / tp) * -1f` and each gravity as `(-2f * h / (t * t)) * -1f` (Metroidvania/PlayerController.cs:97-99). That gives -512, +1024 and +1600 (`Movement.DefaultTuning`). The gravities are positive because screen Y grows downwards (`Movement.Derive`).
- Clamping pins the window of a box beside the grid to the border. A box right of the grid at floor height still sees the solid cells of the last column (`Tiles.OutsideBoxSeesBorder`). A box above the grid is clamped to the top row, which the level leaves empty, so it gets no candidates (`Tiles.AboveBoxSeesNothing`).
- Swapping the boxes negates the penetration vector unless the axis the penetration is taken on has a tie (`CollisionMath.PenetrationAntisymmetric`). A box against itself has such a tie, and its penetration is not negated (`CollisionMath.PenetrationTieNotNegated`). A tie on the other axis does no harm (`CollisionMath.PenetrationOffAxisTie`).
- Nothing snaps a falling body onto the floor: grounding needs the box's bottom to be exactly on a tile's top edge. A player at rest one pixel above the floor is, one tick later, still not grounded, 1 - 1600/3600 of a pixel above it (`Movement.HoveringAboveFloorStaysAirborne`).
- Gravity is chosen from `_isJumping` before that flag is refreshed. So the lighter jump gravity depends on the up key of the previous tick.
