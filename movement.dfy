/** One tick of the player controller, stage by stage, as functions of the
    player's state: gravity, steering, jump start and early release, the
    integration of the velocity, and the resolution of the tile collisions one
    candidate after another. Screen Y grows downwards, so a jump has a negative
    vertical velocity and gravity is positive. */
module Movement {
  import opened Geometry
  import opened CollisionMath
  import opened Tiles

  /** `PlayerMovementSpeed`: horizontal speed in pixels per second. */
  const MOVEMENT_SPEED: real := 300.0

  /** Height of a full jump in pixels and the times to reach it and to fall it. */
  const JUMP_HEIGHT: real := 128.0
  const JUMP_TIME_TO_PEAK: real := 0.5
  const JUMP_TIME_TO_DESCEND: real := 0.4

  /** The fields of `Player` a tick reads or writes. */
  datatype Body = Body(position: Vec2, velocity: Vec2, box: AABB, grounded: bool)

  /** The controller's state across ticks: the player and the up key of the
      previous tick (`_isJumping`). */
  datatype State = State(body: Body, jumping: bool)

  /** The jump constants derived in the controller's constructor. */
  datatype Tuning = Tuning(jumpVelocity: real, jumpGravity: real, fallGravity: real)

  /** Where the box sits relative to the position it is drawn at. */
  function Offset(b: Body): Vec2 {
    b.box.min.Minus(b.position)
  }

  /** Same box size and same box placement relative to the position. */
  predicate SameShape(a: Body, b: Body) {
    Offset(a) == Offset(b) && a.box.Width() == b.box.Width() && a.box.Height() == b.box.Height()
  }

  /** The jump constants of the controller's constructor for a jump of
      height `h` that peaks after `tp` seconds and falls back in `td` seconds.
      The trailing `* -1f` of each formula flips the sign into screen
      coordinates: for a jump of positive height the launch points up
      (negative) and both gravities point down (positive), and the launch
      speed is used up by the jump gravity exactly at the peak. */
  function Derive(h: real, tp: real, td: real): (r: Tuning)
    requires tp > 0.0 && td > 0.0
    ensures h > 0.0 ==> r.jumpVelocity < 0.0 && r.jumpGravity > 0.0 && r.fallGravity > 0.0
    ensures r.jumpVelocity + r.jumpGravity * tp == 0.0
  {
    assert (-2.0 * h / (tp * tp)) * tp == -2.0 * h / tp;
    Tuning((2.0 * h / tp) * -1.0, (-2.0 * h / (tp * tp)) * -1.0, (-2.0 * h / (td * td)) * -1.0)
  }

  /** The derived constants do what they are named for: launched at
      `jumpVelocity` under `jumpGravity`, the vertical speed is zero after `tp`
      seconds, when the body has risen by `h`; from rest under `fallGravity` it
      falls by `h` in `td` seconds. */
  lemma DeriveKinematics(h: real, tp: real, td: real)
    requires tp > 0.0 && td > 0.0
    ensures var t := Derive(h, tp, td);
      t.jumpVelocity + t.jumpGravity * tp == 0.0 &&
      t.jumpVelocity * tp + t.jumpGravity * tp * tp / 2.0 == -h &&
      t.fallGravity * td * td / 2.0 == h
  {
    var t := Derive(h, tp, td);
    assert t.jumpVelocity * tp == -2.0 * h;
    assert t.jumpGravity * tp * tp == 2.0 * h;
    assert t.fallGravity * td * td == 2.0 * h;
  }

  /** The controller's constants: a launch at 512 pixels per second upwards,
      1024 while the jump is held on the way up and 1600 otherwise. */
  lemma DefaultTuning()
    ensures Derive(JUMP_HEIGHT, JUMP_TIME_TO_PEAK, JUMP_TIME_TO_DESCEND) == Tuning(-512.0, 1024.0, 1600.0)
  {
  }

  /** `Gravity`: the lighter jump gravity while moving up with the jump key
      still held on the previous tick, the fall gravity otherwise. */
  function Gravity(t: Tuning, vy: real, jumping: bool): (r: real)
    ensures r == t.jumpGravity || r == t.fallGravity
    ensures vy >= 0.0 || !jumping ==> r == t.fallGravity
    ensures vy < 0.0 && jumping ==> r == t.jumpGravity
  {
    if vy < 0.0 && jumping then t.jumpGravity else t.fallGravity
  }

  /** `ApplyGravity`: a grounded body keeps its velocity; an airborne one
      accelerates vertically. */
  function ApplyGravity(b: Body, t: Tuning, jumping: bool, dt: real): (r: Body)
    ensures r.position == b.position && r.box == b.box && r.grounded == b.grounded
    ensures r.velocity.x == b.velocity.x
    ensures b.grounded ==> r.velocity == b.velocity
    ensures !b.grounded ==> r.velocity.y - b.velocity.y == Gravity(t, b.velocity.y, jumping) * dt
  {
    if b.grounded then b
    else b.(velocity := Vec2(b.velocity.x, b.velocity.y + Gravity(t, b.velocity.y, jumping) * dt))
  }

  /** The horizontal velocity is set, not accumulated, from the direction. */
  function Steer(b: Body, dir: int): (r: Body)
    ensures r.velocity == Vec2(dir as real * MOVEMENT_SPEED, b.velocity.y)
    ensures r.position == b.position && r.box == b.box && r.grounded == b.grounded
  {
    b.(velocity := Vec2(dir as real * MOVEMENT_SPEED, b.velocity.y))
  }

  /** Jump start and early release: holding up while grounded launches the
      body; letting go of up while still rising cuts the vertical velocity, so
      after a release the body never moves up. Only the vertical velocity and
      the grounding change. */
  function Jump(b: Body, t: Tuning, wasJumping: bool, up: bool): (r: Body)
    ensures r.position == b.position && r.box == b.box && r.velocity.x == b.velocity.x
    ensures up && b.grounded ==> r.velocity.y == t.jumpVelocity && !r.grounded
    ensures !(up && b.grounded) ==> r.grounded == b.grounded
    ensures wasJumping && !up ==> r.velocity.y >= 0.0
    ensures !wasJumping && !up ==> r == b
  {
    var launched := if up && b.grounded then b.(velocity := Vec2(b.velocity.x, t.jumpVelocity), grounded := false) else b;
    if wasJumping && !up && launched.velocity.y < 0.0 then launched.(velocity := Vec2(launched.velocity.x, 0.0))
    else launched
  }

  /** `Move`: the position and both corners of the box move together. */
  function Move(b: Body, d: Vec2): (r: Body)
    ensures r.position == b.position.Plus(d) && r.box.min == b.box.min.Plus(d)
    ensures r.velocity == b.velocity && r.grounded == b.grounded
    ensures SameShape(r, b)
  {
    b.(position := b.position.Plus(d), box := b.box.Translate(d))
  }

  /** `ApplyVelocity`: one step of explicit Euler integration; the body is
      displaced by its velocity times the step, carrying its box along. */
  function ApplyVelocity(b: Body, dt: real): (r: Body)
    ensures r.position.Minus(b.position) == b.velocity.Scale(dt)
    ensures r.velocity == b.velocity && r.grounded == b.grounded && SameShape(r, b)
  {
    Move(b, b.velocity.Scale(dt))
  }

  /** Everything the tick does before the integration. */
  function PreMove(s: State, t: Tuning, dt: real, dir: int, up: bool): (r: Body)
    ensures r.position == s.body.position && r.box == s.body.box
    ensures r.velocity.x == dir as real * MOVEMENT_SPEED
    ensures up && s.body.grounded ==> r.velocity.y == t.jumpVelocity && !r.grounded
    ensures !(up && s.body.grounded) ==> r.grounded == s.body.grounded
    ensures var vy := ApplyGravity(s.body, t, s.jumping, dt).velocity.y;
      !(up && s.body.grounded) ==>
        r.velocity.y == (if s.jumping && !up && vy < 0.0 then 0.0 else vy)
  {
    Jump(Steer(ApplyGravity(s.body, t, s.jumping, dt), dir), t, s.jumping, up)
  }

  /** One iteration of `ResolveCollisions`: push the box out of the tile if
      they overlap, then stand on the tile if the box's bottom edge lies
      exactly on the tile's top edge. Afterwards the tile no longer overlaps
      the box, and the body is grounded exactly when it was before or it now
      stands on the tile. */
  function ResolveStep(b: Body, tile: AABB): (r: Body)
    ensures !Overlap(r.box, tile)
    ensures r.grounded <==> b.grounded || tile.min.y == r.box.max.y
  {
    var c := AreColliding(b.box, tile);
    var moved := if c.colliding then PushOutSeparates(b.box, tile); Move(b, c.penetration.Neg()) else b;
    if tile.min.y == moved.box.max.y then moved.(grounded := true, velocity := Vec2(moved.velocity.x, 0.0))
    else moved
  }

  /** The tiles resolved in order, each against the box as the earlier ones
      left it. Grounding is never lost along the way. */
  function ResolveAll(b: Body, tiles: seq<AABB>): (r: Body)
    ensures b.grounded ==> r.grounded
    decreases |tiles|
  {
    if |tiles| == 0 then b
    else ResolveStep(ResolveAll(b, tiles[..|tiles| - 1]), tiles[|tiles| - 1])
  }

  /** `ResolveCollisions` over the given candidates: grounding is recomputed
      from scratch, so with no candidates the body is airborne and otherwise
      unchanged. */
  function Resolve(b: Body, tiles: seq<AABB>): (r: Body)
    ensures |tiles| == 0 ==> r == b.(grounded := false)
  {
    ResolveAll(b.(grounded := false), tiles)
  }

  /** `Update`: the whole tick against tile grid `g`, given this tick's
      direction and up key. The horizontal velocity ends as the direction set
      it, and this tick's up key becomes the next tick's `_isJumping`. */
  function Tick(s: State, t: Tuning, g: Grid, dt: real, dir: int, up: bool): (r: State)
    requires WellFormed(g)
    ensures r.jumping == up
    ensures r.body.velocity.x == dir as real * MOVEMENT_SPEED
  {
    var moved := ApplyVelocity(PreMove(s, t, dt, dir, up), dt);
    ResolveGrounding(moved, Candidates(g, moved.box));
    State(Resolve(moved, Candidates(g, moved.box)), up)
  }

  /** The i-th tile grounds the body: its top edge is the box's bottom edge at
      the moment the tile is examined (after its push). */
  predicate LandsOn(b: Body, tiles: seq<AABB>, i: int)
    requires 0 <= i < |tiles|
  {
    tiles[i].min.y == ResolveAll(b, tiles[..i + 1]).box.max.y
  }

  /** A resolution step moves the box only by whole translations and touches
      only the vertical velocity. */
  lemma StepShape(b: Body, tile: AABB)
    ensures SameShape(ResolveStep(b, tile), b)
    ensures ResolveStep(b, tile).velocity.x == b.velocity.x
  {
  }

  /** Resolution keeps the box's size and its offset from the position, and
      never touches the horizontal velocity. */
  lemma {:induction false} ResolveAllShape(b: Body, tiles: seq<AABB>)
    ensures SameShape(ResolveAll(b, tiles), b)
    ensures ResolveAll(b, tiles).velocity.x == b.velocity.x
    decreases |tiles|
  {
    if |tiles| > 0 {
      var p := tiles[..|tiles| - 1];
      ResolveAllShape(b, p);
      StepShape(ResolveAll(b, p), tiles[|tiles| - 1]);
    }
  }

  /** Some tile lands the body. */
  predicate Landed(b: Body, tiles: seq<AABB>) {
    exists i :: 0 <= i < |tiles| && LandsOn(b, tiles, i)
  }

  /** A landing among the tiles is one among all but the last, or the last. */
  lemma LandedSplit(b: Body, tiles: seq<AABB>)
    requires |tiles| > 0
    ensures var n := |tiles| - 1;
      Landed(b, tiles) <==> Landed(b, tiles[..n]) || LandsOn(b, tiles, n)
  {
    var n := |tiles| - 1;
    var p := tiles[..n];
    if Landed(b, tiles) {
      var i :| 0 <= i < |tiles| && LandsOn(b, tiles, i);
      if i < n {
        LandsOnPrefix(b, tiles, n, i);
        assert LandsOn(b, p, i);
      }
    }
    if Landed(b, p) {
      var i :| 0 <= i < n && LandsOn(b, p, i);
      LandsOnPrefix(b, tiles, n, i);
      assert LandsOn(b, tiles, i);
    }
  }

  /** Whether a tile lands the body does not depend on the tiles after it. */
  lemma LandsOnPrefix(b: Body, tiles: seq<AABB>, n: int, i: int)
    requires 0 <= i < n <= |tiles|
    ensures LandsOn(b, tiles[..n], i) == LandsOn(b, tiles, i)
  {
    assert tiles[..n][..i + 1] == tiles[..i + 1];
  }

  /** Grounding in an order of tiles: the body ends grounded exactly when it
      started grounded or some tile landed it; a landing zeroes the vertical
      velocity, and without one the velocity is untouched. */
  lemma {:induction false} ResolveAllGrounding(b: Body, tiles: seq<AABB>)
    ensures var r := ResolveAll(b, tiles);
      (r.grounded <==> b.grounded || Landed(b, tiles)) &&
      (Landed(b, tiles) ==> r.velocity == Vec2(b.velocity.x, 0.0)) &&
      (!Landed(b, tiles) ==> r.velocity == b.velocity)
    decreases |tiles|
  {
    if |tiles| > 0 {
      var n := |tiles| - 1;
      var p := tiles[..n];
      ResolveAllGrounding(b, p);
      ResolveAllShape(b, p);
      LandedSplit(b, tiles);
      assert tiles[..n + 1] == tiles;
      assert ResolveAll(b, tiles) == ResolveStep(ResolveAll(b, p), tiles[n]);
    }
  }

  /** `ResolveCollisions`: the player ends grounded exactly when some
      candidate landed it, and then stands still vertically; otherwise its
      velocity is unchanged. */
  lemma ResolveGrounding(b: Body, tiles: seq<AABB>)
    ensures var b0 := b.(grounded := false);
      var r := Resolve(b, tiles);
      (r.grounded <==> Landed(b0, tiles)) &&
      (r.grounded ==> r.velocity == Vec2(b.velocity.x, 0.0)) &&
      (!r.grounded ==> r.velocity == b.velocity) &&
      SameShape(r, b)
  {
    ResolveAllGrounding(b.(grounded := false), tiles);
    ResolveAllShape(b.(grounded := false), tiles);
  }

  /** A tick never changes the box's size or its offset from the position,
      and leaves the horizontal velocity as the direction set it. */
  lemma TickShape(s: State, t: Tuning, g: Grid, dt: real, dir: int, up: bool)
    requires WellFormed(g)
    ensures SameShape(Tick(s, t, g, dt, dir, up).body, s.body)
    ensures Tick(s, t, g, dt, dir, up).body.velocity.x == dir as real * MOVEMENT_SPEED
    ensures Tick(s, t, g, dt, dir, up).jumping == up
  {
    var pre := PreMove(s, t, dt, dir, up);
    var moved := ApplyVelocity(pre, dt);
    ResolveGrounding(moved, Candidates(g, moved.box));
  }

  /** Tiles that all lie at or below the box's bottom edge never push it. */
  lemma {:induction false} ResolveAllBelow(b: Body, tiles: seq<AABB>)
    requires forall i :: 0 <= i < |tiles| ==> b.box.max.y <= tiles[i].min.y
    ensures ResolveAll(b, tiles).box == b.box && ResolveAll(b, tiles).position == b.position
    decreases |tiles|
  {
    if |tiles| > 0 {
      var p := tiles[..|tiles| - 1];
      ResolveAllBelow(b, p);
      TouchingDoesNotCollide(ResolveAll(b, p).box, tiles[|tiles| - 1]);
    }
  }

  /** On a grid laid out like the level, a player standing still on the
      floor with no key held stays exactly where it is and stays grounded,
      whatever its column. */
  lemma RestingOnFloorStaysGrounded(s: State, t: Tuning, g: Grid, dt: real)
    requires FloorLayout(g)
    requires s.body.grounded && s.body.velocity == ZERO
    requires s.body.box.max.y == Edge(FLOOR_ROW)
    requires 0.0 <= s.body.box.Width() <= TILE_SIZE as real && 0.0 <= s.body.box.Height() <= TILE_SIZE as real
    ensures var r := Tick(s, t, g, dt, 0, false).body;
      r.grounded && r.box == s.body.box && r.position == s.body.position && r.velocity == ZERO
  {
    var b := s.body;
    assert ApplyVelocity(PreMove(s, t, dt, 0, false), dt) == b by {
      assert PreMove(s, t, dt, 0, false) == b;
      assert b.velocity.Scale(dt) == ZERO;
      assert b.position.Plus(ZERO) == b.position && b.box.Translate(ZERO) == b.box;
    }
    assert Tick(s, t, g, dt, 0, false).body == Resolve(b, Candidates(g, b.box));
    RestingOnFloorResolves(b, g);
  }

  /** Nothing snaps a body onto the floor: one pixel above it, at rest and
      not grounded, one tick at the default tuning and 60 ticks a second
      leaves it falling, 1 - 1600/3600 of a pixel above the floor, and still
      not grounded. */
  lemma HoveringAboveFloorStaysAirborne(s: State, g: Grid)
    requires FloorLayout(g)
    requires !s.body.grounded && s.body.velocity == ZERO && !s.jumping
    requires s.body.box.max.y == Edge(FLOOR_ROW) - 1.0
    ensures var r := Tick(s, Tuning(-512.0, 1024.0, 1600.0), g, 1.0 / 60.0, 0, false).body;
      !r.grounded && r.velocity == Vec2(0.0, 1600.0 / 60.0) &&
      r.box.max.y == Edge(FLOOR_ROW) - 1.0 + 1600.0 / 3600.0
  {
    var t, dt := Tuning(-512.0, 1024.0, 1600.0), 1.0 / 60.0;
    var pre := PreMove(s, t, dt, 0, false);
    var moved := ApplyVelocity(pre, dt);
    assert moved.velocity == Vec2(0.0, 1600.0 / 60.0) by {
      assert pre.velocity == Vec2(0.0, 1600.0 * dt);
    }
    assert moved.box.max.y == Edge(FLOOR_ROW) - 1.0 + 1600.0 / 3600.0 by {
      assert pre.velocity == Vec2(0.0, 1600.0 * dt);
      assert moved.box.max.y - pre.box.max.y == 1600.0 * dt * dt;
    }
    assert Tick(s, t, g, dt, 0, false).body == Resolve(moved, Candidates(g, moved.box));
    AboveFloorResolves(moved, g);
  }

  /** On the level's layout, a box whose bottom edge is above the floor is
      neither pushed nor grounded by its candidates, and keeps its velocity. */
  lemma AboveFloorResolves(b: Body, g: Grid)
    requires FloorLayout(g)
    requires b.box.max.y < Edge(FLOOR_ROW)
    ensures var r := Resolve(b, Candidates(g, b.box));
      !r.grounded && r.box == b.box && r.position == b.position && r.velocity == b.velocity
  {
    var tiles := Candidates(g, b.box);
    var b0 := b.(grounded := false);
    CandidatesBelowFloor(g, b.box);
    ResolveGrounding(b, tiles);
    ResolveAllBelow(b0, tiles);
    if Landed(b0, tiles) {
      var i :| 0 <= i < |tiles| && LandsOn(b0, tiles, i);
      ResolveAllBelow(b0, tiles[..i + 1]);
      assert false;
    }
  }

  /** The resolution step of that tick: the floor tile under the box lands it,
      and no candidate pushes it. */
  lemma RestingOnFloorResolves(b: Body, g: Grid)
    requires FloorLayout(g)
    requires b.velocity == ZERO
    requires b.box.max.y == Edge(FLOOR_ROW)
    requires 0.0 <= b.box.Width() <= TILE_SIZE as real && 0.0 <= b.box.Height() <= TILE_SIZE as real
    ensures var r := Resolve(b, Candidates(g, b.box));
      r.grounded && r.box == b.box && r.position == b.position && r.velocity == ZERO
  {
    var tiles := Candidates(g, b.box);
    var b0 := b.(grounded := false);
    CandidatesBelowFloor(g, b.box);
    ResolveAllBelow(b0, tiles);
    ResolveGrounding(b, tiles);
    var i := FloorCandidate(g, b.box);
    ResolveAllBelow(b0, tiles[..i + 1]);
    assert LandsOn(b0, tiles, i);
    assert Landed(b0, tiles);
  }

  /** On the level's layout every candidate of any box lies at or below the
      floor's top edge. */
  lemma CandidatesBelowFloor(g: Grid, box: AABB)
    requires FloorLayout(g)
    ensures forall i :: 0 <= i < |Candidates(g, box)| ==> Edge(FLOOR_ROW) <= Candidates(g, box)[i].min.y
  {
    var tiles := Candidates(g, box);
    forall i | 0 <= i < |tiles|
      ensures Edge(FLOOR_ROW) <= tiles[i].min.y
    {
      CandidatesMembers(g, box, tiles[i]);
    }
  }

  /** A box standing on the floor has a floor tile among its candidates.
      Written as a ghost function so the index can be used. */
  ghost function FloorCandidate(g: Grid, box: AABB): (i: int)
    requires FloorLayout(g) && box.max.y == Edge(FLOOR_ROW)
    requires 0.0 <= box.Width() && 0.0 <= box.Height()
    ensures 0 <= i < |Candidates(g, box)| && Candidates(g, box)[i].min.y == box.max.y
  {
    FloorIsCandidate(g, box);
    var tiles := Candidates(g, box);
    var i :| 0 <= i < |tiles| && tiles[i] == TileBox(FLOOR_ROW, WindowOf(box).minCol);
    i
  }

  /** The floor cell in the first column of the window is a candidate, and
      its top edge is the box's bottom edge. */
  lemma FloorIsCandidate(g: Grid, box: AABB)
    requires FloorLayout(g) && box.max.y == Edge(FLOOR_ROW)
    requires 0.0 <= box.Width() && 0.0 <= box.Height()
    ensures TileBox(FLOOR_ROW, WindowOf(box).minCol) in Candidates(g, box)
    ensures TileBox(FLOOR_ROW, WindowOf(box).minCol).min.y == box.max.y
  {
    var w := WindowOf(box);
    FloorInWindow(box);
    assert g[FLOOR_ROW][w.minCol] == 1;
    TilesComplete(g, w.minRow, w.maxRow + 1, w.minCol, w.maxCol + 1, FLOOR_ROW, w.minCol);
  }

  /** The window of a box whose bottom edge is the floor's top edge covers the
      floor row. */
  lemma FloorInWindow(box: AABB)
    requires box.max.y == Edge(FLOOR_ROW)
    requires 0.0 <= box.Width() && 0.0 <= box.Height()
    ensures var w := WindowOf(box);
      w.minRow <= FLOOR_ROW <= w.maxRow && w.minCol <= w.maxCol
  {
    assert box.max.y / 32.0 == 7.0;
    assert Trunc(7.0) == 7;
  }
}
