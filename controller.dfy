/** The player object and the controller that moves it every frame: the
    imperative form of the tick in `Movement`, updating the player's fields in
    place. */
module Controller {
  import opened Geometry
  import opened CollisionMath
  import opened Tiles
  import opened Controls
  import opened Movement

  /** `Player`: the fields the controller reads and writes. */
  class Player {
    var position: Vec2
    var velocity: Vec2
    var collisionBox: AABB
    var isGrounded: bool

    /** A fresh player: every field at its default value. */
    constructor()
      ensures position == ZERO && velocity == ZERO && collisionBox == AABB(ZERO, ZERO) && !isGrounded
    {
      position, velocity, collisionBox, isGrounded := ZERO, ZERO, AABB(ZERO, ZERO), false;
    }

    function Snapshot(): Body
      reads this
    {
      Body(position, velocity, collisionBox, isGrounded)
    }
  }

  /** The box may have at most one cell's width and height, so that `Cast`
      always fits in the controller's buffer of twenty. */
  predicate BoxFits(box: AABB) {
    0.0 <= box.Width() <= TILE_SIZE as real && 0.0 <= box.Height() <= TILE_SIZE as real
  }

  /** `SpawnPlayer`: the player starts at the middle of the top edge of the
      640-pixel-wide screen, in a 16 by 32 box. */
  method SpawnPlayer(player: Player)
    modifies player
    ensures player.position == Vec2(320.0, 0.0)
    ensures player.collisionBox == Create(320.0, 0.0, 16.0, 32.0)
    ensures player.velocity == old(player.velocity) && player.isGrounded == old(player.isGrounded)
    ensures BoxFits(player.collisionBox) && Offset(player.Snapshot()) == ZERO
  {
    player.position := Vec2((640 / 2) as real, 0.0);
    player.collisionBox := Create(player.position.x, player.position.y, 16.0, 32.0);
  }

  class PlayerController {
    const player: Player
    const tileMap: TileMap
    const input: Input

    const jumpHeight: real := JUMP_HEIGHT
    const jumpTimeToPeak: real := JUMP_TIME_TO_PEAK
    const jumpTimeToDescend: real := JUMP_TIME_TO_DESCEND

    const jumpVelocity: real
    const jumpGravity: real
    const fallGravity: real

    /** The up key of the previous tick. */
    var isJumping: bool

    function Constants(): Tuning {
      Tuning(jumpVelocity, jumpGravity, fallGravity)
    }

    function TickState(): State
      reads this, player
    {
      State(player.Snapshot(), isJumping)
    }

    /** The level is well formed, the keys are bound as the constructor binds
        them, and the player's box fits the collision buffer. */
    ghost predicate Valid()
      reads this, player, tileMap, tileMap.tiles, input
    {
      tileMap.Valid() &&
      input.leftKeys == LEFT_KEYS && input.rightKeys == RIGHT_KEYS && input.upKeys == UP_KEYS &&
      BoxFits(player.collisionBox)
    }

    constructor(player: Player, tileMap: TileMap)
      requires tileMap.Valid()
      ensures this.player == player && this.tileMap == tileMap && fresh(input)
      ensures Constants() == Derive(jumpHeight, jumpTimeToPeak, jumpTimeToDescend)
      ensures Constants() == Tuning(-512.0, 1024.0, 1600.0) && !isJumping
      ensures input.leftKeys == LEFT_KEYS && input.rightKeys == RIGHT_KEYS && input.upKeys == UP_KEYS
      ensures tileMap.Valid()
      ensures BoxFits(player.collisionBox) ==> Valid()
    {
      this.player := player;
      this.tileMap := tileMap;
      var tuning := Derive(jumpHeight, jumpTimeToPeak, jumpTimeToDescend);
      jumpVelocity := tuning.jumpVelocity;
      jumpGravity := tuning.jumpGravity;
      fallGravity := tuning.fallGravity;
      var keys := new Input();
      var chained := keys.BindKeyboardLeft(Key.Left);
      chained := chained.BindKeyboardLeft(Key.A);
      chained := chained.BindKeyboardRight(Key.Right);
      chained := chained.BindKeyboardRight(Key.D);
      chained := chained.BindKeyboardUp(Key.Space);
      chained := chained.BindKeyboardUp(Key.Z);
      input := keys;
      isJumping := false;
      DefaultTuning();
    }

    /** One frame: `dt` seconds with the keys in `pressed` down. */
    method Update(dt: real, pressed: set<Key>)
      requires Valid()
      modifies this, player
      ensures Valid()
      ensures TickState() ==
        Tick(old(TickState()), Constants(), tileMap.cells, dt,
             Direction(LEFT_KEYS, RIGHT_KEYS, pressed), AnyDown(UP_KEYS, pressed))
      ensures SameShape(player.Snapshot(), old(player.Snapshot()))
    {
      ghost var s := TickState();
      ApplyGravity(dt);

      var dir := input.GetHorizontalVelocity(pressed);
      player.velocity := Vec2(dir as real * MOVEMENT_SPEED, player.velocity.y);

      var wasJumping := isJumping;
      isJumping := input.IsUpDown(pressed);

      if isJumping && player.isGrounded {
        player.velocity := Vec2(player.velocity.x, jumpVelocity);
        player.isGrounded := false;
        isJumping := true;
      }

      if wasJumping && !isJumping && player.velocity.y < 0.0 {
        player.velocity := Vec2(player.velocity.x, 0.0);
      }
      assert player.Snapshot() == PreMove(s, Constants(), dt, dir, isJumping);

      ApplyVelocity(dt);
      ResolveCollisions();
      TickShape(s, Constants(), tileMap.cells, dt, dir, isJumping);
    }

    method ApplyVelocity(dt: real)
      modifies player
      ensures player.Snapshot() == Movement.ApplyVelocity(old(player.Snapshot()), dt)
    {
      Move(player.velocity.Scale(dt));
    }

    method ApplyGravity(dt: real)
      modifies player
      ensures player.Snapshot() == Movement.ApplyGravity(old(player.Snapshot()), Constants(), isJumping, dt)
    {
      if player.isGrounded {
        return;
      }
      var gravity := Movement.Gravity(Constants(), player.velocity.y, isJumping);
      player.velocity := Vec2(player.velocity.x, player.velocity.y + gravity * dt);
    }

    method Move(move: Vec2)
      modifies player
      ensures player.Snapshot() == Movement.Move(old(player.Snapshot()), move)
    {
      player.position := player.position.Plus(move);
      player.collisionBox := AABB(player.collisionBox.min.Plus(move), player.collisionBox.max.Plus(move));
    }

    /** Collects the candidate tiles around the box in a buffer of twenty, then
        resolves them in order against the box as it moves. */
    method ResolveCollisions()
      requires Valid()
      modifies player
      ensures Valid()
      ensures player.Snapshot() ==
        Resolve(old(player.Snapshot()), Candidates(tileMap.cells, old(player.collisionBox)))
    {
      var collisionBuffer := new AABB[20];
      ghost var tiles := Candidates(tileMap.cells, player.collisionBox);
      CandidatesBound(tileMap.cells, player.collisionBox);
      var possiblyCollidingTiles := tileMap.Cast(player.collisionBox, collisionBuffer);
      var count := possiblyCollidingTiles.count;
      assert collisionBuffer[..count] == tiles;

      player.isGrounded := false;
      ghost var start := player.Snapshot();
      ResolveEach(collisionBuffer, count);
      ResolveAllShape(start, tiles);
    }

    /** The `foreach` of `ResolveCollisions`: the first `count` tiles of
        `buffer`, one after another, each against the box as the earlier
        ones left it. */
    method ResolveEach(buffer: array<AABB>, count: int)
      requires 0 <= count <= buffer.Length
      modifies player
      ensures player.Snapshot() == ResolveAll(old(player.Snapshot()), buffer[..count])
    {
      ghost var start := player.Snapshot();
      var i := 0;
      while i < count
        invariant 0 <= i <= count
        invariant player.Snapshot() == ResolveAll(start, buffer[..i])
      {
        var tile := buffer[i];
        ResolveTile(tile);
        assert buffer[..i + 1][..i] == buffer[..i];
        i := i + 1;
      }
    }

    /** The body of the loop in `ResolveCollisions` for one candidate tile. */
    method ResolveTile(tile: AABB)
      modifies player
      ensures player.Snapshot() == ResolveStep(old(player.Snapshot()), tile)
    {
      var c := AreColliding(player.collisionBox, tile);
      if c.colliding {
        Move(c.penetration.Neg());
      }
      if tile.min.y == player.collisionBox.max.y {
        player.isGrounded := true;
        player.velocity := Vec2(player.velocity.x, 0.0);
      }
    }
  }

  /** Spawning and construction as the game does them, which establishes the
      controller's invariant. */
  method NewGame() returns (c: PlayerController)
    ensures c.Valid() && fresh(c) && fresh(c.player) && fresh(c.tileMap)
    ensures c.player.position == Vec2(320.0, 0.0) && c.player.collisionBox == Create(320.0, 0.0, 16.0, 32.0)
    ensures c.tileMap.cells == Level()
  {
    var tileMap := new TileMap();
    var player := new Player();
    SpawnPlayer(player);
    c := new PlayerController(player, tileMap);
  }
}
