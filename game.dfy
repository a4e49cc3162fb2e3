/** The game state orchestrator: configuration, food placement by bounded
    rejection sampling, key handling, the timed update step, apple eating
    and restart. The clock reading is a `currentTime` parameter, the random
    grid draws a supplied sequence, and key presses an abstract `Key`. */
module Game {

  import opened Wrappers
  import opened PyArith
  import opened Sprites

  datatype GameState = Playing | GameOver | Paused | Quit

  /** The keys the game reacts to; the arrow keys and W/A/S/D both arrive as
      `DirectionKey`. Any other key is `OtherKey`. */
  datatype Key = Escape | Space | P | DirectionKey(d: Direction) | OtherKey

  datatype GameConfig = GameConfig(
    screenWidth: int,
    screenHeight: int,
    tileSize: int,
    initialDirection: Direction,
    updateSpeed: int)

  const DefaultConfig := GameConfig(640, 480, 10, Right, 100)

  /** `config or GameConfig()`: the given configuration, or the defaults
      when none is given. */
  function ConfigOrDefault(config: Option<GameConfig>): GameConfig
  {
    if config.Some? then config.value else DefaultConfig
  }

  /** The configurations the model runs on. A zero tile size makes the
      grid size raise ZeroDivisionError; the screen dimensions are
      required positive as well, which excludes more than the source
      strictly needs (a zero dimension gives an empty grid, on which the
      first apple placement raises RuntimeError). */
  predicate ValidConfig(c: GameConfig)
  {
    c.tileSize > 0 && c.screenWidth > 0 && c.screenHeight > 0
  }

  /** The number of whole tiles across the screen. */
  function GridWidth(c: GameConfig): (w: int)
    requires c.tileSize != 0
    ensures c.tileSize > 0 ==> w * c.tileSize <= c.screenWidth < w * c.tileSize + c.tileSize
    ensures ValidConfig(c) ==> w >= 0
  {
    FloorDiv(c.screenWidth, c.tileSize)
  }

  /** The number of whole tiles down the screen. */
  function GridHeight(c: GameConfig): (h: int)
    requires c.tileSize != 0
    ensures c.tileSize > 0 ==> h * c.tileSize <= c.screenHeight < h * c.tileSize + c.tileSize
    ensures ValidConfig(c) ==> h >= 0
  {
    FloorDiv(c.screenHeight, c.tileSize)
  }

  /** How many draws food placement makes at most: one per grid cell. */
  function MaxAttempts(c: GameConfig): nat
    requires ValidConfig(c)
  {
    NonNegProduct(GridWidth(c), GridHeight(c));
    GridWidth(c) * GridHeight(c)
  }

  /** The default board is 64 by 48 tiles, so placement draws at most
      3072 times. */
  lemma DefaultBoard()
    ensures ValidConfig(DefaultConfig)
    ensures GridWidth(DefaultConfig) == 64 && GridHeight(DefaultConfig) == 48
    ensures MaxAttempts(DefaultConfig) == 3072
  {
  }

  lemma NonNegProduct(a: int, b: int)
    requires a >= 0 && b >= 0
    ensures a * b >= 0
  {
  }

  // ---------------------------------------------------------------------
  // Food placement
  // ---------------------------------------------------------------------

  /** One pair of `randint` results: a grid column and a grid row. */
  datatype Draw = Draw(gridX: int, gridY: int)

  /** `randint(0, grid_width - 1)` and `randint(0, grid_height - 1)` only
      return values in those ranges. */
  predicate DrawsInRange(c: GameConfig, draws: seq<Draw>)
    requires ValidConfig(c)
  {
    forall i :: 0 <= i < |draws| ==> 0 <= draws[i].gridX < GridWidth(c) && 0 <= draws[i].gridY < GridHeight(c)
  }

  /** The draws a placement may consume are available and in range. */
  predicate DrawsSuffice(c: GameConfig, draws: seq<Draw>)
  {
    ValidConfig(c) && MaxAttempts(c) <= |draws| && DrawsInRange(c, draws)
  }

  /** The pixel top-left corner of a drawn grid cell. */
  function DrawPosition(c: GameConfig, dr: Draw): Cell
  {
    Cell(dr.gridX * c.tileSize, dr.gridY * c.tileSize)
  }

  /** A tile-aligned cell inside the grid. */
  predicate OnBoard(c: GameConfig, p: Cell)
    requires ValidConfig(c)
  {
    && 0 <= p.x < GridWidth(c) * c.tileSize && p.x % c.tileSize == 0
    && 0 <= p.y < GridHeight(c) * c.tileSize && p.y % c.tileSize == 0
  }

  lemma {:induction false} DrawIsOnBoard(c: GameConfig, dr: Draw)
    requires ValidConfig(c)
    requires 0 <= dr.gridX < GridWidth(c) && 0 <= dr.gridY < GridHeight(c)
    ensures OnBoard(c, DrawPosition(c, dr))
  {
    ScaledCell(dr.gridX, GridWidth(c), c.tileSize);
    ScaledCell(dr.gridY, GridHeight(c), c.tileSize);
  }

  lemma {:induction false} ScaledCell(g: int, n: int, t: int)
    requires 0 <= g < n && t > 0
    ensures 0 <= g * t < n * t && (g * t) % t == 0
  {
    FloorModUnique(g * t, t, g, 0);
    assert n * t - g * t == (n - g) * t;
    MulAtLeast(t, n - g);
  }

  /** The index of the first draw, from `from` on and below the attempt
      bound, whose cell is not in `cells`; None when every one of them is. */
  function FirstFreeDraw(cells: seq<Cell>, c: GameConfig, draws: seq<Draw>, from: nat): (r: Option<nat>)
    requires ValidConfig(c) && from <= MaxAttempts(c) <= |draws|
    ensures r.Some? ==> from <= r.value < MaxAttempts(c) && DrawPosition(c, draws[r.value]) !in cells
    ensures r.Some? ==> forall j :: from <= j < r.value ==> DrawPosition(c, draws[j]) in cells
    ensures r.None? ==> forall j :: from <= j < MaxAttempts(c) ==> DrawPosition(c, draws[j]) in cells
    decreases MaxAttempts(c) - from
  {
    if from == MaxAttempts(c) then None
    else if DrawPosition(c, draws[from]) !in cells then Some(from)
    else FirstFreeDraw(cells, c, draws, from + 1)
  }

  /** Where `_create_apple` puts the apple for a snake holding `cells`, or
      None where it raises RuntimeError. A placed apple is never on the
      snake and always a tile-aligned cell of the grid. */
  function PlacedApple(cells: seq<Cell>, c: GameConfig, draws: seq<Draw>): (r: Option<Cell>)
    requires DrawsSuffice(c, draws)
    ensures r.Some? ==> r.value !in cells && OnBoard(c, r.value)
  {
    match FirstFreeDraw(cells, c, draws, 0)
    case Some(i) => DrawIsOnBoard(c, draws[i]); Some(DrawPosition(c, draws[i]))
    case None => None
  }

  /** Placement fails only if each of the `grid_width * grid_height` draws
      landed on the snake; in particular it fails when the snake covers the
      whole grid. */
  lemma PlacementFailure(cells: seq<Cell>, c: GameConfig, draws: seq<Draw>)
    requires DrawsSuffice(c, draws)
    ensures PlacedApple(cells, c, draws).None? ==>
              forall j :: 0 <= j < MaxAttempts(c) ==> DrawPosition(c, draws[j]) in cells
    ensures (forall p :: OnBoard(c, p) ==> p in cells) ==> PlacedApple(cells, c, draws).None?
  {
  }

  // ---------------------------------------------------------------------
  // The abstract game state and its transitions
  // ---------------------------------------------------------------------

  /** Everything the game logic reads and writes: state, score, stored
      direction, time of the last update, the snake's head and tail, and
      the apple. */
  datatype GameView = GameView(
    state: GameState,
    score: nat,
    direction: Direction,
    lastUpdateTime: int,
    head: Cell,
    tail: seq<Cell>,
    apple: Cell)
  {
    function Cells(): seq<Cell>
    {
      [head] + tail
    }

    /** While the game is live the apple is off the snake, and the snake
        has at least three tiles. */
    predicate Consistent()
    {
      |tail| >= 2 && (state == Playing || state == Paused ==> apple !in Cells())
    }
  }

  /** The snake created by `_initialize_game_objects`: head at the screen
      centre, two tail tiles to its left. */
  function InitialCells(c: GameConfig): (cells: seq<Cell>)
    requires ValidConfig(c)
    ensures |cells| == 3
  {
    var centre := Cell(FloorDiv(c.screenWidth, 2), FloorDiv(c.screenHeight, 2));
    [centre, Cell(centre.x - c.tileSize, centre.y), Cell(centre.x - 2 * c.tileSize, centre.y)]
  }

  function InitialView(c: GameConfig, apple: Cell): GameView
    requires ValidConfig(c)
  {
    GameView(Playing, 0, c.initialDirection, 0, InitialCells(c)[0], InitialCells(c)[1..], apple)
  }

  /** `_restart_game`: the view afterwards and whether the apple placement
      succeeded (when it does not, RuntimeError escapes and the old apple
      is still in place). */
  function Restarted(c: GameConfig, oldApple: Cell, draws: seq<Draw>): (GameView, bool)
    requires DrawsSuffice(c, draws)
  {
    var placed := PlacedApple(InitialCells(c), c, draws);
    (InitialView(c, if placed.Some? then placed.value else oldApple), placed.Some?)
  }

  /** `_handle_keydown`: the view afterwards and whether it completed
      without an escaping RuntimeError. */
  function KeyDown(v: GameView, c: GameConfig, key: Key, draws: seq<Draw>): (GameView, bool)
    requires DrawsSuffice(c, draws)
  {
    match key
    case Escape => (v.(state := Quit), true)
    case Space => if v.state == GameOver then Restarted(c, v.apple, draws) else (v, true)
    case P =>
      if v.state == Playing then (v.(state := Paused), true)
      else if v.state == Paused then (v.(state := Playing), true)
      else (v, true)
    case DirectionKey(d) =>
      if v.state == Playing && !IsOpposite(d, v.direction) then (v.(direction := d), true) else (v, true)
    case OtherKey => (v, true)
  }

  /** `_handle_apple_eaten`: one more point, one more tile, and a new apple,
      or GAME_OVER when none can be placed. */
  function AppleEaten(v: GameView, c: GameConfig, draws: seq<Draw>): GameView
    requires DrawsSuffice(c, draws)
  {
    var grown := Lengthened(v.tail, v.direction, c.tileSize, 1);
    var placed := PlacedApple([v.head] + grown, c, draws);
    v.(score := v.score + 1, tail := grown,
       apple := if placed.Some? then placed.value else v.apple,
       state := if placed.Some? then v.state else GameOver)
  }

  /** `_update_game_logic` at time `now`. */
  function Tick(v: GameView, c: GameConfig, now: int, draws: seq<Draw>): GameView
    requires DrawsSuffice(c, draws)
  {
    if v.state != Playing || now - v.lastUpdateTime < c.updateSpeed then v
    else
      var p := CalculateNewPosition(v.head, v.direction, c.tileSize, c.screenWidth, c.screenHeight);
      if p in v.Cells() then v.(state := GameOver)
      else
        var moved := v.(head := p, tail := FollowLeader(v.head, v.tail), lastUpdateTime := now);
        if p == v.apple then AppleEaten(moved, c, draws) else moved
  }

  // ---------------------------------------------------------------------
  // Properties of the transitions
  // ---------------------------------------------------------------------

  /** A key press changes the state only as follows: Escape quits from any
      state, Space restarts only from GAME_OVER, P swaps PLAYING and PAUSED;
      every other key, and these keys in other states, leave it. */
  lemma KeyDownStates(v: GameView, c: GameConfig, key: Key, draws: seq<Draw>)
    requires DrawsSuffice(c, draws)
    ensures var w := KeyDown(v, c, key, draws).0;
      && (key == Escape ==> w.state == Quit)
      && (key == Space ==> w.state == if v.state == GameOver then Playing else v.state)
      && (key == P ==> w.state == match v.state
                                  case Playing => Paused
                                  case Paused => Playing
                                  case s => s)
      && (key.DirectionKey? || key == OtherKey ==> w.state == v.state)
  {
  }

  /** The direction is never turned to the opposite of the stored one; a
      direction key is taken exactly while PLAYING and when not opposite.
      Only a restart (from GAME_OVER) resets it to the initial one. */
  lemma KeyDownDirection(v: GameView, c: GameConfig, key: Key, draws: seq<Draw>)
    requires DrawsSuffice(c, draws)
    ensures var w := KeyDown(v, c, key, draws).0;
      && (v.state != GameOver || key != Space ==> !IsOpposite(w.direction, v.direction))
      && (key.DirectionKey? ==>
            w.direction == if v.state == Playing && !IsOpposite(key.d, v.direction) then key.d else v.direction)
  {
  }

  /** A key press only ever resets the score to 0 (a restart from
      GAME_OVER); it never otherwise changes it. */
  lemma KeyDownScore(v: GameView, c: GameConfig, key: Key, draws: seq<Draw>)
    requires DrawsSuffice(c, draws)
    ensures var w := KeyDown(v, c, key, draws).0;
      w.score == if key == Space && v.state == GameOver then 0 else v.score
  {
  }

  /** A restart resets state, score, direction, update time and snake, and
      when it completes the new apple is off the new snake. */
  lemma RestartResets(c: GameConfig, oldApple: Cell, draws: seq<Draw>)
    requires DrawsSuffice(c, draws)
    ensures var (w, ok) := Restarted(c, oldApple, draws);
      && w.state == Playing && w.score == 0 && w.direction == c.initialDirection
      && w.lastUpdateTime == 0 && w.Cells() == InitialCells(c)
      && (ok ==> w.Consistent() && OnBoard(c, w.apple))
      && (!ok ==> w.apple == oldApple)
  {
  }

  /** An update either changes nothing (not PLAYING, or too soon), ends
      the game on a collision, or moves the snake and stamps the time; the
      score rises by exactly 1 and the tail by exactly 1 tile precisely when
      the new head is the apple. A move that misses the apple keeps the
      game PLAYING with the same apple; one that reaches it is followed by
      `AppleEaten`. */
  lemma TickOutcome(v: GameView, c: GameConfig, now: int, draws: seq<Draw>)
    requires DrawsSuffice(c, draws) && v.Consistent()
    ensures var w := Tick(v, c, now, draws);
      var p := CalculateNewPosition(v.head, v.direction, c.tileSize, c.screenWidth, c.screenHeight);
      var due := v.state == Playing && now - v.lastUpdateTime >= c.updateSpeed;
      && (!due ==> w == v)
      && (due && p in v.Cells() ==> w == v.(state := GameOver))
      && (due && p !in v.Cells() ==>
            && w.head == p && w.lastUpdateTime == now && w.direction == v.direction
            && w.tail[..|v.tail|] == FollowLeader(v.head, v.tail)
            && (w.score == v.score + 1 <==> p == v.apple)
            && (w.score == v.score <==> p != v.apple)
            && |w.tail| == |v.tail| + (if p == v.apple then 1 else 0))
      && (due && p !in v.Cells() && p != v.apple ==>
            w.state == Playing && w.apple == v.apple && w.tail == FollowLeader(v.head, v.tail))
      && (due && p !in v.Cells() && p == v.apple ==>
            w == AppleEaten(v.(head := p, tail := FollowLeader(v.head, v.tail), lastUpdateTime := now), c, draws))
  {
  }

  /** Eating adds exactly one point and one tile at the end of the tail;
      the new apple is off the grown snake, and when none can be placed the
      game is over with the old apple left in place. */
  lemma AppleEatenEffects(v: GameView, c: GameConfig, draws: seq<Draw>)
    requires DrawsSuffice(c, draws) && |v.tail| >= 2
    ensures var w := AppleEaten(v, c, draws);
      && w.score == v.score + 1 && w.head == v.head && w.direction == v.direction
      && w.lastUpdateTime == v.lastUpdateTime
      && |w.tail| == |v.tail| + 1 && w.tail[..|v.tail|] == v.tail
      && (w.state == GameOver <==> v.state == GameOver || PlacedApple(w.Cells(), c, draws).None?)
      && (w.state != GameOver ==> w.apple !in w.Cells() && OnBoard(c, w.apple))
      && (w.state == GameOver && v.state != GameOver ==> w.apple == v.apple)
  {
  }

  /** An update keeps the view consistent: in particular the apple is
      never on the snake while the game is live. */
  lemma TickKeepsConsistent(v: GameView, c: GameConfig, now: int, draws: seq<Draw>)
    requires DrawsSuffice(c, draws) && v.Consistent()
    ensures Tick(v, c, now, draws).Consistent()
  {
  }

  /** The stored direction is checked only against itself, not against the
      direction the snake last moved: two direction keys inside one update
      interval turn a snake heading RIGHT to LEFT. */
  lemma QuickTurnReverses(v: GameView, c: GameConfig, draws: seq<Draw>)
    requires DrawsSuffice(c, draws) && v.state == Playing && v.direction == Right
    ensures var w := KeyDown(KeyDown(v, c, DirectionKey(Up), draws).0, c, DirectionKey(Left), draws).0;
      w.direction == Left && IsOpposite(w.direction, v.direction)
  {
  }

  // ---------------------------------------------------------------------
  // The game object
  // ---------------------------------------------------------------------

  class SnakeGame {
    const config: GameConfig
    var state: GameState
    var score: nat
    var direction: Direction
    var lastUpdateTime: int
    var snake: Snake
    var apple: Cell

    /** The configuration is usable and the snake steps by one tile. */
    ghost predicate Wellformed()
      reads this, snake
    {
      ValidConfig(config) && snake.step == config.tileSize
    }

    ghost predicate Valid()
      reads this, snake, snake.tail
    {
      Wellformed() && View().Consistent()
    }

    ghost function View(): GameView
      reads this, snake, snake.tail
    {
      GameView(state, score, direction, lastUpdateTime, snake.head, snake.tail.tiles, apple)
    }

    /** The field initialisation of `SnakeGame.__init__` and its first
        snake. The apple is a placeholder: `Start` always follows with
        `InitializeGameObjects`, which replaces both. */
    constructor (config: GameConfig)
      requires ValidConfig(config)
      ensures this.config == config && Wellformed()
      ensures state == Playing && score == 0 && direction == config.initialDirection && lastUpdateTime == 0
    {
      this.config := config;
      state := Playing;
      score := 0;
      direction := config.initialDirection;
      lastUpdateTime := 0;
      var centre := InitialCells(config)[0];
      snake := new Snake(centre, Size(config.tileSize, config.tileSize));
      apple := Cell(0, 0);
    }

    /** `SnakeGame(config)`: a game in its initial view, on the given or
        the default configuration, or None where the first apple cannot be
        placed and the constructor raises. */
    static method Start(config: Option<GameConfig>, draws: seq<Draw>) returns (game: Option<SnakeGame>)
      requires DrawsSuffice(ConfigOrDefault(config), draws)
      ensures var c := ConfigOrDefault(config);
        game.Some? <==> PlacedApple(InitialCells(c), c, draws).Some?
      ensures var c := ConfigOrDefault(config);
        game.Some? ==> fresh(game.value) && game.value.config == c && game.value.Valid()
                       && game.value.View() == InitialView(c, PlacedApple(InitialCells(c), c, draws).value)
    {
      var c := ConfigOrDefault(config);
      var g := new SnakeGame(c);
      var placed := g.InitializeGameObjects(draws);
      if placed {
        assert g.View().Cells() == InitialCells(c);
        return Some(g);
      }
      return None;
    }

    /** A new snake at the screen centre and a new apple off it. When no
        apple can be placed (RuntimeError) the old apple stays. */
    method InitializeGameObjects(draws: seq<Draw>) returns (placed: bool)
      requires DrawsSuffice(config, draws)
      modifies this
      ensures fresh(snake) && fresh(snake.tail) && Wellformed()
      ensures snake.Cells() == InitialCells(config)
      ensures placed == PlacedApple(InitialCells(config), config, draws).Some?
      ensures apple == if placed then PlacedApple(InitialCells(config), config, draws).value else old(apple)
      ensures state == old(state) && score == old(score) && direction == old(direction)
      ensures lastUpdateTime == old(lastUpdateTime)
    {
      var centre := InitialCells(config)[0];
      snake := new Snake(centre, Size(config.tileSize, config.tileSize));
      var a, _ := CreateApple(draws);
      placed := a.Some?;
      if placed {
        apple := a.value;
      }
    }

    /** Bounded rejection sampling: at most `grid_width * grid_height`
        draws, returning the first free cell, or None (RuntimeError) after
        using them all. Also returns how many draws were taken. */
    method CreateApple(draws: seq<Draw>) returns (position: Option<Cell>, drawsUsed: nat)
      requires DrawsSuffice(config, draws)
      ensures position == PlacedApple(snake.Cells(), config, draws)
      ensures position.Some? ==> position.value !in snake.Cells() && OnBoard(config, position.value)
      ensures drawsUsed <= MaxAttempts(config)
      ensures position.None? ==> drawsUsed == MaxAttempts(config)
      ensures position.Some? ==> drawsUsed == FirstFreeDraw(snake.Cells(), config, draws, 0).value + 1
    {
      var maxAttempts := GridWidth(config) * GridHeight(config);
      var attempts := 0;
      while attempts < maxAttempts
        invariant 0 <= attempts <= maxAttempts
        invariant FirstFreeDraw(snake.Cells(), config, draws, 0) == FirstFreeDraw(snake.Cells(), config, draws, attempts)
      {
        var candidate := DrawPosition(config, draws[attempts]);
        var occupied := snake.OccupiesPosition(Some(Probe(Some(candidate.x), Some(candidate.y))));
        if !occupied {
          return Some(candidate), attempts + 1;
        }
        attempts := attempts + 1;
      }
      return None, attempts;
    }

    /** Reacts to one key press; false when a restart's apple placement
        raised RuntimeError out of the handler. */
    method HandleKeyDown(key: Key, draws: seq<Draw>) returns (completed: bool)
      requires Valid() && DrawsSuffice(config, draws)
      modifies this
      ensures (View(), completed) == KeyDown(old(View()), config, key, draws)
      ensures Wellformed() && (completed ==> Valid())
    {
      match key {
        case Escape =>
          state := Quit;
        case Space =>
          if state == GameOver {
            completed := RestartGame(draws);
            return;
          }
        case P =>
          if state == Playing {
            state := Paused;
          } else if state == Paused {
            state := Playing;
          }
        case DirectionKey(d) =>
          if state == Playing && !IsOpposite(d, direction) {
            direction := d;
          }
        case OtherKey =>
      }
      completed := true;
    }

    /** Back to PLAYING with score 0, the initial direction, update time 0,
        a new snake and a new apple. */
    method RestartGame(draws: seq<Draw>) returns (completed: bool)
      requires DrawsSuffice(config, draws)
      modifies this
      ensures (View(), completed) == Restarted(config, old(apple), draws)
      ensures Wellformed() && (completed ==> Valid())
    {
      state := Playing;
      score := 0;
      direction := config.initialDirection;
      lastUpdateTime := 0;
      completed := InitializeGameObjects(draws);
      assert View().Cells() == InitialCells(config);
    }

    /** One update at time `currentTime`. */
    method UpdateGameLogic(currentTime: int, draws: seq<Draw>)
      requires Valid() && DrawsSuffice(config, draws)
      modifies this, snake, snake.tail
      ensures snake == old(snake)
      ensures View() == Tick(old(View()), config, currentTime, draws)
      ensures Valid()
    {
      ghost var v := View();
      TickKeepsConsistent(v, config, currentTime, draws);
      if state != Playing {
        return;
      }
      if currentTime - lastUpdateTime < config.updateSpeed {
        return;
      }
      var moved := snake.Move(direction, config.screenWidth, config.screenHeight);
      if !moved {
        state := GameOver;
        return;
      }
      if snake.head == apple {
        HandleAppleEaten(draws);
      }
      lastUpdateTime := currentTime;
    }

    /** Score up by one, tail up by one tile, and a new apple, or GAME_OVER
        when the board has no room for one. */
    method HandleAppleEaten(draws: seq<Draw>)
      requires Wellformed() && DrawsSuffice(config, draws)
      modifies this, snake.tail
      ensures snake == old(snake) && Wellformed()
      ensures View() == AppleEaten(old(View()), config, draws)
    {
      score := score + 1;
      snake.LengthenTail(1, direction);
      var a, _ := CreateApple(draws);
      if a.Some? {
        apple := a.value;
      } else {
        state := GameOver;
      }
    }
  }
}
