# Snake game: movement, food placement and game state

A Dafny model of the logic of a single-player Snake game written in Python on
pygame. Two parts are modelled.

- **Sprites** (`sprites.dfy`, after `sprites_modernized.py`): directions and
  their opposites; the snake as a class with a head cell and a `SnakeTail`
  object holding the ordered tail tiles; a move of one tile with wrap-around
  on a toroidal frame, refused when the new head lands on any cell the snake
  holds now (the last tail tile included, although it would move away);
  the follow-the-leader shift of the tail; the occupancy scan; growth by
  appending tiles behind the last one.
- **Game** (`game.dfy`, after `game_modernized.py`): the configuration and
  its grid size; food placement by bounded rejection sampling (at most
  `grid_width * grid_height` draws, failing when every draw hit the snake);
  the state machine PLAYING / PAUSED / GAME_OVER / QUIT driven by key
  presses and by the timed update step; apple eating with score and growth;
  restart.

Python's `//` and `%` round toward negative infinity; `pyarith.dfy` models
them explicitly (Dafny's are Euclidean). `wrappers.dfy` holds `Option`.

Inputs from the outside world are parameters: the clock reading is
`currentTime`, the results of `random.randint` are a supplied sequence of
`Draw(gridX, gridY)` values in `randint`'s range, and a pygame key event is an
abstract `Key` (Escape, Space, P, a direction key for the arrows and W/A/S/D,
or any other key). Exceptions are results: `NewSnake` returns None where the
snake constructor raises ValueError, `CreateApple` returns None where it
raises RuntimeError, and `InitializeGameObjects`, `RestartGame` and
`HandleKeyDown` report `false` when that RuntimeError escapes them; `Start`
(the game's constructor) returns None in that case.

The game object's state is summarised by `SnakeGame.View()`, a `GameView`
value. Each state-changing method is proved to produce exactly the view given
by a pure transition function (`KeyDown`, `Tick`, `AppleEaten`, `Restarted`),
and the lemmas state what those transitions promise: the score only rises by
exactly one (on eating) or resets to 0 (on restart); no single key press
other than a restart turns the stored direction to its opposite (a restart
resets it to the initial direction, and two presses within one update can
reverse it); a tick that is not due changes nothing; and
while the game is live the apple is never on the snake (`Consistent`, kept by
every update).

Behaviours of the code that the model keeps as written:

- New tail tiles are meant to go behind the last one. For LEFT and RIGHT,
  `_calculate_tail_extension_position` does that. For UP and DOWN it places
  the tile one step in the direction of travel. `VerticalGrowthRepeatsTile`
  proves that, for a straight tail moving vertically, the new tile lands on
  the second-to-last tile. The snake then holds a cell twice until its next
  move.
- The code does not validate its configuration and crashes on a zero tile
  size. The model requires a positive tile size and screen size
  (`ValidConfig`); for the screen size this is stronger than the code
  needs.
- Food placement samples at random. It can fail while free cells exist, if
  every draw misses them. `PlacementFailure` states what the code
  guarantees: a failure means every draw hit the snake, and a full board
  always fails.
- A RuntimeError from placing the first apple of a restart is not caught.
  Only the one raised after eating is. The model reports the restart case as
  `completed == false`.

## Model

| member | source | states |
|---|---|---|
| PyArith.FloorDiv | game_modernized.py:47-55 | Python `//`: the quotient rounded toward negative infinity, `b*q <= a < b*q + b` for a positive divisor |
| PyArith.FloorMod | sprites_modernized.py:247-254 | Python `%`: the remainder lies in `[0, b)` for a positive divisor and in `(b, 0]` for a negative one, and `a == b*(a//b) + a%b` |
| Sprites.IsOpposite | sprites_modernized.py:65-73 | `is_opposite`: the other direction is the one paired with this one in the opposites table (its laws are `OppositeLaws`) |
| Sprites.OppositeLaws | sprites_modernized.py:65-73 | `is_opposite` is symmetric and irreflexive, holds exactly for UP/DOWN and LEFT/RIGHT, and each direction has one opposite |
| Sprites.CalculateNewPosition | sprites_modernized.py:238-256 | the new head changes only the coordinate on the direction's axis, to `(old ± step) % frame`, which lies in `[0, frame)` for a positive frame |
| Sprites.WrapAround | sprites_modernized.py:245-256 | x=0 moving LEFT gives `frame_width - step` (and the three other edges likewise); a step that stays in the frame is unchanged |
| Sprites.FollowLeader | sprites_modernized.py:258-265 | the shifted tail has the same length, tile 0 holds the old head and tile i the old tile i-1 |
| Sprites.MovedCellsWereOccupied | sprites_modernized.py:229-236 | after a move every cell of the snake is the new head or a cell the snake held before |
| Sprites.MoveKeepsDistinct | sprites_modernized.py:221-236 | a snake without repeated cells keeps none after a successful move |
| Sprites.CalculateTailExtensionPosition | sprites_modernized.py:320-337 | the extension tile is one step against travel for LEFT/RIGHT and one step along it for UP/DOWN, shifted by `offset` steps, with no wrap-around |
| Sprites.Lengthened | sprites_modernized.py:293-318 | `segments <= 0` or an empty tail changes nothing; otherwise the tail grows by exactly `segments` tiles and the existing tiles are untouched |
| Sprites.LengthenByOne | sprites_modernized.py:306-337 | one segment appends exactly the offset-0 extension of the last tile: x-step for RIGHT, x+step for LEFT, y-step for UP, y+step for DOWN |
| Sprites.VerticalGrowthRepeatsTile | sprites_modernized.py:328-331 | for a straight tail moving UP or DOWN the new tile equals the second-to-last tile, so the cells are no longer distinct |
| Sprites.SnakeTail.constructor | sprites_modernized.py:144-146 | a new tail is empty |
| Sprites.SnakeTail.AddTile | sprites_modernized.py:148-151 | the tile is appended at the end and the others are kept |
| Sprites.SnakeTail.GetPositions | sprites_modernized.py:153-155 | returns the tile positions in tail order |
| Sprites.Snake.constructor | sprites_modernized.py:185-203 | head at `position`, tail tiles at `(x-w, y)` and `(x-2w, y)`, step = tile width |
| Sprites.NewSnake | sprites_modernized.py:170-203 | raises (None) exactly for a non-square size; otherwise the snake holds the head at the position (default (30,30)) then its two tail tiles |
| Sprites.Snake.GetAllPositions | sprites_modernized.py:339-343 | the head first, then the tail in order; length is tail length + 1 |
| Sprites.Snake.OccupiesPosition | sprites_modernized.py:267-291 | true iff the position is None, has a None coordinate, or equals the head or some tail tile |
| Sprites.Snake.Move | sprites_modernized.py:205-236 | false exactly when the wrapped new head is any current cell, leaving head and tail unchanged; otherwise head = new position and tail = the follow-the-leader shift |
| Sprites.Snake.MoveTail | sprites_modernized.py:258-265 | every tail tile takes its predecessor's old position, the first the old head's |
| Sprites.Snake.LengthenTail | sprites_modernized.py:293-318 | the tail becomes `Lengthened(old tail, d, step, segments)` |
| Game.GridWidth | game_modernized.py:47-50 | the number of whole tiles across: `w*tile <= screen_width < (w+1)*tile` |
| Game.GridHeight | game_modernized.py:52-55 | the number of whole tiles down: `h*tile <= screen_height < (h+1)*tile` |
| Game.ConfigOrDefault | game_modernized.py:73 | `config or GameConfig()`: the given configuration, else the defaults 640×480, tile 10, RIGHT, 100 ms |
| Game.DefaultBoard | game_modernized.py:33-55 | the default configuration is usable, with a 64×48 grid and so at most 3072 placement draws |
| Game.MaxAttempts | game_modernized.py:113 | the attempt bound is one draw per grid cell, `grid_width * grid_height`, never negative |
| Game.DrawPosition | game_modernized.py:121-124 | a drawn grid cell scaled by the tile size to its pixel corner; `DrawIsOnBoard` shows it is tile-aligned inside the grid |
| Game.FirstFreeDraw | game_modernized.py:113-131 | the first draw below the attempt bound whose cell is free, all earlier draws hitting the snake; None only if every draw hit it |
| Game.PlacedApple | game_modernized.py:118-129 | a placed apple is off the snake, tile-aligned and inside the grid |
| Game.PlacementFailure | game_modernized.py:113-134 | placement fails only if all `grid_width*grid_height` draws hit the snake, and always fails when the snake covers the grid |
| Game.InitialCells | game_modernized.py:93-98 | the starting snake: head at the screen centre (floor halves), tail tiles one and two tiles to its left, three cells in all |
| Game.Restarted | game_modernized.py:278-286 | `_restart_game` as a transition: the initial view with a freshly placed apple, or the old apple and `false` when placement raises; its effects are `RestartResets` |
| Game.KeyDown | game_modernized.py:144-174 | `_handle_keydown` as a transition on the view; its effects are `KeyDownStates`, `KeyDownDirection` and `KeyDownScore` |
| Game.AppleEaten | game_modernized.py:206-216 | `_handle_apple_eaten` as a transition: score +1, one tile grown, a new apple or GAME_OVER; its effects are `AppleEatenEffects` |
| Game.Tick | game_modernized.py:176-204 | `_update_game_logic` as a transition at time `now`; its effects are `TickOutcome` and `TickKeepsConsistent` |
| Game.KeyDownStates | game_modernized.py:162-169 | Escape quits from any state, Space restarts only from GAME_OVER, P swaps PLAYING and PAUSED, nothing else changes the state |
| Game.KeyDownDirection | game_modernized.py:170-174 | a direction key is taken only while PLAYING and when not opposite to the stored direction; outside a restart the direction is never reversed |
| Game.KeyDownScore | game_modernized.py:144-174 | a key press leaves the score alone except Space in GAME_OVER, which resets it to 0 |
| Game.QuickTurnReverses | game_modernized.py:170-174 | two direction keys within one update turn a snake heading RIGHT to LEFT, as only the stored direction is checked |
| Game.RestartResets | game_modernized.py:278-286 | restart gives PLAYING, score 0, the initial direction, time 0 and the initial snake; a completed restart has its apple off the snake |
| Game.TickOutcome | game_modernized.py:176-204 | not PLAYING or too soon: nothing changes; collision: only the state becomes GAME_OVER; else head moves, time is stamped, and score and tail rise by exactly 1 iff the head reached the apple; a move missing the apple keeps PLAYING, the apple and exactly the shifted tail, and one reaching it is followed by `AppleEaten` |
| Game.AppleEatenEffects | game_modernized.py:206-216 | eating adds one point and one tile at the end; GAME_OVER exactly when no apple can be placed, otherwise the new apple is off the grown snake |
| Game.TickKeepsConsistent | game_modernized.py:176-216 | an update keeps the apple off the snake while the game is live and the snake at three tiles or more |
| Game.SnakeGame.constructor | game_modernized.py:66-77 | PLAYING, score 0, the initial direction, update time 0 |
| Game.SnakeGame.Start | game_modernized.py:66-101 | on the given configuration or the defaults, a game in its initial view with the first placed apple, or None when that placement raises |
| Game.SnakeGame.InitializeGameObjects | game_modernized.py:90-101 | a fresh snake at the screen centre and the placed apple; the old apple stays when placement fails |
| Game.SnakeGame.CreateApple | game_modernized.py:103-134 | the first free drawn cell, off the snake and on the grid, after at most `grid_width*grid_height` draws; None after exactly that many when all hit |
| Game.SnakeGame.HandleKeyDown | game_modernized.py:144-174 | the new view is `KeyDown` of the old one, and the game stays consistent when the handler completes |
| Game.SnakeGame.RestartGame | game_modernized.py:278-286 | the new view is `Restarted`; consistent when the apple was placed |
| Game.SnakeGame.UpdateGameLogic | game_modernized.py:176-204 | the new view is `Tick` of the old one, and the game stays consistent |
| Game.SnakeGame.HandleAppleEaten | game_modernized.py:206-219 | the new view is `AppleEaten` of the old one |

## Left out

- pygame setup, the window and caption, the frame clock, the main loop and
  event polling (`__init__`'s display calls, `_handle_events`, `run`,
  `_update_window_title`): input/output. The window-close event, which sets
  QUIT like Escape, is not a separate key.
- Rendering and message overlays (`_render`, `_render_pause_message`,
  `_render_game_over_message`): drawing only.
- Surfaces, colours and images of `Apple`, `SnakeTile`, `SnakeHead`, and the
  `Color`, `Size` and `Position` helpers' tuple protocol: only tile top-left
  positions are kept, as integer cells; the apple is its cell.
- `Apple`'s check for a None position: the game never passes one.
- `random.randint`: replaced by a supplied sequence of draws, required to lie
  in `randint`'s range and to be at least `grid_width*grid_height` long.
- Logging and `main()`, including its handling of an escaping exception.
- Configurations with a non-positive tile size or screen dimension
  (`ValidConfig`). A zero tile size makes `grid_width` raise
  ZeroDivisionError; a negative one makes the grid size negative, with the
  outcomes of a negative screen dimension below. A zero screen dimension gives an empty grid, so
  `max_attempts` is 0 and the first placement raises RuntimeError, which
  `Start` would report as None; the model excludes it all the same, so its
  requirement is stronger than the source needs there. With a negative
  screen dimension placement either makes no draw (RuntimeError) or draws
  from an empty `randint` range (ValueError).
- Game.SnakeGame.constructor: the apple it sets is a placeholder, since the
  source creates the snake and apple only in `_initialize_game_objects`,
  which `Start` always runs next.
- setup_modernized.py and __init__.py: packaging and re-exports.
