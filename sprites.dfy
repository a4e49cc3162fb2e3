/** The snake's movement and occupancy model: grid cells, directions, the
    snake as a head cell plus an ordered tail of tiles, moving with
    wrap-around on a toroidal frame, self-collision and growth. Coordinates
    are the pixel top-left corners of the tiles. */
module Sprites {

  import opened Wrappers
  import opened PyArith

  /** A tile's top-left position. */
  datatype Cell = Cell(x: int, y: int)

  /** Width and height of a tile. */
  datatype Size = Size(width: int, height: int)

  datatype Direction = Up | Down | Left | Right

  /** A position whose coordinates may be missing (Python None). */
  datatype Probe = Probe(px: Option<int>, py: Option<int>)

  const DefaultSize := Size(10, 10)
  const DefaultPosition := Cell(30, 30)

  // ---------------------------------------------------------------------
  // Directions
  // ---------------------------------------------------------------------

  function Opposite(d: Direction): Direction
  {
    match d
    case Up => Down
    case Down => Up
    case Left => Right
    case Right => Left
  }

  predicate IsOpposite(d: Direction, other: Direction)
  {
    Opposite(d) == other
  }

  /** Being opposite is symmetric and irreflexive, pairs UP with DOWN and
      LEFT with RIGHT, and every direction has exactly one opposite. */
  lemma OppositeLaws(a: Direction, b: Direction)
    ensures IsOpposite(a, b) <==> IsOpposite(b, a)
    ensures !IsOpposite(a, a)
    ensures IsOpposite(a, b) <==> (a, b) in {(Up, Down), (Down, Up), (Left, Right), (Right, Left)}
    ensures IsOpposite(a, Opposite(a))
    ensures forall c :: IsOpposite(a, b) && IsOpposite(a, c) ==> b == c
  {
  }

  predicate Horizontal(d: Direction)
  {
    d == Left || d == Right
  }

  // ---------------------------------------------------------------------
  // Positions
  // ---------------------------------------------------------------------

  /** One step of `step` pixels from `c` in direction `d`, without any
      wrapping: UP decreases y, DOWN increases y, LEFT decreases x and RIGHT
      increases x. */
  function Stepped(c: Cell, d: Direction, step: int): Cell
  {
    match d
    case Up => Cell(c.x, c.y - step)
    case Down => Cell(c.x, c.y + step)
    case Left => Cell(c.x - step, c.y)
    case Right => Cell(c.x + step, c.y)
  }

  /** Python's `%` raises on a zero frame size, but only on the axis the
      move touches. */
  predicate WrapDefined(d: Direction, frameWidth: int, frameHeight: int)
  {
    if Horizontal(d) then frameWidth != 0 else frameHeight != 0
  }

  /** The new head position: one step in `d`, the moved coordinate reduced
      modulo the frame size on that axis (toroidal frame). */
  function CalculateNewPosition(pos: Cell, d: Direction, step: int, frameWidth: int, frameHeight: int): (r: Cell)
    requires WrapDefined(d, frameWidth, frameHeight)
    ensures Horizontal(d) ==> r.y == pos.y && r.x == FloorMod(Stepped(pos, d, step).x, frameWidth)
    ensures !Horizontal(d) ==> r.x == pos.x && r.y == FloorMod(Stepped(pos, d, step).y, frameHeight)
    ensures Horizontal(d) && frameWidth > 0 ==> 0 <= r.x < frameWidth
    ensures !Horizontal(d) && frameHeight > 0 ==> 0 <= r.y < frameHeight
  {
    match d
    case Up => Cell(pos.x, FloorMod(pos.y - step, frameHeight))
    case Down => Cell(pos.x, FloorMod(pos.y + step, frameHeight))
    case Right => Cell(FloorMod(pos.x + step, frameWidth), pos.y)
    case Left => Cell(FloorMod(pos.x - step, frameWidth), pos.y)
  }

  /** Leaving the frame on one edge re-enters it on the opposite edge, and
      a step that stays inside the frame is not altered. */
  lemma {:induction false} WrapAround(c: Cell, step: int, frameWidth: int, frameHeight: int)
    requires 0 < step <= frameWidth && 0 < step <= frameHeight
    ensures c.x == 0 ==> CalculateNewPosition(c, Left, step, frameWidth, frameHeight) == Cell(frameWidth - step, c.y)
    ensures c.x == frameWidth - step ==> CalculateNewPosition(c, Right, step, frameWidth, frameHeight) == Cell(0, c.y)
    ensures c.y == 0 ==> CalculateNewPosition(c, Up, step, frameWidth, frameHeight) == Cell(c.x, frameHeight - step)
    ensures c.y == frameHeight - step ==> CalculateNewPosition(c, Down, step, frameWidth, frameHeight) == Cell(c.x, 0)
    ensures forall d :: 0 <= Stepped(c, d, step).x < frameWidth && 0 <= Stepped(c, d, step).y < frameHeight ==>
                        CalculateNewPosition(c, d, step, frameWidth, frameHeight) == Stepped(c, d, step)
  {
    if c.x == 0 {
      FloorModUnique(-step, frameWidth, -1, frameWidth - step);
    }
    if c.x == frameWidth - step {
      FloorModUnique(frameWidth, frameWidth, 1, 0);
    }
    if c.y == 0 {
      FloorModUnique(-step, frameHeight, -1, frameHeight - step);
    }
    if c.y == frameHeight - step {
      FloorModUnique(frameHeight, frameHeight, 1, 0);
    }
    forall d | 0 <= Stepped(c, d, step).x < frameWidth && 0 <= Stepped(c, d, step).y < frameHeight
      ensures CalculateNewPosition(c, d, step, frameWidth, frameHeight) == Stepped(c, d, step)
    {
      FloorModUnique(Stepped(c, d, step).x, frameWidth, 0, Stepped(c, d, step).x);
      FloorModUnique(Stepped(c, d, step).y, frameHeight, 0, Stepped(c, d, step).y);
    }
  }

  /** The tail after a follow-the-leader shift: tile 0 takes the old head
      position and tile i the old position of tile i-1; the old last tile's
      position is vacated. */
  function FollowLeader(oldHead: Cell, tiles: seq<Cell>): (r: seq<Cell>)
    ensures |r| == |tiles|
    ensures |tiles| > 0 ==> r[0] == oldHead
    ensures forall i :: 0 < i < |tiles| ==> r[i] == tiles[i - 1]
  {
    if tiles == [] then [] else [oldHead] + tiles[..|tiles| - 1]
  }

  /** No cell appears twice. */
  ghost predicate Distinct(cells: seq<Cell>)
  {
    forall i, j :: 0 <= i < j < |cells| ==> cells[i] != cells[j]
  }

  /** A successful move only visits cells the snake held before, plus the
      new head; so a cell that was free and is not the new head stays
      free. */
  lemma MovedCellsWereOccupied(p: Cell, head: Cell, tiles: seq<Cell>, c: Cell)
    requires c in [p] + FollowLeader(head, tiles)
    ensures c == p || c in [head] + tiles
  {
  }

  /** A successful move keeps the snake free of self-overlap. */
  lemma {:induction false} MoveKeepsDistinct(p: Cell, head: Cell, tiles: seq<Cell>)
    requires Distinct([head] + tiles) && p !in [head] + tiles
    ensures Distinct([p] + FollowLeader(head, tiles))
  {
    var before := [p] + ([head] + tiles);
    assert Distinct(before) by {
      forall i, j | 0 <= i < j < |before| ensures before[i] != before[j] {
        if i == 0 {
          assert before[j] == ([head] + tiles)[j - 1];
        } else {
          assert before[i] == ([head] + tiles)[i - 1];
          assert before[j] == ([head] + tiles)[j - 1];
        }
      }
    }
    var after := [p] + FollowLeader(head, tiles);
    assert after == before[..|after|];
  }

  /** Where a new tail tile is placed relative to the current last tile,
      with no wrap-around. For LEFT and RIGHT it is one step against the
      direction of travel, for UP and DOWN, as written, one step along it;
      in both cases shifted by `offset` steps toward increasing
      coordinates on that axis. */
  function CalculateTailExtensionPosition(last: Cell, d: Direction, step: int, offset: int): (r: Cell)
    ensures Horizontal(d) ==> r == Stepped(last, Opposite(d), step).(x := Stepped(last, Opposite(d), step).x + offset * step)
    ensures !Horizontal(d) ==> r == Stepped(last, d, step).(y := Stepped(last, d, step).y + offset * step)
  {
    match d
    case Up => Cell(last.x, last.y - step + offset * step)
    case Down => Cell(last.x, last.y + step + offset * step)
    case Right => Cell(last.x - step + offset * step, last.y)
    case Left => Cell(last.x + step + offset * step, last.y)
  }

  /** The tail after `lengthen_tail(segments, d)`: nothing changes for
      `segments <= 0` or an empty tail; otherwise iteration i appends the
      extension of the then-last tile with offset i. */
  function Lengthened(tiles: seq<Cell>, d: Direction, step: int, segments: int): (r: seq<Cell>)
    ensures |r| == if segments <= 0 || tiles == [] then |tiles| else |tiles| + segments
    ensures r[..|tiles|] == tiles
    decreases segments
  {
    if segments <= 0 || tiles == [] then tiles
    else
      var g := Lengthened(tiles, d, step, segments - 1);
      g + [CalculateTailExtensionPosition(g[|g| - 1], d, step, segments - 1)]
  }

  /** The only growth the game asks for: one tile, offset 0. */
  lemma LengthenByOne(tiles: seq<Cell>, d: Direction, step: int)
    requires tiles != []
    ensures Lengthened(tiles, d, step, 1) == tiles + [CalculateTailExtensionPosition(tiles[|tiles| - 1], d, step, 0)]
    ensures Horizontal(d) ==> Lengthened(tiles, d, step, 1)[|tiles|] == Stepped(tiles[|tiles| - 1], Opposite(d), step)
    ensures !Horizontal(d) ==> Lengthened(tiles, d, step, 1)[|tiles|] == Stepped(tiles[|tiles| - 1], d, step)
  {
  }

  /** As written, a vertical extension lands on the side the head moves
      toward: when the last two tiles are one step apart in the direction of
      travel (a straight tail moving UP or DOWN), the new tile coincides
      with the second-to-last one, so the snake holds a cell twice. */
  lemma VerticalGrowthRepeatsTile(tiles: seq<Cell>, d: Direction, step: int)
    requires !Horizontal(d) && |tiles| >= 2
    requires tiles[|tiles| - 2] == Stepped(tiles[|tiles| - 1], d, step)
    ensures Lengthened(tiles, d, step, 1)[|tiles|] == tiles[|tiles| - 2]
    ensures !Distinct(Lengthened(tiles, d, step, 1))
  {
  }

  // ---------------------------------------------------------------------
  // SnakeTail and Snake
  // ---------------------------------------------------------------------

  /** The snake's tail: the ordered list of tile positions. */
  class SnakeTail {
    var tiles: seq<Cell>

    constructor ()
      ensures tiles == []
    {
      tiles := [];
    }

    method AddTile(position: Cell)
      modifies this
      ensures tiles == old(tiles) + [position]
    {
      tiles := tiles + [position];
    }

    /** A fresh list of the tile positions, in tail order. */
    method GetPositions() returns (positions: seq<Cell>)
      ensures positions == tiles
    {
      positions := [];
      for i := 0 to |tiles|
        invariant positions == tiles[..i]
      {
        positions := positions + [tiles[i]];
      }
    }
  }

  class Snake {
    /** The tile edge length (the size is square), also the step of a move. */
    const step: int
    var head: Cell
    const tail: SnakeTail

    /** Every cell the snake holds, head first, then the tail in order. */
    ghost function Cells(): seq<Cell>
      reads this, tail
    {
      [head] + tail.tiles
    }

    /** A snake of three tiles: the head at `position` and two tail tiles
        one and two tile widths to its left. */
    constructor (position: Cell, size: Size)
      requires size.width == size.height
      ensures step == size.width && fresh(tail)
      ensures head == position
      ensures tail.tiles == [Cell(position.x - size.width, position.y), Cell(position.x - 2 * size.width, position.y)]
    {
      step := size.width;
      head := position;
      var t := new SnakeTail();
      t.AddTile(Cell(position.x - size.width, position.y));
      t.AddTile(Cell(position.x - 2 * size.width, position.y));
      tail := t;
    }

    /** Head first, then the tail tiles in order. */
    method GetAllPositions() returns (positions: seq<Cell>)
      ensures positions == Cells()
      ensures |positions| == |tail.tiles| + 1 && positions[0] == head
    {
      var rest := tail.GetPositions();
      positions := [head] + rest;
    }

    /** True iff the probe is missing, has a missing coordinate, or equals
        the head or some tail tile. */
    method OccupiesPosition(position: Option<Probe>) returns (occupied: bool)
      ensures occupied <==> match position
                           case None => true
                           case Some(p) => p.px.None? || p.py.None? || Cell(p.px.value, p.py.value) in Cells()
    {
      if position.None? || position.value.px.None? || position.value.py.None? {
        return true;
      }
      var c := Cell(position.value.px.value, position.value.py.value);
      if head == c {
        return true;
      }
      var i := 0;
      while i < |tail.tiles|
        invariant 0 <= i <= |tail.tiles|
        invariant forall k :: 0 <= k < i ==> tail.tiles[k] != c
      {
        if tail.tiles[i] == c {
          return true;
        }
        i := i + 1;
      }
      assert c !in Cells();
      return false;
    }

    /** Steps the head one tile in `d` on a `frameWidth` x `frameHeight`
        frame. Fails, changing nothing, when the new head is any cell the
        snake holds now, the last tail tile included although it would move
        away; otherwise the head moves and the tail follows. */
    method Move(d: Direction, frameWidth: int, frameHeight: int) returns (moved: bool)
      requires WrapDefined(d, frameWidth, frameHeight)
      modifies this, tail
      ensures moved <==> CalculateNewPosition(old(head), d, step, frameWidth, frameHeight) !in old(Cells())
      ensures moved ==> head == CalculateNewPosition(old(head), d, step, frameWidth, frameHeight)
                        && tail.tiles == FollowLeader(old(head), old(tail.tiles))
      ensures !moved ==> head == old(head) && tail.tiles == old(tail.tiles)
    {
      var newHead := CalculateNewPosition(head, d, step, frameWidth, frameHeight);
      var hit := OccupiesPosition(Some(Probe(Some(newHead.x), Some(newHead.y))));
      if hit {
        return false;
      }
      var oldHead := head;
      head := newHead;
      MoveTail(oldHead);
      return true;
    }

    /** Each tail tile takes the position its predecessor held; the first
        takes `oldHead`. */
    method MoveTail(oldHead: Cell)
      modifies tail
      ensures tail.tiles == FollowLeader(oldHead, old(tail.tiles))
    {
      ghost var before := tail.tiles;
      var previous := oldHead;
      var i := 0;
      while i < |tail.tiles|
        invariant |tail.tiles| == |before|
        invariant 0 <= i <= |before|
        invariant forall k :: 0 <= k < i ==> tail.tiles[k] == FollowLeader(oldHead, before)[k]
        invariant forall k :: i <= k < |before| ==> tail.tiles[k] == before[k]
        invariant previous == if i == 0 then oldHead else before[i - 1]
      {
        var current := tail.tiles[i];
        tail.tiles := tail.tiles[i := previous];
        previous := current;
        i := i + 1;
      }
    }

    /** Appends `segments` tiles behind the last one; no-op for
        `segments <= 0` or an empty tail. */
    method LengthenTail(segments: int, d: Direction)
      modifies tail
      ensures tail.tiles == Lengthened(old(tail.tiles), d, step, segments)
    {
      if segments <= 0 {
        return;
      }
      ghost var before := tail.tiles;
      for i := 0 to segments
        invariant tail.tiles == Lengthened(before, d, step, i)
      {
        if tail.tiles != [] {
          var last := tail.tiles[|tail.tiles| - 1];
          var position := CalculateTailExtensionPosition(last, d, step, i);
          tail.AddTile(position);
        }
      }
    }
  }

  /** `Snake(position, size)` with the source's defaults for missing
      arguments; None where the source raises ValueError for a size that
      is not square. */
  method NewSnake(position: Option<Cell>, size: Option<Size>) returns (r: Option<Snake>)
    ensures var s := if size.Some? then size.value else DefaultSize;
            var p := if position.Some? then position.value else DefaultPosition;
            && (r.Some? <==> s.width == s.height)
            && (r.Some? ==> fresh(r.value) && fresh(r.value.tail) && r.value.step == s.width
                            && r.value.Cells() == [p, Cell(p.x - s.width, p.y), Cell(p.x - 2 * s.width, p.y)])
  {
    var s := if size.Some? then size.value else DefaultSize;
    var p := if position.Some? then position.value else DefaultPosition;
    if s.width != s.height {
      return None;
    }
    var snake := new Snake(p, s);
    return Some(snake);
  }
}
