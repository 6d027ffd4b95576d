/** The snake simulation engine: a square grid, a snake stored head first, one
    food cell, a heading, a score and the pause and game-over flags. The pure
    rules (heading change, next head, collision test, scoring, speed) are
    functions; the store that the rules update is the class GameStore. */
module Game {
  import opened Settings

  /** The side of the square grid. The store never changes it. */
  const GRID_SIZE: nat := 20

  datatype Position = Position(x: int, y: int)
  datatype Direction = Up | Down | Left | Right

  /** One cell of the rendering grid: 0 empty, 1 snake, 2 food. */
  datatype Cell = EmptyCell | SnakeCell | FoodCell

  predicate InBounds(p: Position) {
    0 <= p.x < GRID_SIZE && 0 <= p.y < GRID_SIZE
  }

  /** Two cells that share a side. */
  predicate Adjacent(p: Position, q: Position) {
    (p.x == q.x && (p.y == q.y + 1 || p.y + 1 == q.y)) ||
    (p.y == q.y && (p.x == q.x + 1 || p.x + 1 == q.x))
  }

  function Opposite(d: Direction): Direction {
    match d
    case Up => Down
    case Down => Up
    case Left => Right
    case Right => Left
  }

  /** The heading after a request to turn to `requested`: a reversal is
      ignored, every other request is obeyed. */
  function NewHeading(current: Direction, requested: Direction): (h: Direction)
    ensures h == requested <==> requested != Opposite(current)
    ensures h != requested ==> h == current
    ensures h != Opposite(current)
  {
    if requested == Opposite(current) then current else requested
  }

  /** The cell one step from `head` in direction `d`; y grows downwards. */
  function NextHead(head: Position, d: Direction): (h: Position)
    ensures Adjacent(head, h)
  {
    match d
    case Up => Position(head.x, head.y - 1)
    case Down => Position(head.x, head.y + 1)
    case Left => Position(head.x - 1, head.y)
    case Right => Position(head.x + 1, head.y)
  }

  /** Stepping one way and then the opposite way returns to the start. */
  lemma NextHeadOpposite(p: Position, d: Direction)
    ensures NextHead(NextHead(p, d), Opposite(d)) == p
    ensures Opposite(Opposite(d)) == d
  {
  }

  /** The segments that the self-collision test looks at: all but the first
      and the last (an empty sequence for a snake of length 2 or less). */
  function Interior(snake: seq<Position>): seq<Position> {
    if |snake| < 2 then [] else snake[1..|snake| - 1]
  }

  /** A move onto `p` ends the game when `p` is outside the grid or lies on a
      segment other than the head and the tail. */
  function CheckCollision(snake: seq<Position>, p: Position): (collides: bool)
    ensures collides <==> !InBounds(p) || exists i :: 1 <= i < |snake| - 1 && snake[i] == p
  {
    !InBounds(p) || p in Interior(snake)
  }

  /** Points credited for one food: the floor of 10 times the multiplier,
      exact because the multiplier is kept in tenths. */
  function PointsPerFood(m: Multiplier): (points: nat)
    ensures points == m
  {
    (10 * m) / 10
  }

  /** The engine's own tick interval: the floor of 150 ms divided by the
      multiplier. */
  function GameSpeed(m: Multiplier): (ms: nat)
    ensures ms * m <= 1500 < (ms + 1) * m
  {
    1500 / m
  }

  /** Points per food are 10, 15 and 20; the engine's interval is 150, 100
      and 75 ms, which agrees with the settings table only on the easy tier. */
  lemma ScoringAndSpeedByTier(d: Difficulty)
    ensures PointsPerFood(DifficultyMultiplier(d)) == 10 + 5 * Rank(d)
    ensures GameSpeed(DifficultyMultiplier(d)) == match d case Easy => 150 case Medium => 100 case Hard => 75
    ensures GameSpeed(DifficultyMultiplier(d)) == TickInterval(d) <==> d == Easy
  {
  }

  ghost predicate AllInBounds(s: seq<Position>) {
    forall i :: 0 <= i < |s| ==> InBounds(s[i])
  }

  ghost predicate Distinct(s: seq<Position>) {
    forall i, j :: 0 <= i < j < |s| ==> s[i] != s[j]
  }

  /** The state invariant of a game: a non-empty snake of distinct in-grid
      segments, and food on a free in-grid cell. */
  ghost predicate WellPlaced(snake: seq<Position>, food: Position) {
    && |snake| >= 1
    && AllInBounds(snake)
    && Distinct(snake)
    && InBounds(food)
    && food !in snake
  }

  /** A move that does not collide keeps the snake inside the grid and free
      of overlaps, whether it grows onto the food or shifts forward. */
  lemma MoveKeepsSnakeWellPlaced(snake: seq<Position>, food: Position, d: Direction)
    requires WellPlaced(snake, food)
    requires !CheckCollision(snake, NextHead(snake[0], d))
    ensures var h := NextHead(snake[0], d);
      h == food ==> AllInBounds([h] + snake) && Distinct([h] + snake)
    ensures var h := NextHead(snake[0], d);
      h != food ==> WellPlaced([h] + snake[..|snake| - 1], food)
  {
  }

  /** The cells (x, y) of row `y` with 0 <= x < width. */
  ghost function Row(width: nat, y: int): set<Position> {
    if width == 0 then {} else Row(width - 1, y) + {Position(width - 1, y)}
  }

  /** Every cell of a `width` by `height` rectangle at the origin, row by row. */
  ghost function Cells(width: nat, height: nat): set<Position> {
    if height == 0 then {} else Cells(width, height - 1) + Row(width, height - 1)
  }

  lemma {:induction false} RowMembers(width: nat, y: int, p: Position)
    ensures p in Row(width, y) <==> 0 <= p.x < width && p.y == y
  {
    if width > 0 {
      RowMembers(width - 1, y, p);
    }
  }

  lemma {:induction false} CellsMembers(width: nat, height: nat, p: Position)
    ensures p in Cells(width, height) <==> 0 <= p.x < width && 0 <= p.y < height
  {
    if height > 0 {
      CellsMembers(width, height - 1, p);
      RowMembers(width, height - 1, p);
    }
  }

  lemma {:induction false} RowCount(width: nat, y: int)
    ensures |Row(width, y)| == width
  {
    if width > 0 {
      RowCount(width - 1, y);
      RowMembers(width - 1, y, Position(width - 1, y));
    }
  }

  /** Row `h` lies below every row of the first `h` rows. */
  lemma RowMissesCells(width: nat, h: nat)
    ensures Cells(width, h) * Row(width, h) == {}
  {
    forall p | p in Row(width, h)
      ensures p !in Cells(width, h)
    {
      RowMembers(width, h, p);
      CellsMembers(width, h, p);
    }
  }

  lemma {:induction false} CellsCount(width: nat, height: nat)
    ensures |Cells(width, height)| == width * height
  {
    if height > 0 {
      CellsCount(width, height - 1);
      RowCount(width, height - 1);
      RowMissesCells(width, height - 1);
      assert width * height == width * (height - 1) + width;
    }
  }

  lemma {:induction false} DistinctCount(s: seq<Position>)
    requires Distinct(s)
    ensures |set p | p in s| == |s|
  {
    if s != [] {
      DistinctCount(s[1..]);
      assert (set p | p in s) == {s[0]} + (set p | p in s[1..]);
      assert s[0] !in s[1..];
    } else {
      assert (set p | p in s) == {};
    }
  }

  /** A snake of distinct in-grid segments that is shorter than the number of
      cells leaves at least one cell free. */
  lemma FreeCellExists(s: seq<Position>)
    requires AllInBounds(s) && Distinct(s)
    requires |s| < GRID_SIZE * GRID_SIZE
    ensures exists p :: InBounds(p) && p !in s
  {
    if forall p :: InBounds(p) ==> p in s {
      var occupied := set p | p in s;
      forall p | p in Cells(GRID_SIZE, GRID_SIZE)
        ensures p in occupied
      {
        CellsMembers(GRID_SIZE, GRID_SIZE, p);
      }
      CellsCount(GRID_SIZE, GRID_SIZE);
      DistinctCount(s);
      SubsetCount(Cells(GRID_SIZE, GRID_SIZE), occupied);
      assert false;
    }
  }

  lemma SubsetCount<T>(a: set<T>, b: set<T>)
    requires a <= b
    ensures |a| <= |b|
  {
    assert b == a + (b - a);
  }

  /** The game store. Only its own actions change its fields. */
  class GameStore {
    var snake: seq<Position>
    var food: Position
    var direction: Direction
    var score: nat
    var isGameOver: bool
    var isPaused: bool

    ghost predicate Valid()
      reads this
    {
      WellPlaced(snake, food)
    }

    /** The initial state: a one-segment snake at (10, 10) heading right,
        food at (15, 10), no score, neither flag set. */
    constructor ()
      ensures snake == [Position(10, 10)] && food == Position(15, 10)
      ensures direction == Right && score == 0 && !isGameOver && !isPaused
      ensures Valid()
    {
      snake := [Position(10, 10)];
      food := Position(15, 10);
      direction := Right;
      score := 0;
      isGameOver := false;
      isPaused := false;
    }

    /** The rendering grid, indexed [y, x]: food is 2, any other snake cell
        inside the grid is 1, everything else is 0. */
    method GridState() returns (grid: array2<Cell>)
      requires InBounds(food)
      ensures fresh(grid)
      ensures grid.Length0 == GRID_SIZE && grid.Length1 == GRID_SIZE
      ensures forall y, x :: 0 <= y < GRID_SIZE && 0 <= x < GRID_SIZE ==>
        grid[y, x] == if Position(x, y) == food then FoodCell
                      else if Position(x, y) in snake then SnakeCell
                      else EmptyCell
    {
      grid := new Cell[GRID_SIZE, GRID_SIZE]((_, _) => EmptyCell);
      var i := 0;
      while i < |snake|
        invariant 0 <= i <= |snake|
        invariant forall y, x :: 0 <= y < GRID_SIZE && 0 <= x < GRID_SIZE ==>
          grid[y, x] == if Position(x, y) in snake[..i] then SnakeCell else EmptyCell
      {
        var pos := snake[i];
        if InBounds(pos) {
          grid[pos.y, pos.x] := SnakeCell;
        }
        assert snake[..i + 1] == snake[..i] + [pos];
        i := i + 1;
      }
      assert snake[..i] == snake;
      grid[food.y, food.x] := FoodCell;
    }

    /** Turns the snake unless the request is the reverse of its heading. */
    method SetDirection(newDirection: Direction)
      modifies this`direction
      ensures direction == NewHeading(old(direction), newDirection)
    {
      if newDirection == Opposite(direction) {
        return;
      }
      direction := newDirection;
    }

    /** The cell the head would move to on the next step. */
    ghost function CandidateHead(): Position
      reads this
      requires |snake| >= 1
    {
      NextHead(snake[0], direction)
    }

    /** Advances the game one tick and reports whether food was eaten. The
        food placement after eating needs a free cell; the source would
        search forever when the grown snake fills the whole grid. */
    method MoveSnake(multiplier: Multiplier) returns (ate: bool)
      requires Valid()
      requires !isPaused && !isGameOver && CandidateHead() == food ==> |snake| + 1 < GRID_SIZE * GRID_SIZE
      modifies this`snake, this`food, this`score, this`isGameOver
      ensures Valid()
      ensures old(isPaused || isGameOver) ==>
        !ate && snake == old(snake) && food == old(food) && score == old(score) && isGameOver == old(isGameOver)
      ensures var h := NextHead(old(snake)[0], direction);
        !old(isPaused || isGameOver) && CheckCollision(old(snake), h) ==>
          !ate && isGameOver && snake == old(snake) && food == old(food) && score == old(score)
      ensures var h := NextHead(old(snake)[0], direction);
        !old(isPaused || isGameOver) && !CheckCollision(old(snake), h) && h == old(food) ==>
          ate && !isGameOver && snake == [h] + old(snake) && score == old(score) + PointsPerFood(multiplier)
      ensures var h := NextHead(old(snake)[0], direction);
        !old(isPaused || isGameOver) && !CheckCollision(old(snake), h) && h != old(food) ==>
          !ate && !isGameOver && snake == [h] + old(snake)[..|old(snake)| - 1] && food == old(food) && score == old(score)
    {
      if isPaused || isGameOver {
        return false;
      }
      var head := NextHead(snake[0], direction);
      if CheckCollision(snake, head) {
        isGameOver := true;
        return false;
      }
      MoveKeepsSnakeWellPlaced(snake, food, direction);
      snake := [head] + snake;
      if head == food {
        score := score + PointsPerFood(multiplier);
        FreeCellExists(snake);
        GenerateFood();
        return true;
      } else {
        snake := snake[..|snake| - 1];
        return false;
      }
    }

    /** Places the food on some free cell of the grid. The source samples
        cells at random until one is free; any free cell may be chosen. */
    method GenerateFood()
      requires exists p :: InBounds(p) && p !in snake
      modifies this`food
      ensures InBounds(food) && food !in snake
    {
      var p :| InBounds(p) && p !in snake;
      food := p;
    }

    method TogglePause()
      modifies this`isPaused
      ensures isPaused == !old(isPaused)
    {
      isPaused := !isPaused;
    }

    /** Restarts the game from the initial snake and places fresh food. */
    method ResetGame()
      modifies this
      ensures snake == [Position(10, 10)] && direction == Right && score == 0
      ensures !isGameOver && !isPaused
      ensures Valid()
    {
      snake := [Position(10, 10)];
      direction := Right;
      score := 0;
      isGameOver := false;
      isPaused := false;
      assert InBounds(Position(0, 0)) && Position(0, 0) !in snake;
      GenerateFood();
    }
  }

  /** From the initial state, five ticks to the right reach the food at
      (15, 10): the first four shift the snake, the fifth grows it and scores. */
  method EatingScenario()
  {
    var g := new GameStore();
    var ate := g.MoveSnake(10);
    assert !ate && g.snake == [Position(11, 10)];
    ate := g.MoveSnake(10);
    ate := g.MoveSnake(10);
    ate := g.MoveSnake(10);
    assert !ate && g.snake == [Position(14, 10)] && g.score == 0;
    ate := g.MoveSnake(10);
    assert ate && g.snake == [Position(15, 10), Position(14, 10)] && g.score == 10;
    assert g.food != Position(15, 10) && g.food != Position(14, 10);
  }
}
