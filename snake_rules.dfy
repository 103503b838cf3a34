/**
 The rules of the snake game kept by SnakeMain: the state of one game as a value,
 and the transitions a timer tick, a key press, a stop, a start and a restart make
 on it. Coordinates are pixels, as in the game: every square is RECT_SIZE wide and
 sits at a multiple of RECT_SIZE inside a WINDOW_W x WINDOW_H window.
 */
module SnakeRules {

  const RECT_SIZE: int := 30
  const WINDOW_W: int := 600
  const WINDOW_H: int := 450

  datatype Direction = UP | DOWN | LEFT | RIGHT

  /** The keys the handler tells apart: S turns up, X down, Z left, C right. */
  datatype Key = S | X | Z | C | Other

  /** The top-left corner of one square (its translateX and translateY). */
  datatype Cell = Cell(x: int, y: int)

  /** Where a fresh square sits: a new Rectangle is not translated. */
  const Origin: Cell := Cell(0, 0)

  /** The whole game: the heading, the key gate, the run flag, the segments (head first) and the food. */
  datatype Game = Game(direction: Direction, moved: bool, running: bool, snake: seq<Cell>, food: Cell)

  function Opposite(d: Direction): Direction {
    match d
    case UP => DOWN
    case DOWN => UP
    case LEFT => RIGHT
    case RIGHT => LEFT
  }

  // ---------------------------------------------------------------------------
  // Geometry

  /** The cell one square away from `c` in direction `d` (y grows downwards). */
  function Advance(c: Cell, d: Direction): (r: Cell)
    ensures r != c
    ensures d == UP || d == DOWN ==> r.x == c.x
    ensures d == LEFT || d == RIGHT ==> r.y == c.y
    ensures (d == UP <==> r.y < c.y) && (d == DOWN <==> r.y > c.y)
    ensures (d == LEFT <==> r.x < c.x) && (d == RIGHT <==> r.x > c.x)
  {
    match d
    case UP => Cell(c.x, c.y - RECT_SIZE)
    case DOWN => Cell(c.x, c.y + RECT_SIZE)
    case LEFT => Cell(c.x - RECT_SIZE, c.y)
    case RIGHT => Cell(c.x + RECT_SIZE, c.y)
  }

  predicate Aligned(c: Cell) {
    c.x % RECT_SIZE == 0 && c.y % RECT_SIZE == 0
  }

  /** The wall test of the tick: the square's corner lies outside [0, WINDOW_W) x [0, WINDOW_H). */
  predicate HitsWall(c: Cell): (r: bool)
    ensures !r <==> 0 <= c.x < WINDOW_W && 0 <= c.y < WINDOW_H
    ensures !r && Aligned(c) ==> c.x + RECT_SIZE <= WINDOW_W && c.y + RECT_SIZE <= WINDOW_H
  {
    c.x < 0 || c.x >= WINDOW_W || c.y < 0 || c.y >= WINDOW_H
  }

  /** The self test of the tick: the head (index 0) shares its corner with another segment. */
  predicate HitsBody(s: seq<Cell>): (r: bool)
    ensures r <==> exists i :: 1 <= i < |s| && s[i] == s[0]
  {
    |s| > 0 && s[0] in s[1..]
  }

  lemma AdvanceIsOneSquare(c: Cell, d: Direction)
    ensures var n := Advance(c, d);
      && (d == UP || d == DOWN ==> n.x == c.x && (n.y - c.y == RECT_SIZE || c.y - n.y == RECT_SIZE))
      && (d == LEFT || d == RIGHT ==> n.y == c.y && (n.x - c.x == RECT_SIZE || c.x - n.x == RECT_SIZE))
      && (d == UP <==> n.y < c.y) && (d == DOWN <==> n.y > c.y)
      && (d == LEFT <==> n.x < c.x) && (d == RIGHT <==> n.x > c.x)
      && Advance(n, Opposite(d)) == c
      && (Aligned(c) ==> Aligned(n))
  {
  }

  // ---------------------------------------------------------------------------
  // Food placement

  /** `(int)(Math.random() * (W - RECT_SIZE))` is a draw in [0, W - RECT_SIZE); the food
      coordinate is that draw rounded down to a multiple of RECT_SIZE. */
  function Align(draw: int): (r: int)
    requires 0 <= draw
    ensures 0 <= r && r % RECT_SIZE == 0
    ensures r <= draw < r + RECT_SIZE
  {
    draw / RECT_SIZE * RECT_SIZE
  }

  predicate ValidDraws(rx: int, ry: int) {
    0 <= rx < WINDOW_W - RECT_SIZE && 0 <= ry < WINDOW_H - RECT_SIZE
  }

  function FoodAt(rx: int, ry: int): (r: Cell)
    requires ValidDraws(rx, ry)
    ensures Aligned(r) && !HitsWall(r)
    ensures r.x <= rx < r.x + RECT_SIZE && r.y <= ry < r.y + RECT_SIZE
  {
    Cell(Align(rx), Align(ry))
  }

  /** The cells food can be placed on: aligned, with x at most WINDOW_W - 2 * RECT_SIZE
      and y at most WINDOW_H - 2 * RECT_SIZE. */
  predicate FoodSpot(c: Cell) {
    Aligned(c) && 0 <= c.x <= WINDOW_W - 2 * RECT_SIZE && 0 <= c.y <= WINDOW_H - 2 * RECT_SIZE
  }

  /** Every pair of draws places food on a food spot, which is inside the walls and never
      in the last column or the last row of the window. */
  lemma FoodLandsOnFoodSpot(rx: int, ry: int)
    requires ValidDraws(rx, ry)
    ensures FoodSpot(FoodAt(rx, ry))
    ensures !HitsWall(FoodAt(rx, ry))
    ensures FoodAt(rx, ry).x != WINDOW_W - RECT_SIZE && FoodAt(rx, ry).y != WINDOW_H - RECT_SIZE
  {
    var f := FoodAt(rx, ry);
    assert f.x < WINDOW_W - RECT_SIZE && f.x % RECT_SIZE == 0;
  }

  /** Conversely, every food spot is the outcome of some draws: the spot's own coordinates. */
  lemma EveryFoodSpotReachable(c: Cell)
    requires FoodSpot(c)
    ensures ValidDraws(c.x, c.y) && FoodAt(c.x, c.y) == c
  {
    assert c.x / RECT_SIZE * RECT_SIZE == c.x;
    assert c.y / RECT_SIZE * RECT_SIZE == c.y;
  }

  // ---------------------------------------------------------------------------
  // Stop, start, restart

  /** stopGame: not running, no segments. */
  function Stop(g: Game): (r: Game)
    ensures !r.running && r.snake == []
    ensures r.(running := g.running, snake := g.snake) == g
  {
    g.(running := false, snake := [])
  }

  /** startGame: heading right, one more segment at the origin, running. */
  function Start(g: Game): (r: Game)
    ensures r.running && r.direction == RIGHT
    ensures |r.snake| == |g.snake| + 1 && r.snake[..|g.snake|] == g.snake && r.snake[|g.snake|] == Origin
    ensures r.moved == g.moved && r.food == g.food
  {
    g.(direction := RIGHT, snake := g.snake + [Origin], running := true)
  }

  /** restartGame: whatever the game was, it is now one segment at the origin heading right,
      running; the gate and the food are left as they were. */
  function Restart(g: Game): (r: Game)
    ensures r == Game(RIGHT, g.moved, true, [Origin], g.food)
  {
    Start(Stop(g))
  }

  // ---------------------------------------------------------------------------
  // The tick

  /** The segments after the move: the new head in front, the old last segment dropped. */
  function Slide(s: seq<Cell>, head: Cell): (r: seq<Cell>)
    requires s != []
    ensures |r| == |s| && r[0] == head
    ensures forall i :: 1 <= i < |r| ==> r[i] == s[i - 1]
  {
    [head] + s[..|s| - 1]
  }

  /** Where the head goes this tick. */
  function NextHead(g: Game): Cell
    requires g.snake != []
  {
    Advance(g.snake[0], g.direction)
  }

  /** The corner the moved segment had before the move (xTail, yTail): the last segment. */
  function LastCell(g: Game): (r: Cell)
    requires g.snake != []
    ensures g.snake == g.snake[..|g.snake| - 1] + [r]
    ensures |g.snake| == 1 ==> r == g.snake[0]
  {
    g.snake[|g.snake| - 1]
  }

  /** One timer tick. A collision restarts the game but does not end the tick: the wall
      test and the food test still look at the moved segment, so a restart can happen
      twice, and a self collision on the food appends a segment to the restarted snake. */
  function Step(g: Game, rx: int, ry: int): (r: Game)
    requires g.running ==> g.snake != []
    requires ValidDraws(rx, ry)
    ensures !g.running ==> r == g
    ensures g.running ==> r.running && r.snake != [] && r.moved
    ensures g.running && r.food != g.food ==> r.food == FoodAt(rx, ry)
  {
    if !g.running then g
    else
      var head := NextHead(g);
      var g1 := g.(snake := Slide(g.snake, head), moved := true);
      var g2 := if HitsBody(g1.snake) then Restart(g1) else g1;
      var g3 := if HitsWall(head) then Restart(g2) else g2;
      if head == g3.food then g3.(food := FoodAt(rx, ry), snake := g3.snake + [LastCell(g)])
      else g3
  }

  // ---------------------------------------------------------------------------
  // The key handler

  /** The heading a key asks for, if any. */
  function Wanted(k: Key): (r: Direction)
    requires k != Other
    ensures (r == UP <==> k == S) && (r == DOWN <==> k == X)
    ensures (r == LEFT <==> k == Z) && (r == RIGHT <==> k == C)
  {
    match k
    case S => UP
    case X => DOWN
    case Z => LEFT
    case C => RIGHT
  }

  /** The heading after key `k` is handled while heading `d`: the asked-for heading unless
      it is the reverse of `d`. */
  function Turn(d: Direction, k: Key): (r: Direction)
    ensures r != Opposite(d)
    ensures k == Other ==> r == d
    ensures k != Other ==> (r == Wanted(k) <==> Wanted(k) != Opposite(d))
    ensures k != Other && r != Wanted(k) ==> r == d
  {
    match k
    case S => if d != DOWN then UP else d
    case X => if d != UP then DOWN else d
    case Z => if d != RIGHT then LEFT else d
    case C => if d != LEFT then RIGHT else d
    case Other => d
  }

  /** One key press: ignored unless a tick has happened since the last handled key;
      otherwise the heading may turn and the gate closes, whatever the key. */
  function Press(g: Game, k: Key): (r: Game)
    ensures !r.moved
    ensures r.direction != Opposite(g.direction)
    ensures r.(direction := g.direction, moved := g.moved) == g
    ensures !g.moved ==> r == g
    ensures g.moved ==> r.direction == Turn(g.direction, k)
  {
    if !g.moved then g
    else g.(direction := Turn(g.direction, k), moved := false)
  }

  /** Several key presses, in order, with no tick between them. */
  function PressAll(g: Game, keys: seq<Key>): Game
    decreases |keys|
  {
    if keys == [] then g else PressAll(Press(g, keys[0]), keys[1..])
  }

  // ---------------------------------------------------------------------------
  // Invariant of every game state

  predicate WellFormed(g: Game) {
    && g.running == (g.snake != [])
    && FoodSpot(g.food)
    && forall i :: 0 <= i < |g.snake| ==> Aligned(g.snake[i]) && !HitsWall(g.snake[i])
  }

  predicate Distinct(s: seq<Cell>) {
    forall i, j :: 0 <= i < j < |s| ==> s[i] != s[j]
  }
}
