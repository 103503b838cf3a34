/**
 The game object of SnakeMain: the fields the timer tick, the key handler, stopGame and
 startGame update in place. Each method is proved to move the fields exactly as the
 matching rule of SnakeRules moves a Game value.
 */
module SnakeMain {
  import opened SnakeRules
  import SnakeProperties

  /** The loop of the tick that looks for a segment, other than the head at index 0, on the
      head's cell; it stops at the first one. */
  method CollidesWithBody(snake: seq<Cell>) returns (hit: bool)
    ensures hit <==> HitsBody(snake)
  {
    var i := 0;
    while i < |snake|
      invariant 0 <= i <= |snake|
      invariant forall j :: 1 <= j < i ==> snake[j] != snake[0]
    {
      if i != 0 && snake[i] == snake[0] {
        assert snake[1..][i - 1] == snake[0];
        return true;
      }
      i := i + 1;
    }
    if snake != [] {
      assert forall c :: c in snake[1..] ==> c != snake[0];
    }
    return false;
  }

  class SnakeGame {
    var direction: Direction
    var moved: bool
    var running: bool
    /** The segments, head first. */
    var snake: seq<Cell>
    var food: Cell

    function Model(): Game
      reads this
    {
      Game(direction, moved, running, snake, food)
    }

    predicate Valid()
      reads this
    {
      WellFormed(Model())
    }

    /** The state once the content is built and before the game starts: heading right, gate
        closed, not running, no segments, food placed by the two draws. */
    constructor (rx: int, ry: int)
      requires ValidDraws(rx, ry)
      ensures Valid()
      ensures Model() == Game(RIGHT, false, false, [], FoodAt(rx, ry))
    {
      direction := RIGHT;
      moved := false;
      running := false;
      snake := [];
      food := FoodAt(rx, ry);
      new;
      FoodLandsOnFoodSpot(rx, ry);
    }

    method StopGame()
      modifies this
      ensures Model() == Stop(old(Model()))
      ensures old(Valid()) ==> Valid()
    {
      running := false;
      snake := [];
    }

    method StartGame()
      modifies this
      ensures Model() == Start(old(Model()))
      ensures old(Valid()) ==> Valid()
    {
      direction := RIGHT;
      snake := snake + [Origin];
      running := true;
    }

    method RestartGame()
      modifies this
      ensures Model() == Restart(old(Model()))
      ensures old(FoodSpot(food)) ==> Valid()
    {
      StopGame();
      StartGame();
    }

    /** One timer tick; (rx, ry) are the two draws used if the food is eaten. */
    method Tick(rx: int, ry: int)
      requires Valid() && ValidDraws(rx, ry)
      modifies this
      ensures Valid()
      ensures Model() == Step(old(Model()), rx, ry)
    {
      if !running {
        return;
      }
      ghost var before := Model();
      var toRemove := |snake| > 1;
      var tail: Cell;
      if toRemove {
        tail := snake[|snake| - 1];
        snake := snake[..|snake| - 1];
      } else {
        tail := snake[0];
      }
      var xTail, yTail := tail.x, tail.y;
      tail := Advance(snake[0], direction);
      moved := true;
      if toRemove {
        snake := [tail] + snake;
      } else {
        snake := snake[0 := tail];
      }
      assert snake == Slide(before.snake, NextHead(before));

      var hit := CollidesWithBody(snake);
      if hit {
        RestartGame();
      }
      if tail.x < 0 || tail.x >= WINDOW_W || tail.y < 0 || tail.y >= WINDOW_H {
        RestartGame();
      }
      if tail.x == food.x && tail.y == food.y {
        food := FoodAt(rx, ry);
        snake := snake + [Cell(xTail, yTail)];
      }
      SnakeProperties.StepKeepsWellFormed(before, rx, ry);
    }

    /** The key handler. */
    method KeyPressed(k: Key)
      modifies this
      ensures Model() == Press(old(Model()), k)
      ensures old(Valid()) ==> Valid()
    {
      if !moved {
        return;
      }
      match k {
        case S =>
          if direction != DOWN {
            direction := UP;
          }
        case X =>
          if direction != UP {
            direction := DOWN;
          }
        case Z =>
          if direction != RIGHT {
            direction := LEFT;
          }
        case C =>
          if direction != LEFT {
            direction := RIGHT;
          }
        case Other =>
      }
      moved := false;
    }
  }

  /** The application's start: the content is built, then the game is started. */
  method Launch(rx: int, ry: int) returns (game: SnakeGame)
    requires ValidDraws(rx, ry)
    ensures fresh(game) && game.Valid()
    ensures game.Model() == Game(RIGHT, false, true, [Origin], FoodAt(rx, ry))
  {
    game := new SnakeGame(rx, ry);
    game.StartGame();
  }
}
