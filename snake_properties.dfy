/**
 What the rules of SnakeRules guarantee: the tick on a stopped game, the move of one square,
 the two collisions and the restart they cause, growth on food, the invariant every state
 keeps, and the one-key-per-tick gate.
 */
module SnakeProperties {
  import opened SnakeRules

  /** A tick while the game is not running changes nothing. */
  lemma StoppedTickChangesNothing(g: Game, rx: int, ry: int)
    requires !g.running && ValidDraws(rx, ry)
    ensures Step(g, rx, ry) == g
  {
  }

  /** The head runs into its own body exactly when the cell it moves to holds a segment
      other than the last one, which has just moved away. */
  lemma {:induction false} SelfCollisionMeans(s: seq<Cell>, head: Cell)
    requires s != []
    ensures HitsBody(Slide(s, head)) <==> head in s[..|s| - 1]
  {
    assert Slide(s, head)[1..] == s[..|s| - 1];
  }

  /** In a well-formed running game a self collision never coincides with a wall collision,
      since every segment is inside the walls. */
  lemma {:induction false} NoDoubleRestart(g: Game)
    requires WellFormed(g) && g.running
    requires HitsBody(Slide(g.snake, NextHead(g)))
    ensures !HitsWall(NextHead(g))
  {
    var head := NextHead(g);
    SelfCollisionMeans(g.snake, head);
    var i :| 0 <= i < |g.snake| - 1 && g.snake[..|g.snake| - 1][i] == head;
    assert g.snake[i] == head;
  }

  /** A tick that hits neither the body nor a wall nor the food: the head moves one square in
      the current heading, every other segment takes the place of the one before it, the old
      last segment is dropped, the length is kept, and the gate opens. */
  lemma QuietTick(g: Game, rx: int, ry: int)
    requires WellFormed(g) && g.running && ValidDraws(rx, ry)
    requires !HitsBody(Slide(g.snake, NextHead(g))) && !HitsWall(NextHead(g))
    requires NextHead(g) != g.food
    ensures var r := Step(g, rx, ry);
      && |r.snake| == |g.snake|
      && r.snake[0] == Advance(g.snake[0], g.direction)
      && r.snake[1..] == g.snake[..|g.snake| - 1]
      && r.food == g.food && r.direction == g.direction && r.running && r.moved
  {
    assert Step(g, rx, ry).snake == Slide(g.snake, NextHead(g));
  }

  /** A tick that lands the head on the food: the snake is the moved snake with one more
      segment at the end, placed where the moved segment was before the move; the food
      goes to the drawn food spot. */
  lemma GrowingTick(g: Game, rx: int, ry: int)
    requires WellFormed(g) && g.running && ValidDraws(rx, ry)
    requires !HitsBody(Slide(g.snake, NextHead(g))) && !HitsWall(NextHead(g))
    requires NextHead(g) == g.food
    ensures var r := Step(g, rx, ry);
      && |r.snake| == |g.snake| + 1
      && r.snake[0] == Advance(g.snake[0], g.direction)
      && r.snake[1..|g.snake|] == g.snake[..|g.snake| - 1]
      && r.snake[|g.snake|] == g.snake[|g.snake| - 1]
      && r.food == FoodAt(rx, ry) && FoodSpot(r.food)
      && r.direction == g.direction && r.running && r.moved
  {
    var r := Step(g, rx, ry);
    assert r.snake == Slide(g.snake, NextHead(g)) + [LastCell(g)];
    assert r.snake[1..|g.snake|] == Slide(g.snake, NextHead(g))[1..];
    FoodLandsOnFoodSpot(rx, ry);
  }

  /** A self collision restarts the game: one segment at the origin heading right, running.
      The food test still runs on the moved segment, so when the collision happens on the
      food, the restarted snake gets a second segment where the old last segment was. */
  lemma SelfCollisionRestarts(g: Game, rx: int, ry: int)
    requires WellFormed(g) && g.running && ValidDraws(rx, ry)
    requires HitsBody(Slide(g.snake, NextHead(g)))
    ensures var r := Step(g, rx, ry);
      && r.direction == RIGHT && r.running && r.moved
      && (NextHead(g) != g.food ==> r.snake == [Origin] && r.food == g.food)
      && (NextHead(g) == g.food ==> r.snake == [Origin, LastCell(g)] && r.food == FoodAt(rx, ry))
  {
    NoDoubleRestart(g);
  }

  /** A wall collision restarts the game, and since food always lies inside the walls the
      stale head cannot eat it: the result is exactly one segment at the origin. */
  lemma WallCollisionRestarts(g: Game, rx: int, ry: int)
    requires WellFormed(g) && g.running && ValidDraws(rx, ry)
    requires HitsWall(NextHead(g))
    ensures var r := Step(g, rx, ry);
      && r.snake == [Origin] && r.direction == RIGHT && r.running && r.moved && r.food == g.food
  {
    assert NextHead(g) != g.food;
  }

  /** Every tick keeps the invariant: running exactly when there are segments, food on a
      food spot, and every segment aligned and inside the walls. In particular a running
      snake never becomes empty. */
  lemma {:induction false} StepKeepsWellFormed(g: Game, rx: int, ry: int)
    requires WellFormed(g) && ValidDraws(rx, ry)
    ensures WellFormed(Step(g, rx, ry))
  {
    if g.running {
      var head := NextHead(g);
      AdvanceIsOneSquare(g.snake[0], g.direction);
      FoodLandsOnFoodSpot(rx, ry);
      if HitsWall(head) {
        WallCollisionRestarts(g, rx, ry);
      } else if HitsBody(Slide(g.snake, head)) {
        SelfCollisionRestarts(g, rx, ry);
      } else {
        var r := Step(g, rx, ry);
        var moved := Slide(g.snake, head);
        assert forall i :: 0 <= i < |moved| ==> Aligned(moved[i]) && !HitsWall(moved[i]) by {
          forall i | 0 <= i < |moved| ensures Aligned(moved[i]) && !HitsWall(moved[i]) {
            if i > 0 { assert moved[i] == g.snake[i - 1]; }
          }
        }
        assert r.snake == moved || r.snake == moved + [LastCell(g)];
      }
    }
  }

  /** A key press keeps the invariant. */
  lemma PressKeepsWellFormed(g: Game, k: Key)
    requires WellFormed(g)
    ensures WellFormed(Press(g, k))
  {
  }

  /** When the food is not under the snake, a tick without a collision keeps the segments on
      pairwise different cells. */
  lemma {:induction false} QuietTickKeepsDistinct(g: Game, rx: int, ry: int)
    requires WellFormed(g) && g.running && ValidDraws(rx, ry)
    requires Distinct(g.snake) && g.food !in g.snake
    requires !HitsBody(Slide(g.snake, NextHead(g))) && !HitsWall(NextHead(g))
    ensures Distinct(Step(g, rx, ry).snake)
  {
    var n := |g.snake|;
    var head := NextHead(g);
    var moved := Slide(g.snake, head);
    SelfCollisionMeans(g.snake, head);
    assert Distinct(moved) by {
      forall i, j | 0 <= i < j < n ensures moved[i] != moved[j] {
        if i == 0 {
          assert moved[j] == g.snake[..n - 1][j - 1];
        } else {
          assert moved[i] == g.snake[i - 1] && moved[j] == g.snake[j - 1];
        }
      }
    }
    if head == g.food {
      var r := moved + [LastCell(g)];
      assert Step(g, rx, ry).snake == r;
      forall i, j | 0 <= i < j < n + 1 ensures r[i] != r[j] {
        if j == n {
          if i == 0 {
            assert r[i] == g.food && g.snake[n - 1] in g.snake;
          } else {
            assert r[i] == g.snake[i - 1] && r[j] == g.snake[n - 1];
          }
        } else {
          assert r[i] == moved[i] && r[j] == moved[j];
        }
      }
    }
  }

  /** Without that condition the segments can overlap: a square snake heading into the cell
      its last segment leaves, with the food lying under that last segment, grows a segment
      on top of its own head without any collision being noticed. */
  lemma FoodUnderLastSegmentOverlaps()
    ensures var g := Game(LEFT, true, true, [Cell(30, 0), Cell(30, 30), Cell(0, 30), Cell(0, 0)], Cell(0, 0));
      && WellFormed(g) && Distinct(g.snake)
      && !HitsBody(Slide(g.snake, NextHead(g))) && !HitsWall(NextHead(g))
      && Step(g, 0, 0).snake == [Cell(0, 0), Cell(30, 0), Cell(30, 30), Cell(0, 30), Cell(0, 0)]
      && !Distinct(Step(g, 0, 0).snake)
  {
    var g := Game(LEFT, true, true, [Cell(30, 0), Cell(30, 30), Cell(0, 30), Cell(0, 0)], Cell(0, 0));
    var moved := Slide(g.snake, NextHead(g));
    assert moved == [Cell(0, 0), Cell(30, 0), Cell(30, 30), Cell(0, 30)];
    assert Step(g, 0, 0).snake[0] == Step(g, 0, 0).snake[4];
  }

  /** Once a key has been handled, later keys are ignored until the next tick. */
  lemma GateStaysClosed(g: Game, k1: Key, k2: Key)
    ensures Press(Press(g, k1), k2) == Press(g, k1)
  {
  }

  /** Of the keys pressed between two ticks only the first is acted on. */
  lemma {:induction false} OnlyFirstKeyCounts(g: Game, keys: seq<Key>)
    requires keys != []
    ensures PressAll(g, keys) == Press(g, keys[0])
    decreases |keys|
  {
    var rest := keys[1..];
    if rest != [] {
      OnlyFirstKeyCounts(Press(g, keys[0]), rest);
      GateStaysClosed(g, keys[0], rest[0]);
    }
  }

  /** A tick of a running game opens the gate again. */
  lemma TickOpensGate(g: Game, rx: int, ry: int)
    requires g.running && g.snake != [] && ValidDraws(rx, ry)
    ensures Step(g, rx, ry).moved
  {
  }

  /** With the gate open, the first of the keys pressed decides the heading: the one it asks
      for, unless that is the reverse of the heading. */
  lemma {:induction false} FirstKeyDecides(g: Game, keys: seq<Key>)
    requires g.moved && keys != [] && keys[0] != Other
    ensures PressAll(g, keys).direction == if Wanted(keys[0]) == Opposite(g.direction) then g.direction else Wanted(keys[0])
    ensures !PressAll(g, keys).moved
  {
    OnlyFirstKeyCounts(g, keys);
  }
}
