/**
 * The wrap-around variant (script.js). The board is a fixed 400 by 400 pixel
 * canvas of 20-pixel boxes; the heading is kept in pixels (one box along an
 * axis) and starts at rest. A head that leaves the canvas re-enters on the
 * opposite edge, and only running into its own body ends the game; that test
 * is made on the current state, before the snake moves.
 *
 * As for the wall variant, the operations are functions on a `State` value
 * and the class `Game` holds the page's globals, its methods proved against
 * those functions.
 */
module WrapSnake {
  import opened Grid

  const Width := 400
  const Height := 400
  const BoxSize := 20
  /** The cell the snake starts from, and returns to, on every reset. */
  const Start := Cell(200, 200)
  /** The heading at rest, before any arrow key. */
  const Still := Cell(0, 0)
  /** What one piece of food is worth. */
  const Points := 10

  datatype State = State(snake: seq<Cell>, direction: Cell, food: Cell, score: int)

  /** A box-aligned cell of the canvas. */
  predicate OnGrid(c: Cell)
  {
    0 <= c.x < Width && 0 <= c.y < Height && c.x % BoxSize == 0 && c.y % BoxSize == 0
  }

  /** A heading the game can hold: at rest, or one box along an axis. */
  predicate IsHeading(d: Cell)
  {
    d == Still || IsAxis(d, BoxSize)
  }

  /** What holds of every state the game reaches. */
  predicate Inv(s: State)
  {
    && |s.snake| >= 1
    && (forall i :: 0 <= i < |s.snake| ==> OnGrid(s.snake[i]))
    && IsHeading(s.direction)
    && OnGrid(s.food)
    && s.score >= 0 && s.score % Points == 0
  }

  // ---------------------------------------------------------------------
  // randomFood: one draw, with no look at the snake
  // ---------------------------------------------------------------------

  function DrawnFood(d: Draw): (c: Cell)
    ensures OnGrid(c)
  {
    Pick(d, Width, Height, BoxSize)
  }

  /** The food can be drawn onto the snake, even onto the start cell. */
  lemma RandomFoodMayCoverSnake()
    ensures DrawnFood(Draw(Start.x / BoxSize, Start.y / BoxSize)) == Start
  {
    PickReachesEveryCell(Start, Width, Height, BoxSize);
  }

  // ---------------------------------------------------------------------
  // moveSnake
  // ---------------------------------------------------------------------

  /**
   * The border tests of moveSnake, in their order: a coordinate below 0
   * moves to the last box, one at or past the edge moves to 0.
   */
  function Wrap(c: Cell): Cell
  {
    var c1 := if c.x < 0 then c.(x := Width - BoxSize) else c;
    var c2 := if c1.y < 0 then c1.(y := Height - BoxSize) else c1;
    var c3 := if c2.x >= Width then c2.(x := 0) else c2;
    if c3.y >= Height then c3.(y := 0) else c3
  }

  /** One box to the left of the left edge is the last box of the row, and so on. */
  lemma WrapEdges(y: int, x: int)
    requires 0 <= x < Width && 0 <= y < Height
    ensures Wrap(Cell(-BoxSize, y)) == Cell(Width - BoxSize, y)
    ensures Wrap(Cell(Width, y)) == Cell(0, y)
    ensures Wrap(Cell(x, -BoxSize)) == Cell(x, Height - BoxSize)
    ensures Wrap(Cell(x, Height)) == Cell(x, 0)
  {
  }

  /**
   * From a head on the canvas, a step of at most one box in each coordinate
   * lands on the canvas.
   */
  lemma WrapInBounds(c: Cell, d: Cell)
    requires 0 <= c.x < Width && 0 <= c.y < Height
    requires -BoxSize <= d.x <= BoxSize && -BoxSize <= d.y <= BoxSize
    ensures var h := Wrap(Plus(c, d)); 0 <= h.x < Width && 0 <= h.y < Height
  {
  }

  /** What the border tests do to one coordinate. */
  function WrapCoord(v: int, extent: int): int
  {
    if v < 0 then extent - BoxSize else if v >= extent then 0 else v
  }

  /** The tests on x and on y do not interfere. */
  lemma WrapByCoord(c: Cell)
    ensures Wrap(c) == Cell(WrapCoord(c.x, Width), WrapCoord(c.y, Height))
  {
  }

  lemma WrapCoordStep(v: int, dv: int, extent: int)
    requires extent == 400 && 0 <= v < extent && v % BoxSize == 0
    requires dv == -BoxSize || dv == 0 || dv == BoxSize
    ensures WrapCoord(v + dv, extent) == (v + dv) % extent
    ensures 0 <= WrapCoord(v + dv, extent) < extent && WrapCoord(v + dv, extent) % BoxSize == 0
  {
    ShiftMod(v, dv / BoxSize, BoxSize);
    if v + dv < 0 {
      assert v + dv == -BoxSize;
    } else if v + dv >= extent {
      assert v + dv == extent;
    }
  }

  /**
   * From a box of the canvas, a step along a heading the game can hold
   * lands on a box of the canvas, and the border tests agree with
   * arithmetic modulo the canvas size.
   */
  lemma WrapStep(c: Cell, d: Cell)
    requires OnGrid(c) && IsHeading(d)
    ensures OnGrid(Wrap(Plus(c, d)))
    ensures Wrap(Plus(c, d)) == Cell((c.x + d.x) % Width, (c.y + d.y) % Height)
  {
    WrapByCoord(Plus(c, d));
    WrapCoordStep(c.x, d.x, Width);
    WrapCoordStep(c.y, d.y, Height);
  }

  function NewHead(s: State): Cell
    requires |s.snake| > 0
  {
    Wrap(Plus(s.snake[0], s.direction))
  }

  predicate Eats(s: State)
    requires |s.snake| > 0
  {
    NewHead(s) == s.food
  }

  function AfterMove(s: State, d: Draw): State
    requires |s.snake| > 0
  {
    var head := NewHead(s);
    if head == s.food then State(Slither(s.snake, head, true), s.direction, DrawnFood(d), s.score + Points)
    else State(Slither(s.snake, head, false), s.direction, s.food, s.score)
  }

  // ---------------------------------------------------------------------
  // resetGame and gameLoop
  // ---------------------------------------------------------------------

  function Restart(d: Draw): State
  {
    State([Start], Still, DrawnFood(d), 0)
  }

  /** gameLoop: test the current state first; a collision resets, else move. */
  function AfterTick(s: State, d: Draw): State
    requires |s.snake| > 0
  {
    if SelfCollides(s.snake) then Restart(d) else AfterMove(s, d)
  }

  // ---------------------------------------------------------------------
  // What one move, one key and one tick do
  // ---------------------------------------------------------------------

  /**
   * The new head is the wrapped old head plus the heading, and behind it
   * come the old segments in order: all of them when the snake ate, all but
   * the tail otherwise. Score and food change only on eating.
   */
  lemma MoveEffect(s: State, d: Draw)
    requires |s.snake| > 0
    ensures var r := AfterMove(s, d);
      && r.snake[0] == Wrap(Cell(s.snake[0].x + s.direction.x, s.snake[0].y + s.direction.y))
      && (forall i :: 1 <= i < |r.snake| ==> r.snake[i] == s.snake[i - 1])
      && (Eats(s) ==> r.snake == [r.snake[0]] + s.snake)
      && (!Eats(s) ==> r.snake == [r.snake[0]] + s.snake[..|s.snake| - 1])
      && r.direction == s.direction
      && (Eats(s) ==> r.score == s.score + 10 && r.food == DrawnFood(d))
      && (!Eats(s) ==> r.score == s.score && r.food == s.food)
  {
  }

  /** The snake grows by one exactly when the wrapped head is on the food. */
  lemma {:induction false} GrowsIffEats(s: State, d: Draw)
    requires |s.snake| > 0
    ensures |AfterMove(s, d).snake| == |s.snake| + 1 <==> NewHead(s) == s.food
    ensures |AfterMove(s, d).snake| == |s.snake| <==> NewHead(s) != s.food
  {
  }

  /**
   * A tick on a state whose head is on its body resets without moving; any
   * other tick is exactly one move. Only the reset lowers the score.
   */
  lemma TickEffect(s: State, d: Draw)
    requires |s.snake| > 0
    ensures var t := AfterTick(s, d);
      && (SelfCollides(s.snake) ==>
            t.snake == [Start] && t.direction == Still && t.score == 0 && OnGrid(t.food))
      && (!SelfCollides(s.snake) ==> t == AfterMove(s, d))
      && (t.score < s.score ==> SelfCollides(s.snake))
  {
  }

  /** A move keeps the invariant: the wrapped head is a box of the canvas. */
  lemma MoveKeepsInv(s: State, d: Draw)
    requires Inv(s)
    ensures Inv(AfterMove(s, d))
  {
    WrapStep(s.snake[0], s.direction);
    var r := AfterMove(s, d);
    forall i | 0 <= i < |r.snake|
      ensures OnGrid(r.snake[i])
    {
      if i > 0 {
        assert r.snake[i] == s.snake[i - 1];
      }
    }
  }

  lemma TickKeepsInv(s: State, d: Draw)
    requires Inv(s)
    ensures Inv(AfterTick(s, d))
  {
    if !SelfCollides(s.snake) {
      MoveKeepsInv(s, d);
    }
  }

  /** changeDirection takes an arrow unless it reverses the heading. */
  lemma KeyTakenUnlessReversal(s: State, key: Key)
    requires Inv(s)
    ensures Steer(s.direction, key, BoxSize) ==
              if !key.Other? && Heading(key, BoxSize) != Neg(s.direction) then Heading(key, BoxSize)
              else s.direction
  {
    SteerRejectsOnlyReversal(s.direction, key, BoxSize);
  }

  /** At rest, every arrow is taken. */
  lemma KeyFromStill(s: State, key: Key)
    requires Inv(s) && s.direction == Still && !key.Other?
    ensures Steer(s.direction, key, BoxSize) == Heading(key, BoxSize)
  {
    SteerFromStill(key, BoxSize);
  }

  /** The heading stays at rest or one box along an axis. */
  lemma KeyKeepsInv(s: State, key: Key)
    requires Inv(s)
    ensures Inv(s.(direction := Steer(s.direction, key, BoxSize)))
  {
    SteerRejectsOnlyReversal(s.direction, key, BoxSize);
  }

  /** At rest, a snake of one box that does not eat stays where it is. */
  lemma StillSnakeStays(s: State, d: Draw)
    requires Inv(s) && s.direction == Still && |s.snake| == 1 && s.food != s.snake[0]
    ensures AfterTick(s, d) == s
  {
    WrapStep(s.snake[0], s.direction);
  }

  /**
   * Since the food is not kept off the snake, a reset can put it under the
   * resting snake: the next tick eats it without a key pressed, and the tick
   * after that finds the head on the body and resets again.
   */
  lemma FoodUnderRestingSnakeEndsGame(d1: Draw, d2: Draw)
    ensures Restart(Draw(Start.x / BoxSize, Start.y / BoxSize)).food == Start
    ensures var s := State([Start], Still, Start, 0);
      var t := AfterTick(s, d1);
      && t.snake == [Start, Start] && t.score == 10
      && SelfCollides(t.snake)
      && AfterTick(t, d2) == Restart(d2)
  {
    RandomFoodMayCoverSnake();
    var s := State([Start], Still, Start, 0);
    var t := AfterTick(s, d1);
    assert !SelfCollides(s.snake);
    assert t.snake == [Start, Start];
    assert t.snake[1] == t.snake[0];
  }

  // ---------------------------------------------------------------------
  // The page state
  // ---------------------------------------------------------------------

  class Game {
    var snake: seq<Cell>
    var direction: Cell
    var food: Cell
    var score: int

    function Current(): State
      reads this
    {
      State(snake, direction, food, score)
    }

    ghost predicate Valid()
      reads this
    {
      Inv(Current())
    }

    /** The initial values of the globals. */
    constructor ()
      ensures Valid()
      ensures Current() == State([Start], Still, Cell(0, 0), 0)
    {
      snake := [Start];
      direction := Still;
      food := Cell(0, 0);
      score := 0;
    }

    method RandomFood(d: Draw)
      requires Valid()
      modifies this`food
      ensures Valid()
      ensures food == DrawnFood(d)
    {
      food := Pick(d, Width, Height, BoxSize);
    }

    method MoveSnake(d: Draw)
      requires Valid()
      modifies this`snake, this`score, this`food
      ensures Valid()
      ensures Current() == AfterMove(old(Current()), d)
    {
      MoveKeepsInv(Current(), d);
      var head := Cell(snake[0].x + direction.x, snake[0].y + direction.y);
      if head.x < 0 {
        head := head.(x := Width - BoxSize);
      }
      if head.y < 0 {
        head := head.(y := Height - BoxSize);
      }
      if head.x >= Width {
        head := head.(x := 0);
      }
      if head.y >= Height {
        head := head.(y := 0);
      }
      snake := [head] + snake;
      if head == food {
        score := score + Points;
        food := Pick(d, Width, Height, BoxSize);
      } else {
        snake := snake[..|snake| - 1];
      }
    }

    method CheckCollision() returns (hit: bool)
      requires Valid()
      ensures hit <==> SelfCollides(snake)
    {
      hit := ScanForHead(snake);
    }

    method ResetGame(d: Draw)
      requires Valid()
      modifies this`snake, this`direction, this`score, this`food
      ensures Valid()
      ensures Current() == Restart(d)
    {
      snake := [Start];
      direction := Still;
      score := 0;
      RandomFood(d);
    }

    /**
     * One tick. `finalScore` is the score before the tick, which the page
     * reports when the tick ends the game.
     */
    method GameLoop(d: Draw) returns (over: bool, finalScore: int)
      requires Valid()
      modifies this`snake, this`direction, this`score, this`food
      ensures Valid()
      ensures over <==> SelfCollides(old(snake))
      ensures finalScore == old(score)
      ensures Current() == AfterTick(old(Current()), d)
    {
      finalScore := score;
      over := CheckCollision();
      if over {
        ResetGame(d);
        return;
      }
      MoveSnake(d);
    }

    method ChangeDirection(key: Key)
      requires Valid()
      modifies this`direction
      ensures Valid()
      ensures direction == Steer(old(direction), key, BoxSize)
    {
      KeyKeepsInv(Current(), key);
      var goingUp := direction.y == -BoxSize;
      var goingDown := direction.y == BoxSize;
      var goingLeft := direction.x == -BoxSize;
      var goingRight := direction.x == BoxSize;
      if key == ArrowUp && !goingDown {
        direction := Cell(0, -BoxSize);
      } else if key == ArrowDown && !goingUp {
        direction := Cell(0, BoxSize);
      } else if key == ArrowLeft && !goingRight {
        direction := Cell(-BoxSize, 0);
      } else if key == ArrowRight && !goingLeft {
        direction := Cell(BoxSize, 0);
      }
    }
  }
}
