/**
 * The wall-death variant (game.js). The module-level state of the page, that
 * is the snake (head first), its unit heading, the food, the score, the grid
 * size and the game speed, is the class `Game`; each tick moves the snake by
 * one grid step and ends the game when the head leaves the canvas or lands
 * on the body.
 *
 * The operations are first given as functions on a `State` value; the
 * methods of `Game` are proved to update the fields as those functions say,
 * and the lemmas state what the game promises about them.
 */
module WallSnake {
  import opened Grid

  /** The cell the snake starts from, and returns to, on every game. */
  const Start := Cell(200, 200)
  /** The heading at start and after a reset: to the right. */
  const StartHeading := Cell(1, 0)
  /** What one piece of food is worth. */
  const Points := 10

  /** The canvas, in pixels, and the grid size in force. */
  datatype Board = Board(width: int, height: int, gridSize: int) {
    predicate Valid()
    {
      width > 0 && height > 0 && gridSize > 0
    }

    /** The food position a draw gives on this board. */
    function Spot(d: Draw): Cell
      requires Valid()
    {
      Pick(d, width, height, gridSize)
    }

    /** The candidate food cells successive draws give. */
    function Spots(draws: seq<Draw>): seq<Cell>
      requires Valid()
    {
      seq(|draws|, i requires 0 <= i < |draws| => Spot(draws[i]))
    }

    predicate Outside(c: Cell)
    {
      c.x < 0 || c.x >= width || c.y < 0 || c.y >= height
    }
  }

  datatype State = State(snake: seq<Cell>, dir: Cell, food: Cell, score: int)

  /** What holds of every state the game reaches. */
  predicate Inv(s: State)
  {
    |s.snake| >= 1 && IsAxis(s.dir, 1) && s.score >= 0 && s.score % Points == 0
  }

  // ---------------------------------------------------------------------
  // generateFood: draw again until the food is off the snake
  // ---------------------------------------------------------------------

  /** The `i`th candidate is the cell of the `i`th draw. */
  lemma SpotsAt(b: Board, draws: seq<Draw>)
    requires b.Valid()
    ensures |b.Spots(draws)| == |draws|
    ensures forall i :: 0 <= i < |draws| ==> b.Spots(draws)[i] == b.Spot(draws[i])
  {
  }

  /** Some cell in `cells` is off `body`. */
  predicate HasFree(cells: seq<Cell>, body: seq<Cell>)
  {
    exists k :: 0 <= k < |cells| && cells[k] !in body
  }

  /**
   * The index of the first candidate off `body`: how many times the retry
   * loop of generateFood draws again before it stops.
   */
  function FirstFree(cells: seq<Cell>, body: seq<Cell>): (k: nat)
    requires HasFree(cells, body)
    ensures k < |cells| && cells[k] !in body
    ensures forall j :: 0 <= j < k ==> cells[j] in body
    decreases |cells|
  {
    if cells[0] !in body then 0
    else
      assert HasFree(cells[1..], body) by {
        var k :| 0 <= k < |cells| && cells[k] !in body;
        assert cells[1..][k - 1] == cells[k];
      }
      1 + FirstFree(cells[1..], body)
  }

  /**
   * Where the food ends up: a grid-aligned cell inside the canvas, off the
   * body, given by one of the draws.
   */
  function GeneratedFood(draws: seq<Draw>, body: seq<Cell>, b: Board): (c: Cell)
    requires b.Valid() && HasFree(b.Spots(draws), body)
    ensures c !in body
    ensures 0 <= c.x < b.width && 0 <= c.y < b.height
    ensures c.x % b.gridSize == 0 && c.y % b.gridSize == 0
    ensures exists k :: 0 <= k < |draws| && c == b.Spot(draws[k])
  {
    SpotsAt(b, draws);
    b.Spot(draws[FirstFree(b.Spots(draws), body)])
  }

  // ---------------------------------------------------------------------
  // updateSnake
  // ---------------------------------------------------------------------

  /** The old head displaced by one grid step along the heading. */
  function NextHead(s: State, gridSize: int): Cell
    requires |s.snake| > 0
  {
    Plus(s.snake[0], Cell(s.dir.x * gridSize, s.dir.y * gridSize))
  }

  predicate Eats(s: State, gridSize: int)
    requires |s.snake| > 0
  {
    NextHead(s, gridSize) == s.food
  }

  function MovedBody(s: State, gridSize: int): seq<Cell>
    requires |s.snake| > 0
  {
    Slither(s.snake, NextHead(s, gridSize), Eats(s, gridSize))
  }

  /** A move can be made: when it eats, the draws hold a free cell. */
  predicate CanMove(s: State, b: Board, draws: seq<Draw>)
  {
    b.Valid() && |s.snake| > 0 &&
    (Eats(s, b.gridSize) ==> HasFree(b.Spots(draws), [NextHead(s, b.gridSize)] + s.snake))
  }

  function AfterMove(s: State, b: Board, draws: seq<Draw>): State
    requires CanMove(s, b, draws)
  {
    var body := MovedBody(s, b.gridSize);
    if Eats(s, b.gridSize) then State(body, s.dir, GeneratedFood(draws, body, b), s.score + Points)
    else State(body, s.dir, s.food, s.score)
  }

  // ---------------------------------------------------------------------
  // checkCollisions and the game-over branch of gameLoop
  // ---------------------------------------------------------------------

  /** The head is off the canvas or on another segment. */
  predicate Collides(body: seq<Cell>, b: Board)
    requires |body| > 0
  {
    b.Outside(body[0]) || SelfCollides(body)
  }

  function Restart(b: Board, draws: seq<Draw>): State
    requires b.Valid() && HasFree(b.Spots(draws), [Start])
  {
    State([Start], StartHeading, GeneratedFood(draws, [Start], b), 0)
  }

  predicate EndsGame(s: State, b: Board)
    requires |s.snake| > 0
  {
    Collides(MovedBody(s, b.gridSize), b)
  }

  /** One tick can run: the move can, and so can the reset it may cause. */
  predicate CanTick(s: State, b: Board, eatDraws: seq<Draw>, resetDraws: seq<Draw>)
  {
    CanMove(s, b, eatDraws) && (EndsGame(s, b) ==> HasFree(b.Spots(resetDraws), [Start]))
  }

  /** gameLoop: move first, then test; a collision restarts the game. */
  function AfterTick(s: State, b: Board, eatDraws: seq<Draw>, resetDraws: seq<Draw>): State
    requires CanTick(s, b, eatDraws, resetDraws)
  {
    if EndsGame(s, b) then Restart(b, resetDraws) else AfterMove(s, b, eatDraws)
  }

  // ---------------------------------------------------------------------
  // setDifficulty
  // ---------------------------------------------------------------------

  datatype Setting = Setting(gridSize: int, speed: int)

  function Difficulty(level: string): (r: Setting)
    ensures r == Setting(25, 150) || r == Setting(20, 100) || r == Setting(15, 70)
  {
    if level == "easy" then Setting(25, 150)
    else if level == "medium" then Setting(20, 100)
    else if level == "hard" then Setting(15, 70)
    else Setting(20, 100)
  }

  /**
   * Each named level has its own grid and speed, the harder the finer and
   * the faster; any other level plays as medium.
   */
  lemma DifficultyLevels(level: string)
    ensures level == "easy" ==> Difficulty(level) == Setting(25, 150)
    ensures level == "medium" ==> Difficulty(level) == Setting(20, 100)
    ensures level == "hard" ==> Difficulty(level) == Setting(15, 70)
    ensures level !in {"easy", "medium", "hard"} ==> Difficulty(level) == Difficulty("medium")
    ensures Difficulty("hard").speed < Difficulty("medium").speed < Difficulty("easy").speed
  {
  }

  // ---------------------------------------------------------------------
  // What one move, one key and one tick do
  // ---------------------------------------------------------------------

  /**
   * The new head is the old one displaced by heading times grid size, and
   * behind it come the old segments in order: all of them when the snake
   * ate, all but the tail otherwise. Score and food change only on eating.
   */
  lemma MoveEffect(s: State, b: Board, draws: seq<Draw>)
    requires CanMove(s, b, draws)
    ensures var r := AfterMove(s, b, draws);
      && r.snake[0] == Cell(s.snake[0].x + s.dir.x * b.gridSize, s.snake[0].y + s.dir.y * b.gridSize)
      && (forall i :: 1 <= i < |r.snake| ==> r.snake[i] == s.snake[i - 1])
      && (Eats(s, b.gridSize) ==> r.snake == [r.snake[0]] + s.snake)
      && (!Eats(s, b.gridSize) ==> r.snake == [r.snake[0]] + s.snake[..|s.snake| - 1])
      && r.dir == s.dir
      && (Eats(s, b.gridSize) ==> r.score == s.score + 10 && r.food !in r.snake)
      && (!Eats(s, b.gridSize) ==> r.score == s.score && r.food == s.food)
  {
  }

  /** The snake grows by one exactly when the new head is on the food. */
  lemma {:induction false} GrowsIffEats(s: State, b: Board, draws: seq<Draw>)
    requires CanMove(s, b, draws)
    ensures |AfterMove(s, b, draws).snake| == |s.snake| + 1 <==> NextHead(s, b.gridSize) == s.food
    ensures |AfterMove(s, b, draws).snake| == |s.snake| <==> NextHead(s, b.gridSize) != s.food
  {
  }

  /**
   * The snake of one cell at the start, heading right on a 20-pixel grid,
   * with the food one step ahead: it grows to two cells and scores 10.
   */
  lemma EatingScenario(b: Board, draws: seq<Draw>)
    requires b.Valid() && b.gridSize == 20
    requires HasFree(b.Spots(draws), [Cell(220, 200), Start])
    ensures var r := AfterMove(State([Start], StartHeading, Cell(220, 200), 0), b, draws);
      r.snake == [Cell(220, 200), Start] && r.score == 10 && r.food !in r.snake
  {
  }

  /**
   * A tick that ends the game leaves the reset state with fresh food off the
   * start cell; a tick that does not leaves the moved state, its head inside
   * the canvas and off the body. Only a game over lowers the score.
   */
  lemma TickEffect(s: State, b: Board, eatDraws: seq<Draw>, resetDraws: seq<Draw>)
    requires CanTick(s, b, eatDraws, resetDraws)
    ensures var t := AfterTick(s, b, eatDraws, resetDraws);
      && (EndsGame(s, b) ==>
            t.snake == [Start] && t.dir == StartHeading && t.score == 0 && t.food != Start
            && 0 <= t.food.x < b.width && 0 <= t.food.y < b.height)
      && (!EndsGame(s, b) ==>
            t == AfterMove(s, b, eatDraws)
            && 0 <= t.snake[0].x < b.width && 0 <= t.snake[0].y < b.height
            && t.snake[0] !in t.snake[1..])
      && (t.score < s.score ==> EndsGame(s, b))
  {
  }

  /** Ticks keep the invariant. */
  lemma TickKeepsInv(s: State, b: Board, eatDraws: seq<Draw>, resetDraws: seq<Draw>)
    requires CanTick(s, b, eatDraws, resetDraws) && Inv(s)
    ensures Inv(AfterTick(s, b, eatDraws, resetDraws))
  {
    if !EndsGame(s, b) {
      var r := AfterMove(s, b, eatDraws);
      assert |r.snake| >= |s.snake| && r.dir == s.dir;
      assert r.score == s.score || r.score == s.score + Points;
    }
  }

  /**
   * The key handler takes an arrow unless it reverses the heading, and the
   * heading stays a unit axis vector.
   */
  lemma KeyKeepsInv(s: State, key: Key)
    requires Inv(s)
    ensures Steer(s.dir, key, 1) ==
              if !key.Other? && Heading(key, 1) != Neg(s.dir) then Heading(key, 1) else s.dir
    ensures Inv(s.(dir := Steer(s.dir, key, 1)))
  {
    SteerRejectsOnlyReversal(s.dir, key, 1);
  }

  // ---------------------------------------------------------------------
  // A consequence of the fixed start cell
  // ---------------------------------------------------------------------

  /**
   * The head sits off the grid lines the food is drawn on. Moves change
   * the head by whole grid steps and every reset goes back to Start, so
   * when Start is off the grid (200 is no multiple of 15, the hard grid) the
   * snake can never reach the food.
   */
  predicate OutOfStep(s: State, g: int)
    requires g > 0
  {
    |s.snake| > 0 && s.snake[0].x % g == Start.x % g != 0 && s.food.x % g == 0
  }

  lemma {:induction false} OutOfStepNeverEats(s: State, b: Board, eatDraws: seq<Draw>, resetDraws: seq<Draw>)
    requires CanTick(s, b, eatDraws, resetDraws) && Inv(s) && OutOfStep(s, b.gridSize)
    ensures !Eats(s, b.gridSize)
    ensures OutOfStep(AfterTick(s, b, eatDraws, resetDraws), b.gridSize)
    ensures AfterTick(s, b, eatDraws, resetDraws).score <= s.score
  {
    var g := b.gridSize;
    ShiftMod(s.snake[0].x, s.dir.x, g);
    assert NextHead(s, g).x % g == Start.x % g;
  }

  /**
   * On the hard grid, fresh food for a snake whose head is on the start cell
   * leaves the game out of step. This is the state the Start button gives
   * at page load, where the snake is [Start].
   */
  lemma HardFreshFoodOutOfStep(s: State, b: Board, draws: seq<Draw>)
    requires b.Valid() && b.gridSize == Difficulty("hard").gridSize
    requires |s.snake| > 0 && s.snake[0] == Start && HasFree(b.Spots(draws), s.snake)
    ensures OutOfStep(s.(food := GeneratedFood(draws, s.snake, b)), b.gridSize)
  {
  }

  /** A game over on the hard grid restarts the game out of step. */
  lemma HardRestartOutOfStep(b: Board, draws: seq<Draw>)
    requires b.Valid() && b.gridSize == Difficulty("hard").gridSize
    requires HasFree(b.Spots(draws), [Start])
    ensures OutOfStep(Restart(b, draws), b.gridSize)
  {
  }

  /**
   * The Start button does not reset the snake, so switching to the hard
   * grid in the middle of a game can leave the head on that grid: three
   * medium moves from the start cell (right, right, up) reach (240, 180),
   * a multiple of 15 on both axes, and food drawn at (240, 165) is eaten
   * by the next upward move.
   */
  lemma HardSwitchMidGameCanEat()
    ensures var medium := Board(400, 400, Difficulty("medium").gridSize);
      var s1 := AfterMove(State([Start], StartHeading, Cell(0, 0), 0), medium, []);
      var s2 := AfterMove(s1, medium, []);
      var s3 := AfterMove(s2.(dir := Cell(0, -1)), medium, []);
      var hard := s3.(food := Cell(240, 165));
      && s3.snake[0] == Cell(240, 180)
      && !OutOfStep(hard, Difficulty("hard").gridSize)
      && Eats(hard, Difficulty("hard").gridSize)
  {
  }

  // ---------------------------------------------------------------------
  // The page state
  // ---------------------------------------------------------------------

  class Game {
    var snake: seq<Cell>
    var dir: Cell
    var food: Cell
    var score: int
    var gridSize: int
    var gameSpeed: int
    var width: int
    var height: int

    function Canvas(): Board
      reads this
    {
      Board(width, height, gridSize)
    }

    function Current(): State
      reads this
    {
      State(snake, dir, food, score)
    }

    ghost predicate Valid()
      reads this
    {
      Canvas().Valid() && Inv(Current())
    }

    /** The initial values of the globals, on a canvas of the given size. */
    constructor (width: int, height: int)
      requires width > 0 && height > 0
      ensures Valid()
      ensures Current() == State([Start], StartHeading, Cell(0, 0), 0)
      ensures Canvas() == Board(width, height, 20) && gameSpeed == 100
    {
      snake := [Start];
      dir := StartHeading;
      food := Cell(0, 0);
      score := 0;
      gridSize := 20;
      gameSpeed := 100;
      this.width := width;
      this.height := height;
    }

    /** Draws until the food is off the snake. */
    method GenerateFood(draws: seq<Draw>)
      requires Valid() && HasFree(Canvas().Spots(draws), snake)
      modifies this`food
      ensures Valid()
      ensures food == GeneratedFood(draws, snake, Canvas())
    {
      SpotsAt(Canvas(), draws);
      var i := 0;
      food := Canvas().Spot(draws[i]);
      while food in snake
        invariant i <= FirstFree(Canvas().Spots(draws), snake)
        invariant food == Canvas().Spot(draws[i])
        decreases FirstFree(Canvas().Spots(draws), snake) - i
      {
        i := i + 1;
        food := Canvas().Spot(draws[i]);
      }
    }

    method UpdateSnake(draws: seq<Draw>)
      requires Valid() && CanMove(Current(), Canvas(), draws)
      modifies this`snake, this`score, this`food
      ensures Valid()
      ensures Current() == AfterMove(old(Current()), Canvas(), draws)
    {
      var head := Cell(snake[0].x + dir.x * gridSize, snake[0].y + dir.y * gridSize);
      snake := [head] + snake;
      if head == food {
        score := score + Points;
        GenerateFood(draws);
      } else {
        snake := snake[..|snake| - 1];
      }
    }

    method KeyDown(key: Key)
      requires Valid()
      modifies this`dir
      ensures Valid()
      ensures dir == Steer(old(dir), key, 1)
    {
      KeyKeepsInv(Current(), key);
      if key == ArrowUp && dir.y != 1 {
        dir := Cell(0, -1);
      } else if key == ArrowDown && dir.y != -1 {
        dir := Cell(0, 1);
      } else if key == ArrowLeft && dir.x != 1 {
        dir := Cell(-1, 0);
      } else if key == ArrowRight && dir.x != -1 {
        dir := Cell(1, 0);
      }
    }

    method CheckCollisions() returns (hit: bool)
      requires Valid()
      ensures hit <==> Collides(snake, Canvas())
    {
      var head := snake[0];
      if head.x < 0 || head.x >= width || head.y < 0 || head.y >= height {
        return true;
      }
      hit := ScanForHead(snake);
    }

    /**
     * One tick. `finalScore` is the score after the move, which the page
     * reports when the tick ends the game.
     */
    method GameLoop(eatDraws: seq<Draw>, resetDraws: seq<Draw>) returns (over: bool, finalScore: int)
      requires Valid() && CanTick(Current(), Canvas(), eatDraws, resetDraws)
      modifies this`snake, this`dir, this`score, this`food
      ensures Valid()
      ensures over <==> EndsGame(old(Current()), Canvas())
      ensures finalScore == AfterMove(old(Current()), Canvas(), eatDraws).score
      ensures Current() == AfterTick(old(Current()), Canvas(), eatDraws, resetDraws)
    {
      UpdateSnake(eatDraws);
      finalScore := score;
      over := CheckCollisions();
      if over {
        score := 0;
        snake := [Start];
        dir := StartHeading;
        GenerateFood(resetDraws);
        return;
      }
    }

    /**
     * The Start button: the chosen level's settings, then the fresh food of
     * startGame on the new grid. The snake, heading and score are left as
     * they are; only a head on the start cell puts a hard game out of step.
     */
    method StartClicked(level: string, draws: seq<Draw>)
      requires Valid()
      requires HasFree(Board(width, height, Difficulty(level).gridSize).Spots(draws), snake)
      modifies this`gridSize, this`gameSpeed, this`food
      ensures Valid()
      ensures Setting(gridSize, gameSpeed) == Difficulty(level)
      ensures snake == old(snake) && dir == old(dir) && score == old(score)
      ensures food == GeneratedFood(draws, snake, Canvas())
      ensures level == "hard" && snake[0] == Start ==> OutOfStep(Current(), gridSize)
    {
      SetDifficulty(level);
      GenerateFood(draws);
      if level == "hard" && snake[0] == Start {
        HardFreshFoodOutOfStep(old(Current()), Canvas(), draws);
      }
    }

    method SetDifficulty(level: string)
      requires Valid()
      modifies this`gridSize, this`gameSpeed
      ensures Valid()
      ensures Setting(gridSize, gameSpeed) == Difficulty(level)
    {
      if level == "easy" {
        gridSize := 25;
        gameSpeed := 150;
      } else if level == "medium" {
        gridSize := 20;
        gameSpeed := 100;
      } else if level == "hard" {
        gridSize := 15;
        gameSpeed := 70;
      } else {
        gameSpeed := 100;
        gridSize := 20;
      }
    }
  }
}
