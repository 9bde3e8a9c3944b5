/**
 * What the two variants of the game share: pixel cells and headings, the
 * arrow-key guard against reversing, the body update of one move (unshift a
 * new head, pop the tail unless the snake ate), the self-collision scan and
 * the grid-aligned cell a random draw selects.
 */
module Grid {

  /** A board position or a displacement, in pixels. */
  datatype Cell = Cell(x: int, y: int)

  function Plus(a: Cell, b: Cell): Cell
  {
    Cell(a.x + b.x, a.y + b.y)
  }

  function Neg(a: Cell): Cell
  {
    Cell(-a.x, -a.y)
  }

  /** The keys the handlers tell apart; any other key is `Other`. */
  datatype Key = ArrowUp | ArrowDown | ArrowLeft | ArrowRight | Other

  /** The heading an arrow key asks for, `step` pixels (or units) long. */
  function Heading(key: Key, step: int): Cell
    requires !key.Other?
  {
    match key
    case ArrowUp => Cell(0, -step)
    case ArrowDown => Cell(0, step)
    case ArrowLeft => Cell(-step, 0)
    case ArrowRight => Cell(step, 0)
  }

  /** `d` is one of the four axis headings of length `step`. */
  predicate IsAxis(d: Cell, step: int)
  {
    d == Cell(0, -step) || d == Cell(0, step) || d == Cell(-step, 0) || d == Cell(step, 0)
  }

  /**
   * The key handler of either variant: an arrow key replaces the heading
   * unless the current heading points the other way along the same axis.
   * The wall variant tests against 1 (unit headings), the wrap variant
   * against its box size; the chain of tests is the same.
   */
  function Steer(dir: Cell, key: Key, step: int): Cell
  {
    if key == ArrowUp && dir.y != step then Cell(0, -step)
    else if key == ArrowDown && dir.y != -step then Cell(0, step)
    else if key == ArrowLeft && dir.x != step then Cell(-step, 0)
    else if key == ArrowRight && dir.x != -step then Cell(step, 0)
    else dir
  }

  /**
   * Against a reference definition: from an axis heading or from standing
   * still, a key is taken exactly when it is an arrow whose heading is not
   * the reverse of the current one, and the heading stays an axis heading
   * (or still, when nothing was taken).
   */
  lemma SteerRejectsOnlyReversal(dir: Cell, key: Key, step: int)
    requires step > 0
    requires IsAxis(dir, step) || dir == Cell(0, 0)
    ensures Steer(dir, key, step) ==
              if !key.Other? && Heading(key, step) != Neg(dir) then Heading(key, step) else dir
    ensures IsAxis(Steer(dir, key, step), step) || Steer(dir, key, step) == dir
  {
    var r := Steer(dir, key, step);
    if key.Other? {
      assert r == dir;
    } else if dir == Cell(0, 0) {
      assert Heading(key, step) != Neg(dir);
      assert r == Heading(key, step);
    } else if dir == Cell(0, -step) {
      assert (Heading(key, step) == Neg(dir)) == (key == ArrowDown);
      assert r == if key == ArrowDown then dir else Heading(key, step);
    } else if dir == Cell(0, step) {
      assert (Heading(key, step) == Neg(dir)) == (key == ArrowUp);
      assert r == if key == ArrowUp then dir else Heading(key, step);
    } else if dir == Cell(-step, 0) {
      assert (Heading(key, step) == Neg(dir)) == (key == ArrowRight);
      assert r == if key == ArrowRight then dir else Heading(key, step);
    } else {
      assert dir == Cell(step, 0);
      assert (Heading(key, step) == Neg(dir)) == (key == ArrowLeft);
      assert r == if key == ArrowLeft then dir else Heading(key, step);
    }
  }

  /** From standing still every arrow key is taken. */
  lemma SteerFromStill(key: Key, step: int)
    requires step > 0 && !key.Other?
    ensures Steer(Cell(0, 0), key, step) == Heading(key, step)
  {
  }

  /**
   * The guard looks only at the current heading, and each key press updates
   * it at once: two presses before the next move turn the snake right round.
   */
  lemma TwoKeysCanReverse(step: int)
    requires step > 0
    ensures Steer(Steer(Cell(step, 0), ArrowUp, step), ArrowLeft, step) == Neg(Cell(step, 0))
  {
  }

  /**
   * One move of the body: the new head is put in front (`unshift`) and,
   * unless the snake grows, the last segment is dropped (`pop`).
   */
  function Slither(body: seq<Cell>, head: Cell, grow: bool): (r: seq<Cell>)
    requires |body| > 0
    ensures |r| == if grow then |body| + 1 else |body|
    ensures r[0] == head
    ensures forall i :: 1 <= i < |r| ==> r[i] == body[i - 1]
  {
    var pushed := [head] + body;
    if grow then pushed else pushed[..|pushed| - 1]
  }

  /** The head lies on some other segment of the body. */
  predicate SelfCollides(body: seq<Cell>)
  {
    |body| > 0 && exists i :: 1 <= i < |body| && body[i] == body[0]
  }

  /** The scan both variants run over the body, from index 1 to the tail. */
  method ScanForHead(body: seq<Cell>) returns (hit: bool)
    requires |body| > 0
    ensures hit <==> SelfCollides(body)
  {
    var i := 1;
    while i < |body|
      invariant 1 <= i <= |body|
      invariant forall j :: 1 <= j < i ==> body[j] != body[0]
    {
      if body[0] == body[i] {
        return true;
      }
      i := i + 1;
    }
    return false;
  }

  /**
   * The two `Math.random()` calls behind one food position: any naturals,
   * reduced to a column and a row of the board.
   */
  datatype Draw = Draw(col: nat, row: nat)

  /**
   * How many grid positions `k * size` lie in `[0, extent)`: the range of
   * `Math.floor(Math.random() * (extent / size))`.
   */
  function Slots(extent: int, size: int): (n: int)
    requires extent > 0 && size > 0
    ensures n >= 1 && (n - 1) * size < extent <= n * size
  {
    var n := (extent + size - 1) / size;
    assert n * size + (extent + size - 1) % size == extent + size - 1;
    n
  }

  lemma MulNonNegative(a: int, b: int)
    requires a >= 0 && b >= 0
    ensures a * b >= 0
  {
  }

  lemma MulMonotone(a: int, b: int, size: int)
    requires a <= b && size > 0
    ensures a * size <= b * size
  {
    MulNonNegative(b - a, size);
    assert (b - a) * size == b * size - a * size;
  }

  /** Euclidean division is the only way to write `a` as `q * size + r`. */
  lemma DivModUnique(a: int, size: int, q: int, r: int)
    requires size > 0 && a == q * size + r && 0 <= r < size
    ensures a / size == q && a % size == r
  {
    var q', r' := a / size, a % size;
    assert a == q' * size + r' && 0 <= r' < size;
    assert (q - q') * size == r' - r;
    if q - q' >= 1 {
      MulMonotone(1, q - q', size);
    } else if q - q' <= -1 {
      MulMonotone(q - q', -1, size);
    }
  }

  lemma MulDivides(k: int, size: int)
    requires size > 0
    ensures (k * size) % size == 0 && (k * size) / size == k
  {
    DivModUnique(k * size, size, k, 0);
  }

  /** A whole step along an axis does not change a coordinate's remainder. */
  lemma ShiftMod(v: int, d: int, size: int)
    requires size > 0 && -1 <= d <= 1
    ensures (v + d * size) % size == v % size
  {
    var q, r := v / size, v % size;
    assert v == q * size + r;
    if d == 1 {
      assert v + d * size == (q + 1) * size + r;
      DivModUnique(v + d * size, size, q + 1, r);
    } else if d == -1 {
      assert v + d * size == (q - 1) * size + r;
      DivModUnique(v + d * size, size, q - 1, r);
    }
  }

  lemma ScaledSlot(k: int, n: int, size: int, extent: int)
    requires size > 0 && 0 <= k < n && (n - 1) * size < extent
    ensures 0 <= k * size < extent && (k * size) % size == 0
  {
    MulNonNegative(k, size);
    MulMonotone(k, n - 1, size);
    MulDivides(k, size);
  }

  /** The coordinate a number drawn for one axis selects. */
  function Place(k: nat, extent: int, size: int): (v: int)
    requires extent > 0 && size > 0
    ensures 0 <= v < extent && v % size == 0
  {
    var n := Slots(extent, size);
    ScaledSlot(k % n, n, size, extent);
    k % n * size
  }

  /** A grid coordinate in `[0, extent)` is selected by its own slot number. */
  lemma PlaceOf(v: int, extent: int, size: int)
    requires extent > 0 && size > 0 && 0 <= v < extent && v % size == 0
    ensures Place(v / size, extent, size) == v
  {
    var n, k := Slots(extent, size), v / size;
    assert v == k * size;
    assert k < n by {
      if k >= n {
        MulMonotone(n, k, size);
      }
    }
    DivModUnique(k, n, 0, k);
    assert Place(k, extent, size) == k % n * size;
  }

  /** The grid-aligned board position a draw selects. */
  function Pick(d: Draw, width: int, height: int, size: int): (c: Cell)
    requires width > 0 && height > 0 && size > 0
    ensures 0 <= c.x < width && 0 <= c.y < height
    ensures c.x % size == 0 && c.y % size == 0
  {
    Cell(Place(d.col, width, size), Place(d.row, height, size))
  }

  /** Every grid position of the board is the pick of some draw. */
  lemma PickReachesEveryCell(c: Cell, width: int, height: int, size: int)
    requires width > 0 && height > 0 && size > 0
    requires 0 <= c.x < width && 0 <= c.y < height
    requires c.x % size == 0 && c.y % size == 0
    ensures Pick(Draw(c.x / size, c.y / size), width, height, size) == c
  {
    PlaceOf(c.x, width, size);
    PlaceOf(c.y, height, size);
  }
}
