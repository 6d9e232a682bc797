/**
 * The Snake rules of moveEntity, placeFoodRandom and the W/A/S/D keys of pollEvents,
 * stated over cell positions.  The entity records they act on live in module Store.
 */
module Snake {
  import opened Defs

  // ---------------------------------------------------------------------
  // Head movement with wrap-around
  // ---------------------------------------------------------------------

  /**
   * One wrap-around correction: a coordinate below 0 becomes size - 1, then one at or
   * above size becomes 0.  It is a single correction, not a modulo: it agrees with
   * v % size only for v in [-1, size].
   */
  function WrapStep(v: int, size: int): (r: int)
    ensures size > 0 ==> 0 <= r < size
    ensures size > 0 && -1 <= v <= size ==> r == v % size
  {
    var a := if v < 0 then size - 1 else v;
    if a >= size then 0 else a
  }

  /** Far outside the board the correction is not a modulo: -3 wraps to 9, not to 7. */
  lemma WrapStepIsNotModulo()
    ensures WrapStep(-3, Width) == Width - 1 && -3 % Width == Width - 3
  {
  }

  /** The head's next cell: one step in the current direction, wrapped onto the board. */
  function NextHead(p: Pos, dirX: int, dirY: int): (q: Pos)
    ensures InBounds(q.x, q.y)
  {
    Pos(WrapStep(p.x + dirX, Width), WrapStep(p.y + dirY, Height))
  }

  /** One step on the board is a step on the torus: the board's edges are glued together. */
  lemma NextHeadTorus(p: Pos, dirX: int, dirY: int)
    requires InBounds(p.x, p.y) && UnitDir(dirX, dirY)
    ensures NextHead(p, dirX, dirY) == Pos((p.x + dirX) % Width, (p.y + dirY) % Height)
  {
  }

  // ---------------------------------------------------------------------
  // Body
  // ---------------------------------------------------------------------

  /** The self-collision test: the cell holds a segment other than the head. */
  predicate HitsBody(cells: seq<Pos>, p: Pos) {
    exists i :: 1 <= i < |cells| && cells[i] == p
  }

  /** Each segment moves into the cell its predecessor held; the head moves to head. */
  function Shifted(cells: seq<Pos>, head: Pos): (r: seq<Pos>)
    requires |cells| >= 1
    ensures |r| == |cells| && r[0] == head
    ensures forall i :: 1 <= i < |r| ==> r[i] == cells[i - 1]
  {
    [head] + cells[..|cells| - 1]
  }

  /** After eating, a new tail segment is appended on the cell the old tail left. */
  function Grown(cells: seq<Pos>, head: Pos): (r: seq<Pos>)
    requires |cells| >= 1
  {
    Shifted(cells, head) + [cells[|cells| - 1]]
  }

  /** Growing keeps every cell the snake held and adds the new head in front. */
  lemma GrownKeepsBody(cells: seq<Pos>, head: Pos)
    requires |cells| >= 1
    ensures Grown(cells, head) == [head] + cells
  {
    assert cells[..|cells| - 1] + [cells[|cells| - 1]] == cells;
  }

  /** The cell freed by an ordinary step is the old tail, unless the body still covers it. */
  lemma ShiftedFreesTail(cells: seq<Pos>, head: Pos, p: Pos)
    requires |cells| >= 1
    ensures p in Shifted(cells, head) <==> p == head || p in cells[..|cells| - 1]
  {
  }

  // ---------------------------------------------------------------------
  // Food placement
  // ---------------------------------------------------------------------

  /** The number of candidate cells placeFoodRandom draws before it falls back to (0, 0). */
  const FoodDraws: nat := 101

  /** Candidate k: the (2k)th and (2k+1)th values of the rand stream, reduced to the board. */
  function Candidate(rand: nat -> nat, k: nat): (p: Pos)
    ensures InBounds(p.x, p.y)
  {
    Pos(rand(2 * k) % Width, rand(2 * k + 1) % Height)
  }

  /** The retry loop from candidate k on: the first candidate not on the snake, else (0, 0). */
  function FoodSearch(occ: seq<Pos>, rand: nat -> nat, k: nat): (p: Pos)
    ensures InBounds(p.x, p.y)
    ensures p !in occ || p == Pos(0, 0)
    decreases FoodDraws - k
  {
    if k >= FoodDraws then Pos(0, 0)
    else if Candidate(rand, k) !in occ then Candidate(rand, k)
    else FoodSearch(occ, rand, k + 1)
  }

  /** The cell placeFoodRandom chooses when the snake occupies occ. */
  function FoodSpot(occ: seq<Pos>, rand: nat -> nat): (p: Pos)
    ensures InBounds(p.x, p.y) && (p !in occ || p == Pos(0, 0))
  {
    FoodSearch(occ, rand, 0)
  }

  /** The search returns the first candidate off the snake. */
  lemma {:induction false} FoodSearchFirstFree(occ: seq<Pos>, rand: nat -> nat, k: nat, j: nat)
    requires k <= j < FoodDraws && Candidate(rand, j) !in occ
    requires forall i :: k <= i < j ==> Candidate(rand, i) in occ
    ensures FoodSearch(occ, rand, k) == Candidate(rand, j)
    decreases j - k
  {
    if k < j {
      FoodSearchFirstFree(occ, rand, k + 1, j);
    }
  }

  /** When every remaining candidate is on the snake the search falls back to (0, 0). */
  lemma {:induction false} FoodSearchFallback(occ: seq<Pos>, rand: nat -> nat, k: nat)
    requires forall i :: k <= i < FoodDraws ==> Candidate(rand, i) in occ
    ensures FoodSearch(occ, rand, k) == Pos(0, 0)
    decreases FoodDraws - k
  {
    if k < FoodDraws {
      FoodSearchFallback(occ, rand, k + 1);
    }
  }

  /** The on-snake scan of placeFoodRandom for one candidate. */
  method OnSnake(occ: seq<Pos>, c: Pos) returns (on: bool)
    ensures on <==> c in occ
  {
    var i := 0;
    while i < |occ|
      invariant 0 <= i <= |occ|
      invariant c !in occ[..i]
    {
      if occ[i] == c {
        return true;
      }
      assert occ[..i + 1] == occ[..i] + [occ[i]];
      i := i + 1;
    }
    assert occ[..i] == occ;
    return false;
  }

  /** placeFoodRandom: draw candidates until one is off the snake, at most FoodDraws times. */
  method PlaceFood(occ: seq<Pos>, rand: nat -> nat) returns (p: Pos)
    ensures p == FoodSpot(occ, rand)
  {
    var attempts: nat := 0;
    while true
      invariant attempts < FoodDraws
      invariant FoodSearch(occ, rand, attempts) == FoodSpot(occ, rand)
      decreases FoodDraws - attempts
    {
      var x := rand(2 * attempts) % Width;
      var y := rand(2 * attempts + 1) % Height;
      var on := OnSnake(occ, Pos(x, y));
      if !on {
        return Pos(x, y);
      }
      attempts := attempts + 1;
      if attempts > FoodDraws - 1 {
        return Pos(0, 0);
      }
    }
  }

  /**
   * The food relocation of moveEntity as written: the eaten food is placed while the
   * snake occupies only its shifted cells, before the new tail is appended.
   */
  function FoodAfterEatAsWritten(cells: seq<Pos>, head: Pos, rand: nat -> nat): (p: Pos)
    requires |cells| >= 1
    ensures InBounds(p.x, p.y)
    ensures p == Pos(0, 0) || p !in Shifted(cells, head)
  {
    FoodSpot(Shifted(cells, head), rand)
  }

  /**
   * A one-cell snake at (5, 5) moving right eats at (6, 5); if the first draw is
   * (5, 5) the food is put on the cell where the new tail segment then appears.
   */
  lemma AsWrittenFoodOnNewTail()
    ensures var cells := [Pos(5, 5)];
      var head := Pos(6, 5);
      var rand := (i: nat) => 5;
      FoodAfterEatAsWritten(cells, head, rand) == Pos(5, 5) && Pos(5, 5) in Grown(cells, head)
  {
    var cells := [Pos(5, 5)];
    var head := Pos(6, 5);
    var rand := (i: nat) => 5;
    assert Candidate(rand, 0) == Pos(5, 5);
    assert Shifted(cells, head) == [head];
    assert Grown(cells, head)[1] == Pos(5, 5);
  }

  /**
   * The relocation with the tail appended first: unless every draw was on the snake,
   * the new food is on no segment of the grown snake.
   */
  function FoodAfterEat(cells: seq<Pos>, head: Pos, rand: nat -> nat): (p: Pos)
    requires |cells| >= 1
    ensures InBounds(p.x, p.y)
    ensures p == Pos(0, 0) || (p != head && p !in cells)
  {
    GrownKeepsBody(cells, head);
    FoodSpot(Grown(cells, head), rand)
  }

  // ---------------------------------------------------------------------
  // Steering
  // ---------------------------------------------------------------------

  /** The direction is one unit step along one axis. */
  predicate UnitDir(dx: int, dy: int) {
    (dx == 0 && (dy == 1 || dy == -1)) || (dy == 0 && (dx == 1 || dx == -1))
  }

  /** The W, S, A and D keys. */
  datatype Heading = North | South | West | East

  function HeadingVector(h: Heading): (int, int) {
    match h
    case North => (0, -1)
    case South => (0, 1)
    case West => (-1, 0)
    case East => (1, 0)
  }

  /** W and S act only while moving horizontally, A and D only while moving vertically. */
  function Steer(dx: int, dy: int, h: Heading): (int, int) {
    match h
    case North => if dy == 0 then (0, -1) else (dx, dy)
    case South => if dy == 0 then (0, 1) else (dx, dy)
    case West => if dx == 0 then (-1, 0) else (dx, dy)
    case East => if dx == 0 then (1, 0) else (dx, dy)
  }

  /**
   * Steering keeps a unit direction, never reverses it, and honours a request exactly
   * when the request is not the reverse of the current direction.
   */
  lemma SteerNeverReverses(dx: int, dy: int, h: Heading)
    requires UnitDir(dx, dy)
    ensures UnitDir(Steer(dx, dy, h).0, Steer(dx, dy, h).1)
    ensures Steer(dx, dy, h) != (-dx, -dy)
    ensures Steer(dx, dy, h) == (dx, dy) || Steer(dx, dy, h) == HeadingVector(h)
    ensures Steer(dx, dy, h) == HeadingVector(h) <==> HeadingVector(h) != (-dx, -dy)
  {
  }
}
