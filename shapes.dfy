/** The shape catalog (initTetrisShapes) and the rotation of cell offsets (rotateCells). */
module Shapes {

  /** TetrisCell: an offset from the piece's grid position. */
  datatype Cell = Cell(dx: int, dy: int)

  /** TetrisShape: name, offsets at rotation 0 and display colour. */
  datatype Shape = Shape(name: string, cells: seq<Cell>, r: int, g: int, b: int)

  /** The seven shapes, in the order initTetrisShapes pushes them. */
  const Catalog: seq<Shape> := [
    Shape("I", [Cell(0, 0), Cell(1, 0), Cell(2, 0), Cell(3, 0)], 0, 255, 255),
    Shape("O", [Cell(0, 0), Cell(1, 0), Cell(0, 1), Cell(1, 1)], 255, 255, 0),
    Shape("T", [Cell(1, 0), Cell(0, 1), Cell(1, 1), Cell(2, 1)], 128, 0, 128),
    Shape("L", [Cell(2, 0), Cell(0, 1), Cell(1, 1), Cell(2, 1)], 255, 165, 0),
    Shape("J", [Cell(0, 0), Cell(0, 1), Cell(1, 1), Cell(2, 1)], 0, 0, 255),
    Shape("S", [Cell(1, 0), Cell(2, 0), Cell(0, 1), Cell(1, 1)], 0, 255, 0),
    Shape("Z", [Cell(0, 0), Cell(1, 0), Cell(1, 1), Cell(2, 1)], 255, 0, 0)
  ]

  /** Every shape has four distinct cells with offsets in [0,3] x [0,1], and the names are distinct. */
  lemma CatalogWellFormed()
    ensures |Catalog| == 7
    ensures forall s :: 0 <= s < |Catalog| ==> |Catalog[s].cells| == 4
    ensures forall s, i :: 0 <= s < |Catalog| && 0 <= i < |Catalog[s].cells| ==>
              0 <= Catalog[s].cells[i].dx <= 3 && 0 <= Catalog[s].cells[i].dy <= 1
    ensures forall s, i, j :: 0 <= s < |Catalog| && 0 <= i < j < |Catalog[s].cells| ==>
              Catalog[s].cells[i] != Catalog[s].cells[j]
    ensures forall s, t :: 0 <= s < t < |Catalog| ==> Catalog[s].name != Catalog[t].name
  {
  }

  /** Every shape has four cells (the single fact most users of the catalog need). */
  lemma CatalogCellCount(s: int)
    requires 0 <= s < |Catalog|
    ensures |Catalog[s].cells| == 4
  {
    CatalogWellFormed();
  }

  /** One quarter turn: (x, y) -> (y, -x). */
  function TurnCell(c: Cell): Cell {
    Cell(c.dy, -c.dx)
  }

  /** One pass of the inner loop of rotateCells: every offset turned once. */
  function TurnAll(cells: seq<Cell>): seq<Cell>
  {
    seq(|cells|, i requires 0 <= i < |cells| => TurnCell(cells[i]))
  }

  /** The offsets after `rotation` quarter turns; a rotation of zero or less leaves them as they are. */
  function Rotated(cells: seq<Cell>, rotation: int): (r: seq<Cell>)
    ensures |r| == |cells|
    ensures rotation <= 0 ==> r == cells
    decreases rotation
  {
    if rotation <= 0 then cells else TurnAll(Rotated(cells, rotation - 1))
  }

  /** `n` quarter turns of a single offset. */
  function Turns(c: Cell, n: int): Cell
    decreases n
  {
    if n <= 0 then c else TurnCell(Turns(c, n - 1))
  }

  /** Rotating a list of offsets rotates each offset on its own, by the same number of turns. */
  lemma {:induction false} RotatedPointwise(cells: seq<Cell>, n: int, i: int)
    requires 0 <= i < |cells|
    ensures Rotated(cells, n)[i] == Turns(cells[i], n)
    decreases n
  {
    if n > 0 {
      RotatedPointwise(cells, n - 1, i);
    }
  }

  /** Four quarter turns of an offset give the offset back, whatever turns came before. */
  lemma {:induction false} TurnsPeriodic(c: Cell, n: int)
    requires n >= 0
    ensures Turns(c, n + 4) == Turns(c, n)
    decreases n
  {
    if n > 0 {
      TurnsPeriodic(c, n - 1);
    } else {
      assert Turns(c, 4) == TurnCell(TurnCell(TurnCell(TurnCell(c))));
    }
  }

  /** Rotation is periodic with period 4: (rotation + 4) and rotation give the same offsets. */
  lemma RotatedPeriodic(cells: seq<Cell>, n: int)
    requires n >= 0
    ensures Rotated(cells, n + 4) == Rotated(cells, n)
  {
    forall i | 0 <= i < |cells|
      ensures Rotated(cells, n + 4)[i] == Rotated(cells, n)[i]
    {
      RotatedPointwise(cells, n + 4, i);
      RotatedPointwise(cells, n, i);
      TurnsPeriodic(cells[i], n);
    }
  }

  /** A quarter turn keeps both offset magnitudes within a bound when they were within it. */
  lemma {:induction false} TurnsBounded(c: Cell, n: int, m: int)
    requires -m <= c.dx <= m && -m <= c.dy <= m
    ensures -m <= Turns(c, n).dx <= m && -m <= Turns(c, n).dy <= m
    decreases n
  {
    if n > 0 {
      TurnsBounded(c, n - 1, m);
    }
  }

  /** Rotated catalog offsets stay within [-3, 3] in both coordinates. */
  lemma RotatedCatalogBounded(s: int, rotation: int, i: int)
    requires 0 <= s < |Catalog| && 0 <= i < 4
    ensures |Rotated(Catalog[s].cells, rotation)| == 4
    ensures -3 <= Rotated(Catalog[s].cells, rotation)[i].dx <= 3
    ensures -3 <= Rotated(Catalog[s].cells, rotation)[i].dy <= 3
  {
    CatalogWellFormed();
    RotatedPointwise(Catalog[s].cells, rotation, i);
    TurnsBounded(Catalog[s].cells[i], rotation, 3);
  }

  /** The inner loop of rotateCells: turns every offset of `cells` once. */
  method TurnEach(cells: seq<Cell>) returns (result: seq<Cell>)
    ensures result == TurnAll(cells)
  {
    result := cells;
    var i := 0;
    while i < |result|
      invariant 0 <= i <= |result| == |cells|
      invariant forall k :: 0 <= k < i ==> result[k] == TurnCell(cells[k])
      invariant forall k :: i <= k < |result| ==> result[k] == cells[k]
    {
      var oldX := result[i].dx;
      var oldY := result[i].dy;
      result := result[i := Cell(oldY, -oldX)];
      i := i + 1;
    }
  }

  /**
   * rotateCells: copies the offsets, then `rotation` times turns every offset in place.
   */
  method RotateCells(cells: seq<Cell>, rotation: int) returns (result: seq<Cell>)
    ensures result == Rotated(cells, rotation)
  {
    result := cells;
    var r := 0;
    while r < rotation
      invariant 0 <= r <= (if rotation < 0 then 0 else rotation)
      invariant result == Rotated(cells, r)
    {
      result := TurnEach(result);
      r := r + 1;
    }
  }
}
