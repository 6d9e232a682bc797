/**
 * The Tetris rules on a board value: collision, settling a piece, the line-clear pass,
 * the score table and the auto-drop clock.  The in-place algorithms on the board array
 * are in module TetrisBoard and are proved against these functions.
 */
module Tetris {
  import opened Defs
  import opened Shapes

  /** A board value: Height rows of Width cells; 0 is empty, n > 0 is shape n - 1. */
  type Grid = seq<seq<int>>

  predicate Shaped(g: Grid) {
    |g| == Height && forall y :: 0 <= y < |g| ==> |g[y]| == Width
  }

  /** Every cell holds 0 (empty) or a marker shapeIndex + 1 of some catalog shape. */
  predicate Markers(g: Grid) {
    Shaped(g) && forall y, x :: 0 <= y < Height && 0 <= x < Width ==> 0 <= g[y][x] <= |Catalog|
  }

  function EmptyRow(): (row: seq<int>)
    ensures |row| == Width && forall x :: 0 <= x < Width ==> row[x] == 0
  {
    seq(Width, _ => 0)
  }

  /** `k` empty rows. */
  function Blank(k: nat): (rows: seq<seq<int>>)
    ensures |rows| == k && forall y :: 0 <= y < k ==> rows[y] == EmptyRow()
  {
    seq(k, _ => EmptyRow())
  }

  function EmptyGrid(): (g: Grid)
    ensures Markers(g)
  {
    Blank(Height)
  }

  // ---------------------------------------------------------------------
  // Collision (checkTetrisCollision)
  // ---------------------------------------------------------------------

  /** A cell a piece cannot occupy: off the board, or holding a settled marker. */
  predicate Blocked(g: Grid, x: int, y: int)
    requires Shaped(g)
  {
    !InBounds(x, y) || g[y][x] != 0
  }

  /** Some offset, placed at (gx, gy), is blocked; the loop of checkTetrisCollision. */
  function AnyBlocked(g: Grid, gx: int, gy: int, cells: seq<Cell>): bool
    requires Shaped(g)
    decreases |cells|
  {
    if cells == [] then false
    else Blocked(g, gx + cells[0].dx, gy + cells[0].dy) || AnyBlocked(g, gx, gy, cells[1..])
  }

  /** The scan finds a blocked offset exactly when one exists. */
  lemma {:induction false} AnyBlockedIff(g: Grid, gx: int, gy: int, cells: seq<Cell>)
    requires Shaped(g)
    ensures AnyBlocked(g, gx, gy, cells) <==>
      exists i :: 0 <= i < |cells| && Blocked(g, gx + cells[i].dx, gy + cells[i].dy)
    decreases |cells|
  {
    if cells != [] {
      AnyBlockedIff(g, gx, gy, cells[1..]);
      assert forall i :: 1 <= i < |cells| ==> cells[i] == cells[1..][i - 1];
      if Blocked(g, gx + cells[0].dx, gy + cells[0].dy) {
        assert 0 < |cells|;
      } else if AnyBlocked(g, gx, gy, cells[1..]) {
        var j :| 0 <= j < |cells[1..]| && Blocked(g, gx + cells[1..][j].dx, gy + cells[1..][j].dy);
        assert Blocked(g, gx + cells[j + 1].dx, gy + cells[j + 1].dy);
      }
    }
  }

  /** checkTetrisCollision: an unknown shape index always collides. */
  function Collides(g: Grid, gx: int, gy: int, shapeIndex: int, rotation: int): bool
    requires Shaped(g)
  {
    if shapeIndex < 0 || shapeIndex >= |Catalog| then true
    else AnyBlocked(g, gx, gy, PieceCells(shapeIndex, rotation))
  }

  /** The board cells a shape covers at a rotation, as offsets from the piece position. */
  function PieceCells(shapeIndex: int, rotation: int): (cells: seq<Cell>)
    requires 0 <= shapeIndex < |Catalog|
    ensures |cells| == 4
  {
    CatalogCellCount(shapeIndex);
    Rotated(Catalog[shapeIndex].cells, rotation)
  }

  /**
   * A placement collides exactly when the shape index is unknown, or some rotated cell
   * is off the board, or some rotated cell lands on a non-empty board cell.
   */
  lemma CollidesIff(g: Grid, gx: int, gy: int, shapeIndex: int, rotation: int)
    requires Shaped(g)
    ensures Collides(g, gx, gy, shapeIndex, rotation) <==>
      || !(0 <= shapeIndex < |Catalog|)
      || (exists i :: 0 <= i < 4 &&
            !InBounds(gx + PieceCells(shapeIndex, rotation)[i].dx, gy + PieceCells(shapeIndex, rotation)[i].dy))
      || (exists i :: 0 <= i < 4 &&
            InBounds(gx + PieceCells(shapeIndex, rotation)[i].dx, gy + PieceCells(shapeIndex, rotation)[i].dy) &&
            g[gy + PieceCells(shapeIndex, rotation)[i].dy][gx + PieceCells(shapeIndex, rotation)[i].dx] != 0)
  {
    if 0 <= shapeIndex < |Catalog| {
      var cells := PieceCells(shapeIndex, rotation);
      AnyBlockedIff(g, gx, gy, cells);
      BlockedSplit(g, gx, gy, cells);
    }
  }

  /** A blocked offset is either off the board or on an occupied board cell. */
  lemma BlockedSplit(g: Grid, gx: int, gy: int, cells: seq<Cell>)
    requires Shaped(g)
    ensures (exists i :: 0 <= i < |cells| && Blocked(g, gx + cells[i].dx, gy + cells[i].dy)) <==>
      || (exists i :: 0 <= i < |cells| && !InBounds(gx + cells[i].dx, gy + cells[i].dy))
      || (exists i :: 0 <= i < |cells| && InBounds(gx + cells[i].dx, gy + cells[i].dy) &&
            g[gy + cells[i].dy][gx + cells[i].dx] != 0)
  {
    if exists i :: 0 <= i < |cells| && Blocked(g, gx + cells[i].dx, gy + cells[i].dy) {
      var i :| 0 <= i < |cells| && Blocked(g, gx + cells[i].dx, gy + cells[i].dy);
      if InBounds(gx + cells[i].dx, gy + cells[i].dy) {
        assert g[gy + cells[i].dy][gx + cells[i].dx] != 0;
      }
    }
  }

  /** A placement that does not collide has every rotated cell on the board. */
  lemma FreePlacementInBounds(g: Grid, gx: int, gy: int, shapeIndex: int, rotation: int, i: int)
    requires Shaped(g) && !Collides(g, gx, gy, shapeIndex, rotation) && 0 <= i < 4
    ensures 0 <= shapeIndex < |Catalog|
    ensures InBounds(gx + PieceCells(shapeIndex, rotation)[i].dx, gy + PieceCells(shapeIndex, rotation)[i].dy)
  {
    var cells := PieceCells(shapeIndex, rotation);
    AnyBlockedIff(g, gx, gy, cells);
    assert !Blocked(g, gx + cells[i].dx, gy + cells[i].dy);
  }

  /** Every rotated cell of the placement is on the board and on an empty cell. */
  predicate Vacant(g: Grid, gx: int, gy: int, shapeIndex: int, rotation: int)
    requires Shaped(g) && 0 <= shapeIndex < |Catalog|
  {
    forall i :: 0 <= i < 4 ==>
      && InBounds(gx + PieceCells(shapeIndex, rotation)[i].dx, gy + PieceCells(shapeIndex, rotation)[i].dy)
      && g[gy + PieceCells(shapeIndex, rotation)[i].dy][gx + PieceCells(shapeIndex, rotation)[i].dx] == 0
  }

  /** A placement is free of collision exactly when its shape is known and it is vacant. */
  lemma FreeIffVacant(g: Grid, gx: int, gy: int, shapeIndex: int, rotation: int)
    requires Shaped(g)
    ensures !Collides(g, gx, gy, shapeIndex, rotation) <==> 0 <= shapeIndex < |Catalog| && Vacant(g, gx, gy, shapeIndex, rotation)
  {
    CollidesIff(g, gx, gy, shapeIndex, rotation);
  }

  /** A free placement is at most three rows below the board: the drop loop ends. */
  lemma FreeRowBound(g: Grid, gx: int, gy: int, shapeIndex: int, rotation: int)
    requires Shaped(g) && !Collides(g, gx, gy, shapeIndex, rotation)
    ensures gy < Height + 3
  {
    FreePlacementInBounds(g, gx, gy, shapeIndex, rotation, 0);
    RotatedCatalogBounded(shapeIndex, rotation, 0);
  }

  /** Every row in lo..hi is a free placement for the piece at column gx. */
  predicate FreeRows(g: Grid, gx: int, lo: int, hi: int, shapeIndex: int, rotation: int)
    requires Shaped(g)
    decreases hi - lo
  {
    lo > hi || (!Collides(g, gx, hi, shapeIndex, rotation) && FreeRows(g, gx, lo, hi - 1, shapeIndex, rotation))
  }

  lemma {:induction false} FreeRowsAt(g: Grid, gx: int, lo: int, hi: int, shapeIndex: int, rotation: int)
    requires Shaped(g) && FreeRows(g, gx, lo, hi, shapeIndex, rotation)
    ensures forall k :: lo <= k <= hi ==> !Collides(g, gx, k, shapeIndex, rotation)
    decreases hi - lo
  {
    if lo <= hi {
      FreeRowsAt(g, gx, lo, hi - 1, shapeIndex, rotation);
    }
  }

  /**
   * The row a piece dropped from row gy comes to rest on: the first row, going down,
   * whose next row collides.
   */
  function Landing(g: Grid, gx: int, gy: int, shapeIndex: int, rotation: int): (y: int)
    requires Shaped(g)
    ensures y >= gy && Collides(g, gx, y + 1, shapeIndex, rotation)
    decreases Height + 3 - gy
  {
    if Collides(g, gx, gy + 1, shapeIndex, rotation) then gy
    else
      FreeRowBound(g, gx, gy + 1, shapeIndex, rotation);
      Landing(g, gx, gy + 1, shapeIndex, rotation)
  }

  /** Every row the piece passes on its way down to the landing row is free. */
  lemma {:induction false} LandingPassesFreeRows(g: Grid, gx: int, gy: int, shapeIndex: int, rotation: int, k: int)
    requires Shaped(g) && gy < k <= Landing(g, gx, gy, shapeIndex, rotation)
    ensures !Collides(g, gx, k, shapeIndex, rotation)
    decreases Height + 3 - gy
  {
    LandingUnfold(g, gx, gy, shapeIndex, rotation);
    if k > gy + 1 {
      FreeRowBound(g, gx, gy + 1, shapeIndex, rotation);
      LandingPassesFreeRows(g, gx, gy + 1, shapeIndex, rotation, k);
    }
  }

  lemma LandingUnfold(g: Grid, gx: int, gy: int, shapeIndex: int, rotation: int)
    requires Shaped(g)
    ensures !Collides(g, gx, gy + 1, shapeIndex, rotation) <==> Landing(g, gx, gy, shapeIndex, rotation) > gy
    ensures !Collides(g, gx, gy + 1, shapeIndex, rotation) ==>
      Landing(g, gx, gy, shapeIndex, rotation) == Landing(g, gx, gy + 1, shapeIndex, rotation)
  {
  }

  /** Occupancy only grows from g to h. */
  predicate Covers(g: Grid, h: Grid)
    requires Shaped(g) && Shaped(h)
  {
    forall y, x :: 0 <= y < Height && 0 <= x < Width && g[y][x] != 0 ==> h[y][x] != 0
  }

  /**
   * Collision is monotonic: a placement rejected on a board stays rejected on any board
   * that occupies at least the same cells.
   */
  lemma CollidesMonotonic(g: Grid, h: Grid, gx: int, gy: int, shapeIndex: int, rotation: int)
    requires Shaped(g) && Shaped(h) && Covers(g, h)
    requires Collides(g, gx, gy, shapeIndex, rotation)
    ensures Collides(h, gx, gy, shapeIndex, rotation)
  {
    if 0 <= shapeIndex < |Catalog| {
      var cells := PieceCells(shapeIndex, rotation);
      AnyBlockedIff(g, gx, gy, cells);
      AnyBlockedIff(h, gx, gy, cells);
      var i :| 0 <= i < |cells| && Blocked(g, gx + cells[i].dx, gy + cells[i].dy);
      assert Blocked(h, gx + cells[i].dx, gy + cells[i].dy);
    }
  }

  // ---------------------------------------------------------------------
  // Settling a piece (first half of fixTetrisPiece)
  // ---------------------------------------------------------------------

  /** Writes marker m at (x, y) when that cell is on the board. */
  function Paint(g: Grid, x: int, y: int, m: int): (r: Grid)
    requires Shaped(g)
    ensures Shaped(r)
    ensures forall y', x' :: 0 <= y' < Height && 0 <= x' < Width ==>
              r[y'][x'] == if InBounds(x, y) && x' == x && y' == y then m else g[y'][x']
  {
    if InBounds(x, y) then g[y := g[y][x := m]] else g
  }

  /** The settle loop after the first |cells| iterations: every in-bounds cell painted with m. */
  function Settle(g: Grid, gx: int, gy: int, cells: seq<Cell>, m: int): (r: Grid)
    requires Shaped(g)
    ensures Shaped(r)
    decreases |cells|
  {
    if cells == [] then g
    else
      var n := |cells| - 1;
      Paint(Settle(g, gx, gy, cells[..n], m), gx + cells[n].dx, gy + cells[n].dy, m)
  }

  /** Some offset of `cells`, placed at (gx, gy), lands on (x, y). */
  predicate Lands(gx: int, gy: int, cells: seq<Cell>, x: int, y: int) {
    exists i :: 0 <= i < |cells| && gx + cells[i].dx == x && gy + cells[i].dy == y
  }

  /**
   * Settling writes m into exactly the in-bounds cells the piece covers and changes no
   * other cell.
   */
  lemma {:induction false} SettleAt(g: Grid, gx: int, gy: int, cells: seq<Cell>, m: int, x: int, y: int)
    requires Shaped(g) && InBounds(x, y)
    ensures Settle(g, gx, gy, cells, m)[y][x] == if Lands(gx, gy, cells, x, y) then m else g[y][x]
    decreases |cells|
  {
    if cells != [] {
      var n := |cells| - 1;
      SettleAt(g, gx, gy, cells[..n], m, x, y);
      if Lands(gx, gy, cells[..n], x, y) {
        var i :| 0 <= i < n && gx + cells[..n][i].dx == x && gy + cells[..n][i].dy == y;
        assert cells[i] == cells[..n][i];
      }
      if Lands(gx, gy, cells, x, y) && !(gx + cells[n].dx == x && gy + cells[n].dy == y) {
        var i :| 0 <= i < |cells| && gx + cells[i].dx == x && gy + cells[i].dy == y;
        assert i < n && cells[..n][i] == cells[i];
      }
    }
  }

  /** Settling a marker in 1..7 keeps every cell in 0..7. */
  lemma SettleKeepsMarkers(g: Grid, gx: int, gy: int, cells: seq<Cell>, m: int)
    requires Markers(g) && 1 <= m <= |Catalog|
    ensures Markers(Settle(g, gx, gy, cells, m))
  {
    forall y, x | 0 <= y < Height && 0 <= x < Width
      ensures 0 <= Settle(g, gx, gy, cells, m)[y][x] <= |Catalog|
    {
      SettleAt(g, gx, gy, cells, m, x, y);
    }
  }

  // ---------------------------------------------------------------------
  // Line clear (second half of fixTetrisPiece)
  // ---------------------------------------------------------------------

  /** A row with no empty cell. */
  predicate Full(row: seq<int>) {
    forall x :: 0 <= x < |row| ==> row[x] != 0
  }

  /** Number of full rows. */
  function FullCount(rows: seq<seq<int>>): nat
    decreases |rows|
  {
    if rows == [] then 0
    else FullCount(rows[..|rows| - 1]) + (if Full(rows[|rows| - 1]) then 1 else 0)
  }

  /** The rows that are not full, in their original order. */
  function KeptRows(rows: seq<seq<int>>): seq<seq<int>>
    decreases |rows|
  {
    if rows == [] then []
    else KeptRows(rows[..|rows| - 1]) + (if Full(rows[|rows| - 1]) then [] else [rows[|rows| - 1]])
  }

  lemma {:induction false} FullCountAppend(a: seq<seq<int>>, b: seq<seq<int>>)
    ensures FullCount(a + b) == FullCount(a) + FullCount(b)
    ensures KeptRows(a + b) == KeptRows(a) + KeptRows(b)
    decreases |b|
  {
    if b == [] {
      assert a + b == a;
    } else {
      var n := |b| - 1;
      assert (a + b)[..|a + b| - 1] == a + b[..n];
      FullCountAppend(a, b[..n]);
    }
  }

  /**
   * One clear at a full row y: rows 0..y-1 move down by one, row 0 becomes empty, rows
   * below y stay.
   */
  function Collapse(g: Grid, y: int): (r: Grid)
    requires Shaped(g) && 0 <= y < Height
    ensures Shaped(r)
  {
    [EmptyRow()] + g[..y] + g[y + 1..]
  }

  /** Cell by cell, a collapse reads the row above for rows 1..y and zero for row 0. */
  lemma CollapseAt(g: Grid, y: int)
    requires Shaped(g) && 0 <= y < Height
    ensures forall r, x :: 0 <= r < Height && 0 <= x < Width ==>
      Collapse(g, y)[r][x] == if r == 0 then 0 else if r <= y then g[r - 1][x] else g[r][x]
  {
  }

  /** A collapse at a full row removes exactly that full row. */
  lemma CollapseDropsFullRow(g: Grid, y: int)
    requires Shaped(g) && 0 <= y < Height && Full(g[y])
    ensures FullCount(Collapse(g, y)) + 1 == FullCount(g)
  {
    assert g == g[..y] + [g[y]] + g[y + 1..];
    FullCountAppend(g[..y] + [g[y]], g[y + 1..]);
    FullCountAppend(g[..y], [g[y]]);
    assert !Full(EmptyRow()) by { assert EmptyRow()[0] == 0; }
    FullCountAppend([EmptyRow()] + g[..y], g[y + 1..]);
    FullCountAppend([EmptyRow()], g[..y]);
    assert FullCount([g[y]]) == 1 by { assert [g[y]][..0] == []; }
    assert FullCount([EmptyRow()]) == 0 by { assert [EmptyRow()][..0] == []; }
  }

  /**
   * The line-clear loop from row y upwards with `n` lines counted so far: a full row is
   * collapsed and the same row index examined again; otherwise the scan moves up a row.
   */
  function Clearing(g: Grid, y: int, n: nat): (r: (Grid, nat))
    requires Shaped(g) && -1 <= y < Height
    ensures Shaped(r.0)
    decreases FullCount(g), y + 1
  {
    if y < 0 then (g, n)
    else if Full(g[y]) then
      CollapseDropsFullRow(g, y);
      Clearing(Collapse(g, y), y, n + 1)
    else Clearing(g, y - 1, n)
  }

  /** The whole line-clear pass, from the bottom row: the new board and linesCleared. */
  function ClearLines(g: Grid): (r: (Grid, nat))
    requires Shaped(g)
    ensures Shaped(r.0)
  {
    Clearing(g, Height - 1, 0)
  }

  lemma {:induction false} ClearingCompacts(g: Grid, y: int, n: nat)
    requires Shaped(g) && -1 <= y < Height
    requires forall r :: y < r < Height ==> !Full(g[r])
    ensures Clearing(g, y, n) ==
      (Blank(FullCount(g[..y + 1])) + KeptRows(g[..y + 1]) + g[y + 1..], n + FullCount(g[..y + 1]))
    decreases FullCount(g), y + 1
  {
    if y < 0 {
      assert g[..y + 1] == [] && g[y + 1..] == g;
      assert FullCount([]) == 0 && KeptRows([]) == [] && Blank(0) == [];
      assert Blank(0) + [] + g == g;
    } else if Full(g[y]) {
      var c := Collapse(g, y);
      CollapseDropsFullRow(g, y);
      assert forall r :: y < r < Height ==> c[r] == g[r];
      ClearingCompacts(c, y, n + 1);
      CompactAfterCollapse(g, y);
    } else {
      ClearingCompacts(g, y - 1, n);
      CompactKeepRow(g, y);
    }
  }

  /** The bookkeeping of moving the scan past a row that is not full. */
  lemma CompactKeepRow(g: Grid, y: int)
    requires Shaped(g) && 0 <= y < Height && !Full(g[y])
    ensures Blank(FullCount(g[..y])) + KeptRows(g[..y]) + g[y..] ==
              Blank(FullCount(g[..y + 1])) + KeptRows(g[..y + 1]) + g[y + 1..]
    ensures FullCount(g[..y]) == FullCount(g[..y + 1])
  {
    assert g[..y + 1] == g[..y] + [g[y]];
    FullCountAppend(g[..y], [g[y]]);
    assert [g[y]][..0] == [];
    assert g[y..] == [g[y]] + g[y + 1..];
    var b := Blank(FullCount(g[..y]));
    var kept := KeptRows(g[..y]);
    assert KeptRows(g[..y + 1]) == kept + [g[y]];
    calc {
      b + kept + ([g[y]] + g[y + 1..]);
      b + (kept + [g[y]]) + g[y + 1..];
    }
  }

  /** The bookkeeping of one collapse: the prefix gains an empty row and loses the full row y. */
  lemma CompactAfterCollapse(g: Grid, y: int)
    requires Shaped(g) && 0 <= y < Height && Full(g[y])
    ensures var c := Collapse(g, y);
      Blank(FullCount(c[..y + 1])) + KeptRows(c[..y + 1]) + c[y + 1..] ==
        Blank(FullCount(g[..y + 1])) + KeptRows(g[..y + 1]) + g[y + 1..] &&
      FullCount(c[..y + 1]) + 1 == FullCount(g[..y + 1])
  {
    var c := Collapse(g, y);
    assert c[..y + 1] == [EmptyRow()] + g[..y];
    assert c[y + 1..] == g[y + 1..];
    assert g[..y + 1] == g[..y] + [g[y]];
    FullCountAppend(g[..y], [g[y]]);
    FullCountAppend([EmptyRow()], g[..y]);
    assert !Full(EmptyRow()) by { assert EmptyRow()[0] == 0; }
    assert [g[y]][..0] == [] && [EmptyRow()][..0] == [];
    var k := FullCount(g[..y]);
    var kept := KeptRows(g[..y]);
    assert FullCount(c[..y + 1]) == k;
    assert KeptRows(c[..y + 1]) == [EmptyRow()] + kept;
    assert FullCount(g[..y + 1]) == k + 1;
    assert KeptRows(g[..y + 1]) == kept;
    assert Blank(k) + [EmptyRow()] == Blank(k + 1);
    calc {
      Blank(k) + ([EmptyRow()] + kept) + g[y + 1..];
      (Blank(k) + [EmptyRow()]) + kept + g[y + 1..];
      Blank(k + 1) + kept + g[y + 1..];
    }
  }

  /**
   * The "clear, shift, re-check" pass is plain compaction: the result is one empty row
   * per full row, then the rows that were not full in their original order, and
   * linesCleared is the number of full rows.
   */
  lemma ClearLinesCompacts(g: Grid)
    requires Shaped(g)
    ensures ClearLines(g) == (Blank(FullCount(g)) + KeptRows(g), FullCount(g))
  {
    ClearingCompacts(g, Height - 1, 0);
    assert g[..Height] == g && g[Height..] == [];
    var b := Blank(FullCount(g)) + KeptRows(g);
    assert b + [] == b;
  }

  lemma {:induction false} KeptRowsFacts(rows: seq<seq<int>>)
    ensures |KeptRows(rows)| + FullCount(rows) == |rows|
    ensures forall i :: 0 <= i < |KeptRows(rows)| ==> !Full(KeptRows(rows)[i]) && KeptRows(rows)[i] in rows
    ensures FullCount(rows) == 0 ==> KeptRows(rows) == rows
    decreases |rows|
  {
    if rows != [] {
      var n := |rows| - 1;
      KeptRowsFacts(rows[..n]);
      assert rows == rows[..n] + [rows[n]];
    }
  }

  /** No full row survives a line clear. */
  lemma ClearLinesLeavesNoFullRow(g: Grid)
    requires Shaped(g)
    ensures forall y :: 0 <= y < Height ==> !Full(ClearLines(g).0[y])
  {
    ClearLinesCompacts(g);
    KeptRowsFacts(g);
    assert !Full(EmptyRow()) by { assert EmptyRow()[0] == 0; }
    var k := FullCount(g);
    forall y | 0 <= y < Height
      ensures !Full(ClearLines(g).0[y])
    {
      if y >= k {
        assert ClearLines(g).0[y] == KeptRows(g)[y - k];
      }
    }
  }

  /** With no full row the pass leaves the board unchanged and clears nothing. */
  lemma ClearLinesNoFullRow(g: Grid)
    requires Shaped(g) && forall y :: 0 <= y < Height ==> !Full(g[y])
    ensures ClearLines(g) == (g, 0)
  {
    FullCountNone(g);
    ClearLinesCompacts(g);
    KeptRowsFacts(g);
    assert Blank(0) == [];
    assert Blank(0) + g == g;
  }

  lemma {:induction false} FullCountNone(rows: seq<seq<int>>)
    requires forall y :: 0 <= y < |rows| ==> !Full(rows[y])
    ensures FullCount(rows) == 0
    decreases |rows|
  {
    if rows != [] {
      FullCountNone(rows[..|rows| - 1]);
    }
  }

  /** Every row after the pass is empty or was a row of the input, so markers stay in 0..7. */
  lemma ClearLinesKeepsMarkers(g: Grid)
    requires Markers(g)
    ensures Markers(ClearLines(g).0)
  {
    ClearLinesCompacts(g);
    KeptRowsFacts(g);
    var r := ClearLines(g).0;
    var k := FullCount(g);
    forall y, x | 0 <= y < Height && 0 <= x < Width
      ensures 0 <= r[y][x] <= |Catalog|
    {
      if y >= k {
        assert r[y] == KeptRows(g)[y - k];
        var row := r[y];
        assert row in g;
        var j :| 0 <= j < |g| && g[j] == row;
        assert 0 <= g[j][x] <= |Catalog|;
      }
    }
  }

  /** Non-empty cells of a row and of a board. */
  function RowCells(row: seq<int>): nat
    decreases |row|
  {
    if row == [] then 0 else RowCells(row[..|row| - 1]) + (if row[|row| - 1] != 0 then 1 else 0)
  }

  function BoardCells(rows: seq<seq<int>>): nat
    decreases |rows|
  {
    if rows == [] then 0 else BoardCells(rows[..|rows| - 1]) + RowCells(rows[|rows| - 1])
  }

  lemma {:induction false} BoardCellsAppend(a: seq<seq<int>>, b: seq<seq<int>>)
    ensures BoardCells(a + b) == BoardCells(a) + BoardCells(b)
    decreases |b|
  {
    if b == [] {
      assert a + b == a;
    } else {
      assert (a + b)[..|a + b| - 1] == a + b[..|b| - 1];
      BoardCellsAppend(a, b[..|b| - 1]);
    }
  }

  lemma {:induction false} RowCellsFull(row: seq<int>)
    requires Full(row)
    ensures RowCells(row) == |row|
    decreases |row|
  {
    if row != [] {
      RowCellsFull(row[..|row| - 1]);
    }
  }

  lemma {:induction false} RowCellsEmpty(k: nat)
    ensures RowCells(seq(k, _ => 0)) == 0
    decreases k
  {
    if k > 0 {
      assert seq(k, _ => 0)[..k - 1] == seq(k - 1, _ => 0);
      RowCellsEmpty(k - 1);
    }
  }

  /**
   * The measure of the clear loop: each collapse of a full row removes exactly Width
   * non-empty cells from the board.
   */
  lemma CollapseRemovesRowOfCells(g: Grid, y: int)
    requires Shaped(g) && 0 <= y < Height && Full(g[y])
    ensures BoardCells(Collapse(g, y)) + Width == BoardCells(g)
  {
    assert g == g[..y] + [g[y]] + g[y + 1..];
    BoardCellsAppend(g[..y] + [g[y]], g[y + 1..]);
    BoardCellsAppend(g[..y], [g[y]]);
    BoardCellsAppend([EmptyRow()] + g[..y], g[y + 1..]);
    BoardCellsAppend([EmptyRow()], g[..y]);
    assert [g[y]][..0] == [] && [EmptyRow()][..0] == [];
    RowCellsFull(g[y]);
    RowCellsEmpty(Width);
  }

  // ---------------------------------------------------------------------
  // Score table and auto-drop clock
  // ---------------------------------------------------------------------

  /** Points awarded after a fix for the number of lines it cleared. */
  function LineBonus(lines: int): int {
    if lines <= 0 then 0
    else if lines == 1 then 100
    else if lines == 2 then 300
    else if lines == 3 then 500
    else 800
  }

  /**
   * No lines, no points; one, two and three lines earn 100, 300 and 500; four or more
   * earn 800; more lines never earn fewer points.
   */
  lemma LineBonusTable(a: int, b: int)
    requires a <= b
    ensures LineBonus(a) == 0 <==> a <= 0
    ensures LineBonus(1) == 100 && LineBonus(2) == 300 && LineBonus(3) == 500
    ensures a >= 4 ==> LineBonus(a) == 800
    ensures 0 <= LineBonus(a) <= LineBonus(b) <= 800
  {
  }

  /** The Uint32 difference currentTime - gLastTetrisDrop, which wraps modulo 2^32. */
  function Elapsed(now: U32, last: U32): (d: U32)
  {
    (now - last) % TwoTo32
  }

  /** The wrapped difference is the true elapsed time across one wrap of the tick counter. */
  lemma ElapsedWraps(now: U32, last: U32)
    ensures now >= last ==> Elapsed(now, last) == now - last
    ensures now < last ==> Elapsed(now, last) == now + TwoTo32 - last
  {
  }

  /** Spawn column of a new piece: BOARD_WIDTH / 2 - 1 (row 0, rotation 0). */
  const SpawnX: int := Width / 2 - 1
}
