/**
 * The in-place algorithms on gTetrisBoard, a fixed BOARD_HEIGHT x BOARD_WIDTH array,
 * each proved against the board-value functions of module Tetris.
 */
module TetrisBoard {
  import opened Defs
  import opened Shapes
  import opened Tetris

  predicate Fits(board: array2<int>) {
    board.Length0 == Height && board.Length1 == Width
  }

  /** The contents of the board array as a board value. */
  ghost function GridOf(board: array2<int>): (g: Grid)
    reads board
    requires Fits(board)
    ensures Shaped(g)
    ensures forall y, x :: 0 <= y < Height && 0 <= x < Width ==> g[y][x] == board[y, x]
  {
    seq(Height, y requires 0 <= y < Height reads board =>
      seq(Width, x requires 0 <= x < Width reads board => board[y, x]))
  }

  lemma GridExt(a: Grid, b: Grid)
    requires Shaped(a) && Shaped(b)
    requires forall y, x :: 0 <= y < Height && 0 <= x < Width ==> a[y][x] == b[y][x]
    ensures a == b
  {
    forall y | 0 <= y < Height
      ensures a[y] == b[y]
    {
      assert forall x :: 0 <= x < Width ==> a[y][x] == b[y][x];
    }
  }

  /** checkTetrisCollision on the board array. */
  method CheckCollision(board: array2<int>, gx: int, gy: int, shapeIndex: int, rotation: int)
    returns (hit: bool)
    requires Fits(board)
    ensures hit == Collides(GridOf(board), gx, gy, shapeIndex, rotation)
  {
    if shapeIndex < 0 || shapeIndex >= |Catalog| {
      return true;
    }
    var cells := RotateCells(Catalog[shapeIndex].cells, rotation);
    assert cells == PieceCells(shapeIndex, rotation);
    ghost var g := GridOf(board);
    var i := 0;
    while i < |cells|
      invariant 0 <= i <= |cells|
      invariant AnyBlocked(g, gx, gy, cells[i..]) == AnyBlocked(g, gx, gy, cells)
    {
      var cx := gx + cells[i].dx;
      var cy := gy + cells[i].dy;
      assert cells[i..][1..] == cells[i + 1..];
      if cx < 0 || cx >= Width || cy < 0 || cy >= Height {
        return true;
      }
      if board[cy, cx] != 0 {
        return true;
      }
      i := i + 1;
    }
    return false;
  }

  /**
   * The loop of dropEntity: from row gy, move down while the next row is free.  The
   * result is the last row reached: the row below it collides and every row passed
   * on the way was free.
   */
  method LandingRow(board: array2<int>, gx: int, gy: int, shapeIndex: int, rotation: int)
    returns (y: int)
    requires Fits(board)
    ensures y == Landing(GridOf(board), gx, gy, shapeIndex, rotation)
  {
    ghost var g := GridOf(board);
    y := gy;
    var hit := CheckCollision(board, gx, y + 1, shapeIndex, rotation);
    while !hit
      invariant y >= gy
      invariant hit == Collides(g, gx, y + 1, shapeIndex, rotation)
      invariant Landing(g, gx, y, shapeIndex, rotation) == Landing(g, gx, gy, shapeIndex, rotation)
      decreases Height + 3 - y
    {
      FreeRowBound(g, gx, y + 1, shapeIndex, rotation);
      LandingUnfold(g, gx, y, shapeIndex, rotation);
      y := y + 1;
      hit := CheckCollision(board, gx, y + 1, shapeIndex, rotation);
    }
    LandingUnfold(g, gx, y, shapeIndex, rotation);
  }

  /** The board-clearing loop of initEngine: every cell set to 0. */
  method ZeroBoard(board: array2<int>)
    requires Fits(board)
    modifies board
    ensures GridOf(board) == EmptyGrid()
  {
    var y := 0;
    while y < Height
      invariant 0 <= y <= Height
      invariant forall r, c :: 0 <= r < y && 0 <= c < Width ==> board[r, c] == 0
    {
      var x := 0;
      while x < Width
        invariant 0 <= x <= Width
        invariant forall r, c :: 0 <= c < Width && (0 <= r < y || (r == y && c < x)) ==> board[r, c] == 0
      {
        board[y, x] := 0;
        x := x + 1;
      }
      y := y + 1;
    }
    GridExt(GridOf(board), EmptyGrid());
  }

  /** The settle loop of fixTetrisPiece: marker m written into every in-bounds covered cell. */
  method SettleCells(board: array2<int>, gx: int, gy: int, cells: seq<Cell>, m: int)
    requires Fits(board)
    modifies board
    ensures GridOf(board) == Settle(old(GridOf(board)), gx, gy, cells, m)
  {
    ghost var g0 := GridOf(board);
    var i := 0;
    while i < |cells|
      invariant 0 <= i <= |cells|
      invariant GridOf(board) == Settle(g0, gx, gy, cells[..i], m)
    {
      ghost var before := GridOf(board);
      var cx := gx + cells[i].dx;
      var cy := gy + cells[i].dy;
      if cx >= 0 && cx < Width && cy >= 0 && cy < Height {
        board[cy, cx] := m;
      }
      GridExt(GridOf(board), Paint(before, cx, cy, m));
      assert cells[..i + 1][..i] == cells[..i];
      i := i + 1;
    }
    assert cells[..|cells|] == cells;
  }

  /** The full-row scan of the clear loop. */
  method RowIsFull(board: array2<int>, y: int) returns (full: bool)
    requires Fits(board) && 0 <= y < Height
    ensures full == Full(GridOf(board)[y])
  {
    full := true;
    var x := 0;
    while x < Width
      invariant 0 <= x <= Width
      invariant forall c :: 0 <= c < x ==> board[y, c] != 0
    {
      if board[y, x] == 0 {
        full := false;
        break;
      }
      x := x + 1;
    }
    assert full ==> forall c :: 0 <= c < Width ==> GridOf(board)[y][c] != 0;
  }

  /** One clear: rows y..1 take the row above them, then row 0 is zeroed. */
  method CollapseRow(board: array2<int>, y: int)
    requires Fits(board) && 0 <= y < Height
    modifies board
    ensures GridOf(board) == Collapse(old(GridOf(board)), y)
  {
    ghost var g := GridOf(board);
    var yy := y;
    while yy > 0
      invariant 0 <= yy <= y
      invariant forall r, c :: 0 <= r < Height && 0 <= c < Width ==>
        board[r, c] == (if yy < r <= y then g[r - 1][c] else g[r][c])
    {
      var x := 0;
      while x < Width
        invariant 0 <= x <= Width
        invariant forall r, c :: 0 <= r < Height && 0 <= c < Width ==>
          board[r, c] == (if yy < r <= y || (r == yy && c < x) then g[r - 1][c] else g[r][c])
      {
        board[yy, x] := board[yy - 1, x];
        x := x + 1;
      }
      yy := yy - 1;
    }
    var x := 0;
    while x < Width
      invariant 0 <= x <= Width
      invariant forall r, c :: 0 <= r < Height && 0 <= c < Width ==>
        board[r, c] == (if r == 0 && c < x then 0 else if 1 <= r <= y then g[r - 1][c] else g[r][c])
    {
      board[0, x] := 0;
      x := x + 1;
    }
    CollapseAt(g, y);
    GridExt(GridOf(board), Collapse(g, y));
  }

  /**
   * The line-clear loop of fixTetrisPiece, bottom row first; after a clear the same row
   * is examined again.  Returns linesCleared.
   */
  method ClearFullRows(board: array2<int>) returns (lines: nat)
    requires Fits(board)
    modifies board
    ensures (GridOf(board), lines) == ClearLines(old(GridOf(board)))
  {
    ghost var g0 := GridOf(board);
    lines := 0;
    var y := Height - 1;
    while y >= 0
      invariant -1 <= y < Height
      invariant Clearing(GridOf(board), y, lines) == ClearLines(g0)
      decreases FullCount(GridOf(board)), y + 1
    {
      var full := RowIsFull(board, y);
      if full {
        ghost var before := GridOf(board);
        lines := lines + 1;
        CollapseRow(board, y);
        CollapseDropsFullRow(before, y);
        y := y + 1;
      }
      y := y - 1;
    }
  }
}
