/** Shared constants and small value types of the engine. */
module Defs {

  /** BOARD_WIDTH and BOARD_HEIGHT: the fixed grid size (columns, rows). */
  const Width: int := 10
  const Height: int := 20

  /** TETRIS_DROP_INTERVAL, in milliseconds. */
  const DropInterval: int := 1000

  /** SDL's tick counter is an unsigned 32-bit value. */
  const TwoTo32: int := 0x1_0000_0000
  type U32 = x: int | 0 <= x < TwoTo32

  datatype Option<T> = None | Some(value: T)

  /** A grid cell (gx, gy); x grows to the right, y grows downwards. */
  datatype Pos = Pos(x: int, y: int)

  predicate InBounds(x: int, y: int) {
    0 <= x < Width && 0 <= y < Height
  }
}
