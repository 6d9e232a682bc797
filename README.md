# Grid engine of ProyectoPracticoTlp (Tetris and Snake behind one entity API)

This project models the core of the engine in `ProyectoPracticoTlp/Entrega3/src/engine/api.cpp`.
The engine keeps a handful of globals:

- `gTetrisBoard`, a `BOARD_HEIGHT x BOARD_WIDTH` grid of settled cells;
- the entity store `gEntities` and the id counter `gNextId`;
- the score, the game-over flag, and the ids of the active Tetris piece and of the snake head;
- the snake's segment ids and direction;
- the tick of the last automatic drop.

Behind one entity API (`spawnBlock`, `moveEntity`, `rotateEntity`, `dropEntity`, the score
setters, `endGame`, `isGameEnded`, and the key handling of `pollEvents`) it runs two rulesets.
Tetris pieces fall, rotate, settle into the board, clear full rows and score. A snake wraps
around the board, dies on its own body, and eats food to grow.

The model has three layers.

- **Value specifications.** `Shapes`, `Tetris`, `Store` and `Snake` hold the shape catalog
  and rotation, the board as a value (collision, settling, line clearing, scoring), the
  entity store and its lookups, and the snake's movement and food placement.
- **One transition function per engine entry point.** `Game` holds all the globals as one
  value `World`, with a transition function for each entry point. The invariant `WorldOk`
  says:
  - board cells hold 0..7;
  - ids are distinct and below the counter;
  - the active piece is a live falling piece;
  - the snake's segments are live and distinct, head first.

  Every operation is proved to keep `WorldOk`. All but the reset, `setScore` and an
  `addScore` with a negative delta also keep `Progress`: the end flag never clears, score
  and counter never drop, entities are never removed, and the snake only grows at its
  tail. Outcome lemmas state what each operation does.
- **The in-place engine.** `TetrisBoard` runs the loops of the source on a fixed `array2`
  board, and each loop is proved equal to its value specification. `Api.Engine` is a class
  whose fields are the globals. Each public method is proved to leave exactly
  `Game.<Op>(old state)` and to keep the invariant.

Modelling choices:

- `BOARD_WIDTH` and `BOARD_HEIGHT` are defined in `engine/api.h`, which is not part of this
  model. They are fixed here at 10 and 20.
- Randomness is a parameter `rand: nat -> nat`: the successive values `std::rand()`
  returns during one call. `pollEvents` takes one such stream per step: the first for the
  auto drop, then one per key press.
- The clock is a parameter `now` of type `U32`. `SDL_GetTicks` is read once per poll.
- An entity's type string becomes a `Kind`. `TypeName` maps each kind back to its string.
- Eating follows the code's order: the food is placed while the snake holds only its shifted
  cells, and the new tail is appended afterwards. The order the code evidently intends is
  defined and proved on its own as `Snake.FoodAfterEat` (see Findings).

## Model

| member | source | states |
|---|---|---|
| Shapes.CatalogWellFormed | ProyectoPracticoTlp/Entrega3/src/engine/api.cpp:175-261 | there are seven shapes; each has four distinct cells with offsets in [0,3] x [0,1]; the shape names are distinct |
| Shapes.Rotated | ProyectoPracticoTlp/Entrega3/src/engine/api.cpp:266-280 | rotation keeps the number of cells; a rotation of 0 or less returns the cells unchanged |
| Shapes.RotatedPointwise | ProyectoPracticoTlp/Entrega3/src/engine/api.cpp:268-277 | after n passes, cell i is the input cell i turned n times by (x, y) -> (y, -x) |
| Shapes.RotatedPeriodic | ProyectoPracticoTlp/Entrega3/src/engine/api.cpp:266-280 | four quarter turns restore the offsets, so rotation n + 4 equals rotation n |
| Shapes.RotatedCatalogBounded | ProyectoPracticoTlp/Entrega3/src/engine/api.cpp:266-280 | under any rotation, catalog offsets stay within [-3,3] on both axes |
| Shapes.TurnEach | ProyectoPracticoTlp/Entrega3/src/engine/api.cpp:269-276 | one pass of the inner loop turns every offset once, in place |
| Shapes.RotateCells | ProyectoPracticoTlp/Entrega3/src/engine/api.cpp:266-280 | the nested loops return the offsets rotated `rotation` times |
| Tetris.CollidesIff | ProyectoPracticoTlp/Entrega3/src/engine/api.cpp:371-389 | a placement collides iff the shape index is out of range, some rotated cell is off the board, or some rotated cell lands on a non-zero board cell |
| Tetris.FreeIffVacant | ProyectoPracticoTlp/Entrega3/src/engine/api.cpp:371-389 | a placement is free iff the shape exists and all four of its cells are on the board and empty |
| Tetris.FreePlacementInBounds | ProyectoPracticoTlp/Entrega3/src/engine/api.cpp:371-389 | a free placement has a valid shape and every cell on the board |
| Tetris.CollidesMonotonic | ProyectoPracticoTlp/Entrega3/src/engine/api.cpp:371-389 | filling more board cells never turns a colliding placement into a free one |
| Tetris.Landing | ProyectoPracticoTlp/Entrega3/src/engine/api.cpp:994-996 | the landing row is at or below the start row, and the row below it collides |
| Tetris.LandingPassesFreeRows | ProyectoPracticoTlp/Entrega3/src/engine/api.cpp:994-996 | every row between the start row and the landing row is free |
| Tetris.SettleAt | ProyectoPracticoTlp/Entrega3/src/engine/api.cpp:397-406 | settling writes the marker into exactly the in-bounds cells the rotated piece covers and changes no other cell |
| Tetris.SettleKeepsMarkers | ProyectoPracticoTlp/Entrega3/src/engine/api.cpp:397-406 | settling a marker shapeIndex + 1 keeps every board cell in 0..7 |
| Tetris.CollapseAt | ProyectoPracticoTlp/Entrega3/src/engine/api.cpp:423-433 | one clear moves rows 0..y-1 down by one, zeroes row 0 and leaves the rows below y unchanged |
| Tetris.CollapseDropsFullRow | ProyectoPracticoTlp/Entrega3/src/engine/api.cpp:423-433 | clearing a full row leaves exactly one fewer full row |
| Tetris.CollapseRemovesRowOfCells | ProyectoPracticoTlp/Entrega3/src/engine/api.cpp:423-433 | each clear lowers the count of non-zero cells by exactly BOARD_WIDTH: the full row's cells go and every other marker is kept |
| Tetris.ClearLinesCompacts | ProyectoPracticoTlp/Entrega3/src/engine/api.cpp:413-437 | the bottom-up clear loop, with its re-check of the same row, yields one empty row per full row on top, then the non-full rows in their order; linesCleared is the number of full rows |
| Tetris.KeptRowsFacts | ProyectoPracticoTlp/Entrega3/src/engine/api.cpp:413-437 | the kept rows are the non-full input rows, and they plus the cleared rows account for every row |
| Tetris.ClearLinesLeavesNoFullRow | ProyectoPracticoTlp/Entrega3/src/engine/api.cpp:413-437 | no full row survives the clear loop |
| Tetris.ClearLinesNoFullRow | ProyectoPracticoTlp/Entrega3/src/engine/api.cpp:413-437 | with no full row, the board is unchanged and linesCleared is 0 |
| Tetris.ClearLinesKeepsMarkers | ProyectoPracticoTlp/Entrega3/src/engine/api.cpp:413-437 | clearing keeps every cell in 0..7 |
| Tetris.LineBonusTable | ProyectoPracticoTlp/Entrega3/src/engine/api.cpp:439-454 | no lines give no points; one, two and three lines give 100, 300 and 500; four or more give 800; more lines never give fewer points |
| Tetris.ElapsedWraps | ProyectoPracticoTlp/Entrega3/src/engine/api.cpp:512 | the Uint32 difference now - last is the plain difference when now >= last, and wraps by 2^32 otherwise |
| TetrisBoard.CheckCollision | ProyectoPracticoTlp/Entrega3/src/engine/api.cpp:371-389 | the early-return loop over the board array answers the collision predicate of the board's contents |
| TetrisBoard.LandingRow | ProyectoPracticoTlp/Entrega3/src/engine/api.cpp:994-996 | the fall loop of dropEntity stops at the landing row |
| TetrisBoard.ZeroBoard | ProyectoPracticoTlp/Entrega3/src/engine/api.cpp:567-571 | the clearing loops of initEngine leave every cell 0 |
| TetrisBoard.SettleCells | ProyectoPracticoTlp/Entrega3/src/engine/api.cpp:397-406 | the settle loop leaves the board array equal to the settled board value |
| TetrisBoard.RowIsFull | ProyectoPracticoTlp/Entrega3/src/engine/api.cpp:415-421 | the row scan answers whether every cell of row y is non-zero |
| TetrisBoard.CollapseRow | ProyectoPracticoTlp/Entrega3/src/engine/api.cpp:424-433 | the shift loops and the top-row clear leave the array equal to the collapsed board |
| TetrisBoard.ClearFullRows | ProyectoPracticoTlp/Entrega3/src/engine/api.cpp:413-437 | the in-place clear loop leaves the board, with the count it returns, equal to the clear specification |
| Store.TypeNameKinds | ProyectoPracticoTlp/Entrega3/src/engine/api.cpp:294-316 | the kind predicates on the stored type string agree with the entity's kind |
| Store.IndexOf | ProyectoPracticoTlp/Entrega3/src/engine/api.cpp:286-292 | the result is the first index holding the id, or none when no entry has it |
| Store.FindEntity | ProyectoPracticoTlp/Entrega3/src/engine/api.cpp:286-292 | the linear search returns the first entity with the id, or null |
| Store.HasFood | ProyectoPracticoTlp/Entrega3/src/engine/api.cpp:318-324 | the scan answers whether some entity is food |
| Store.FirstFoodAt | ProyectoPracticoTlp/Entrega3/src/engine/api.cpp:897-906 | the result is the first food entity on cell p, or none when no food is there |
| Store.FindFoodAt | ProyectoPracticoTlp/Entrega3/src/engine/api.cpp:897-906 | the willEat scan finds that same first food |
| Store.Relocate | ProyectoPracticoTlp/Entrega3/src/engine/api.cpp:916-925 | the shift keeps every id and index; only positions change, and unlisted entities stay |
| Store.RelocatePlaces | ProyectoPracticoTlp/Entrega3/src/engine/api.cpp:916-925 | after the shift, the listed entities stand exactly on the given cells, in list order |
| Store.CollectCells | ProyectoPracticoTlp/Entrega3/src/engine/api.cpp:908-914 | oldPos is the list of segment positions, head first |
| Store.HitsSegment | ProyectoPracticoTlp/Entrega3/src/engine/api.cpp:889-895 | the self-collision loop answers whether p is the cell of some segment at index 1 or later |
| Snake.WrapStep | ProyectoPracticoTlp/Entrega3/src/engine/api.cpp:883-886 | the corrected coordinate is on the board, and it equals the modulo while the stepped value is within one cell of the board |
| Snake.WrapStepIsNotModulo | ProyectoPracticoTlp/Entrega3/src/engine/api.cpp:883-886 | a head spawned off the board is not wrapped by modulo: -3 becomes BOARD_WIDTH - 1 |
| Snake.NextHead | ProyectoPracticoTlp/Entrega3/src/engine/api.cpp:879-886 | the new head cell is always on the board |
| Snake.NextHeadTorus | ProyectoPracticoTlp/Entrega3/src/engine/api.cpp:879-886 | from an on-board cell with a unit direction, the new head is (x + dirX, y + dirY) taken modulo the board size |
| Snake.Shifted | ProyectoPracticoTlp/Entrega3/src/engine/api.cpp:916-925 | the head takes the new cell, and segment i takes the old cell of segment i - 1 |
| Snake.GrownKeepsBody | ProyectoPracticoTlp/Entrega3/src/engine/api.cpp:916-948 | after a shift with the tail appended on the old tail cell, the snake covers the new head plus every cell it held |
| Snake.ShiftedFreesTail | ProyectoPracticoTlp/Entrega3/src/engine/api.cpp:916-925 | after a shift, a cell is under the snake iff it is the new head or one of the old cells except the tail |
| Snake.FoodSearch | ProyectoPracticoTlp/Entrega3/src/engine/api.cpp:326-351 | the placed cell is on the board and is either off the snake or (0,0) |
| Snake.FoodSearchFirstFree | ProyectoPracticoTlp/Entrega3/src/engine/api.cpp:328-343 | the first candidate off the snake is the one taken |
| Snake.FoodSearchFallback | ProyectoPracticoTlp/Entrega3/src/engine/api.cpp:344-348 | when every draw lands on the snake, the food goes to (0,0) |
| Snake.OnSnake | ProyectoPracticoTlp/Entrega3/src/engine/api.cpp:332-338 | the on-snake scan answers whether the candidate is a snake cell |
| Snake.PlaceFood | ProyectoPracticoTlp/Entrega3/src/engine/api.cpp:326-351 | the retry loop places the food where the search specification says |
| Snake.AsWrittenFoodOnNewTail | ProyectoPracticoTlp/Entrega3/src/engine/api.cpp:927-948 | as written, the relocated food can land on the cell where the new tail then appears |
| Snake.FoodAfterEatAsWritten | ProyectoPracticoTlp/Entrega3/src/engine/api.cpp:927-929 | the relocation as the code orders it: the food is on the board and either (0,0) or off the shifted snake, which does not yet hold the new tail |
| Snake.FoodAfterEat | ProyectoPracticoTlp/Entrega3/src/engine/api.cpp:927-948 | with the tail appended before placing, the food is on the board and either (0,0) or off the new head and off every old snake cell |
| Snake.SteerNeverReverses | ProyectoPracticoTlp/Entrega3/src/engine/api.cpp:650-676 | w/s/a/d keep a unit direction and never reverse it; a request is honoured iff it is not the reverse of the current direction |
| Game.Initial | ProyectoPracticoTlp/Entrega3/src/engine/api.cpp:553-571 | the reset state satisfies the engine invariant |
| Game.DrawShape | ProyectoPracticoTlp/Entrega3/src/engine/api.cpp:457 | rand() % 7 is a valid shape index |
| Game.Clamp | ProyectoPracticoTlp/Entrega3/src/engine/api.cpp:957-964 | a clamped coordinate is in [0, hi], and a coordinate already in range is unchanged |
| Game.NextRotation | ProyectoPracticoTlp/Entrega3/src/engine/api.cpp:983 | (rotation + 1) % 4 is a rotation in 0..3 |
| Game.ActiveIndex | ProyectoPracticoTlp/Entrega3/src/engine/api.cpp:607-609 | findEntity(gTetrisId) yields the store index of the active piece |
| Game.EnsureFoodKeepsOk | ProyectoPracticoTlp/Entrega3/src/engine/api.cpp:353-366 | ensureFoodExists keeps the invariant and only adds |
| Game.SpawnBlockKeepsOk | ProyectoPracticoTlp/Entrega3/src/engine/api.cpp:802-851 | every branch of spawnBlock keeps the invariant and only adds entities |
| Game.FixPieceKeepsOk | ProyectoPracticoTlp/Entrega3/src/engine/api.cpp:394-478 | fixTetrisPiece keeps the invariant, including board cells in 0..7 |
| Game.SettledOutcome | ProyectoPracticoTlp/Entrega3/src/engine/api.cpp:397-454 | the piece becomes Fixed in place; the board is the compacted settled board, with no full row; the score grows by the bonus for the full rows; no piece is active |
| Game.SpawnNextOutcome | ProyectoPracticoTlp/Entrega3/src/engine/api.cpp:456-477 | the respawn uses one id; a vacant spawn placement adds the piece as active, restarting the timer; otherwise the game ends and nothing is added |
| Game.FixPieceOutcome | ProyectoPracticoTlp/Entrega3/src/engine/api.cpp:394-478 | after a fix, the piece is Fixed, no full row is left, and the score has the bonus added; then either a new piece is active or the game is over with no entity added |
| Game.ShoveOutcome | ProyectoPracticoTlp/Entrega3/src/engine/api.cpp:864-874 | a move is taken only onto a vacant placement and changes nothing else; a blocked downward move fixes the piece; any other blocked move changes nothing |
| Game.ShoveKeepsOk | ProyectoPracticoTlp/Entrega3/src/engine/api.cpp:864-874 | moving a piece keeps the invariant |
| Game.TurnOutcome | ProyectoPracticoTlp/Entrega3/src/engine/api.cpp:979-988 | a turn is taken only onto a vacant placement; otherwise nothing changes |
| Game.TurnKeepsOk | ProyectoPracticoTlp/Entrega3/src/engine/api.cpp:979-988 | a turn keeps the invariant |
| Game.SoftDropKeepsOk | ProyectoPracticoTlp/Entrega3/src/engine/api.cpp:624-636 | the down arrow keeps the invariant |
| Game.DropEntityOutcome | ProyectoPracticoTlp/Entrega3/src/engine/api.cpp:990-999 | a hard drop lands on the last free row: every row passed is free, the next row collides, and the piece is fixed there |
| Game.DropEntityKeepsOk | ProyectoPracticoTlp/Entrega3/src/engine/api.cpp:990-999 | dropEntity keeps the invariant |
| Game.RotateEntityKeepsOk | ProyectoPracticoTlp/Entrega3/src/engine/api.cpp:979-988 | rotateEntity keeps the invariant |
| Game.MoveEntityKeepsOk | ProyectoPracticoTlp/Entrega3/src/engine/api.cpp:857-973 | every branch of moveEntity keeps the invariant and takes nothing back |
| Game.MoveOtherClamps | ProyectoPracticoTlp/Entrega3/src/engine/api.cpp:957-968 | food and body segments move only their own cell: it stays within [0, BOARD_WIDTH - w] x [0, BOARD_HEIGHT - h], it is (gx + dx, gy + dy) whenever that fits, and every other entity, the board, the score and the ids are unchanged |
| Game.SnakeStepKeepsOk | ProyectoPracticoTlp/Entrega3/src/engine/api.cpp:878-952 | a snake step keeps the invariant |
| Game.SnakeStepHitsBody | ProyectoPracticoTlp/Entrega3/src/engine/api.cpp:888-895 | when the new head cell holds a segment at index 1 or later, the game ends and no entity, segment, score or id changes |
| Game.SnakeStepShifts | ProyectoPracticoTlp/Entrega3/src/engine/api.cpp:908-925 | without food ahead, the head takes the new cell, segment i takes the old cell of segment i - 1, and the segment list and score stay |
| Game.SnakeStepEats | ProyectoPracticoTlp/Entrega3/src/engine/api.cpp:927-952 | on food, the snake grows by exactly one segment and covers the new head plus every cell it held (the tail stays on the old tail cell); the score rises by 1; the food moves to a board cell off the shifted snake or to (0,0), placed before the new tail is appended |
| Game.SnakeStepFoodOnNewTail | ProyectoPracticoTlp/Entrega3/src/engine/api.cpp:927-948 | from a valid state (a one-cell snake at (5,5) heading right, food at (6,5), every draw 5) a snake step leaves the food and the new tail segment on the same cell (5,5) |
| Game.AutoDropTiming | ProyectoPracticoTlp/Entrega3/src/engine/api.cpp:508-523 | nothing happens without an active piece or before DropInterval ticks; otherwise the drop tick becomes now |
| Game.AutoDropDue | ProyectoPracticoTlp/Entrega3/src/engine/api.cpp:508-523 | a due drop onto a vacant placement moves only the active piece, one row down; onto a blocked one it fixes the piece where it stands and leaves no full row; either way the drop tick becomes now |
| Game.AutoDropKeepsOk | ProyectoPracticoTlp/Entrega3/src/engine/api.cpp:508-523 | the auto drop keeps the invariant |
| Game.HandleKeyKeepsOk | ProyectoPracticoTlp/Entrega3/src/engine/api.cpp:603-676 | every key command keeps the invariant |
| Game.SteerKeyNeverReverses | ProyectoPracticoTlp/Entrega3/src/engine/api.cpp:650-676 | a w/s/a/d key keeps a unit direction, never reverses it, and touches neither the entities nor the board; with no snake it changes nothing |
| Game.SessionKeepsOk | ProyectoPracticoTlp/Entrega3/src/engine/api.cpp:787-796 | setScore sets the score and addScore adds exactly delta, both keeping the invariant; a non-negative delta never lowers the score; endGame sets the flag for good |
| Game.Drain | ProyectoPracticoTlp/Entrega3/src/engine/api.cpp:596-683 | the event loop keeps the invariant and takes nothing back; it answers false whenever Quit or Escape is queued, and otherwise exactly whether the game is not over |
| Game.Poll | ProyectoPracticoTlp/Entrega3/src/engine/api.cpp:591-684 | a poll keeps the invariant and takes nothing back; it answers false whenever Quit or Escape is queued, and otherwise exactly whether the game is not over (`!gGameEnded`) |
| Api.ShiftSegments | ProyectoPracticoTlp/Entrega3/src/engine/api.cpp:916-925 | the shift loops, finding each segment by id, leave the store equal to the relocation specification |
| Api.Engine.constructor | ProyectoPracticoTlp/Entrega3/src/engine/api.cpp:553-571 | a new engine is in the reset state, with an empty board |
| Api.Engine.Init | ProyectoPracticoTlp/Entrega3/src/engine/api.cpp:553-571 | the reset leaves the initial state and the invariant |
| Api.Engine.SetScore | ProyectoPracticoTlp/Entrega3/src/engine/api.cpp:787-790 | setScore takes the setScore step |
| Api.Engine.AddScore | ProyectoPracticoTlp/Entrega3/src/engine/api.cpp:792-796 | addScore takes the addScore step |
| Api.Engine.EndGame | ProyectoPracticoTlp/Entrega3/src/engine/api.cpp:1001-1004 | endGame sets the end flag and keeps the invariant |
| Api.Engine.IsGameEnded | ProyectoPracticoTlp/Entrega3/src/engine/api.cpp:975-977 | isGameEnded reports the game-over flag |
| Api.Engine.SpawnRandomPiece | ProyectoPracticoTlp/Entrega3/src/engine/api.cpp:483-503 | spawnRandomTetrisPiece adds the drawn piece at the spawn cell as the active piece and returns its id |
| Api.Engine.EnsureFood | ProyectoPracticoTlp/Entrega3/src/engine/api.cpp:353-366 | ensureFoodExists adds food only when there is none, placed off the snake, or at (0,0) after 101 draws on the snake |
| Api.Engine.SpawnHead | ProyectoPracticoTlp/Entrega3/src/engine/api.cpp:815-836 | the snake branch of spawnBlock |
| Api.Engine.SpawnFood | ProyectoPracticoTlp/Entrega3/src/engine/api.cpp:837-850 | the food branch of spawnBlock |
| Api.Engine.SpawnBlock | ProyectoPracticoTlp/Entrega3/src/engine/api.cpp:802-851 | spawnBlock takes the spawnBlock step, returns its id and keeps the invariant |
| Api.Engine.SpawnAfterFix | ProyectoPracticoTlp/Entrega3/src/engine/api.cpp:456-477 | the respawn after a fix |
| Api.Engine.FixPiece | ProyectoPracticoTlp/Entrega3/src/engine/api.cpp:394-478 | the in-place fix (settle loop, clear loop, bonus, respawn) takes the fixTetrisPiece step |
| Api.Engine.ShovePiece | ProyectoPracticoTlp/Entrega3/src/engine/api.cpp:864-874 | the piece branch of moveEntity |
| Api.Engine.FreePiece | ProyectoPracticoTlp/Entrega3/src/engine/api.cpp:868-870 | an accepted move changes only the piece's cell |
| Api.Engine.BlockedPiece | ProyectoPracticoTlp/Entrega3/src/engine/api.cpp:871-873 | a blocked move fixes the piece when dy > 0 and otherwise changes nothing |
| Api.Engine.TurnPiece | ProyectoPracticoTlp/Entrega3/src/engine/api.cpp:983-986 | a quarter turn when it is free |
| Api.Engine.SoftDropPiece | ProyectoPracticoTlp/Entrega3/src/engine/api.cpp:624-636 | the down arrow: one row down with a timer restart, or a fix |
| Api.Engine.RotateEntity | ProyectoPracticoTlp/Entrega3/src/engine/api.cpp:979-988 | rotateEntity takes the rotateEntity step and keeps the invariant |
| Api.Engine.DropEntity | ProyectoPracticoTlp/Entrega3/src/engine/api.cpp:990-999 | dropEntity takes the dropEntity step and keeps the invariant |
| Api.Engine.UpdateAutoDrop | ProyectoPracticoTlp/Entrega3/src/engine/api.cpp:508-523 | updateTetrisAutoDrop takes the auto-drop step and keeps the invariant |
| Api.Engine.StepSnake | ProyectoPracticoTlp/Entrega3/src/engine/api.cpp:878-952 | the snake-head branch of moveEntity takes the snake step, eating in the code's order |
| Api.Engine.Feed | ProyectoPracticoTlp/Entrega3/src/engine/api.cpp:927-948 | eating adds one point, places the food against the shifted snake, then appends the new tail, as the code does |
| Api.Engine.MoveEntity | ProyectoPracticoTlp/Entrega3/src/engine/api.cpp:857-973 | moveEntity takes the moveEntity step and keeps the invariant |
| Api.Engine.HandleKey | ProyectoPracticoTlp/Entrega3/src/engine/api.cpp:606-676 | each key command takes its step and keeps the invariant |
| Api.Engine.TakeEvent | ProyectoPracticoTlp/Entrega3/src/engine/api.cpp:597-681 | one queued event either stops polling or is handled, matching the event-loop specification |
| Api.Engine.PollEvents | ProyectoPracticoTlp/Entrega3/src/engine/api.cpp:591-684 | pollEvents takes the poll step, keeps the invariant and returns the poll's answer |

## Left out

- Every result that depends on the board size is proved only for the 10 x 20 board, since `engine/api.h` is not part of this model.
- Rendering and its font code (`drawDigit`, `drawScore`, `presentFrame`, `drawText`): presentation only.
- SDL setup and teardown in `initEngine` and `shutdownEngine`: environment I/O. Only the state reset is modelled.
- Console logging: it has no effect on the state.
- Reading events from SDL: the queued events are a parameter of `PollEvents`.
- Reading the clock: the tick count is a parameter of `PollEvents`.
- `std::rand` and `std::srand`: the values drawn are a parameter.
- `SDL_GetTicks` is read once per poll: the auto drop, the down-arrow timer restart and the respawn in a fix all see the same `now`.
- The entity's type string is not stored; a `Kind` stands for it. A Tetris piece's string is its shape name, which `TypeName` recovers from its shape index.
- The colour fields of the shapes are carried but never used.
- 32-bit overflow of `gScore`, `gNextId` and coordinate arithmetic is not modelled: integers are unbounded.
- The pointer `eatenFood` points into `gEntities` and is read for logging after a `push_back`, which may invalidate it. The model reads the food entity only before the push.
- A fixed piece is not removed: it stays in the store with kind `Fixed` (source lines 408-409).
- Food placement draws up to 101 candidates (the `++attempts > 100` test) before falling back to (0,0): `FoodDraws = 101`.
- Store.TypeNameKinds: the kind predicates are proved only on the strings the engine itself stores. `spawnBlock` can be given any string; a non-Tetris string creates a head or food regardless of its text.

## Findings

| source | as written | input that shows it | evidently intended | confidence | as-written member | corrected member |
|---|---|---|---|---|---|---|
| ProyectoPracticoTlp/Entrega3/src/engine/api.cpp:927-948 | after eating, `placeFoodRandom` runs before the new tail segment is appended, so it checks the food candidate only against the shifted snake | a one-cell snake at (5,5) moving right onto food at (6,5), with both draws returning 5: the food goes to (5,5), where the new tail is then appended | the eaten food moves to a cell off the whole grown snake (or to the (0,0) fallback) | medium; not executed | Game.SnakeStepFoodOnNewTail | Snake.FoodAfterEat |
