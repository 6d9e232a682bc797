/**
 * The engine's global state as one value, and every engine operation as a function from
 * state to state.  The class in module Api keeps the same state in fields and a board
 * array, and each of its methods is proved to take the step the function here describes.
 */
module Game {
  import opened Defs
  import opened Shapes
  import opened Tetris
  import opened Store
  import opened Snake

  /**
   * The globals of the engine: the settled board, gEntities, the id counter, the score,
   * the game-over flag, the active piece and snake head ids (-1 when none), the snake's
   * segment ids from head to tail, its direction, and the tick of the last drop.
   */
  datatype World = World(
    grid: Grid, entities: seq<Entity>, nextId: int, score: int, ended: bool,
    tetrisId: int, snakeId: int, segments: seq<int>, dirX: int, dirY: int, lastDrop: U32)

  // ---------------------------------------------------------------------
  // The invariant the globals keep
  // ---------------------------------------------------------------------

  /**
   * The snake: no snake exactly when there are no segments; otherwise the first segment
   * is the head, the segments are distinct live entities, the first is the only
   * SnakeHead entity and the rest are SnakeBody entities.
   */
  predicate SnakeOk(es: seq<Entity>, snakeId: int, segs: seq<int>) {
    && (snakeId == -1 <==> segs == [])
    && (segs != [] ==> segs[0] == snakeId)
    && Distinct(segs)
    && AllPresent(es, segs)
    && (forall i :: 0 <= i < |segs| ==>
          Lookup(es, segs[i]).kind == (if i == 0 then SnakeHead else SnakeBody))
    && (forall i :: 0 <= i < |es| && es[i].kind.SnakeHead? ==> es[i].id == snakeId)
  }

  /** The active piece, when there is one, is a live falling piece. */
  predicate ActiveOk(es: seq<Entity>, tetrisId: int) {
    tetrisId != -1 ==> tetrisId in Ids(es) && Lookup(es, tetrisId).kind.Piece?
  }

  predicate WorldOk(w: World) {
    && Markers(w.grid)
    && StoreOk(w.entities, w.nextId)
    && ActiveOk(w.entities, w.tetrisId)
    && SnakeOk(w.entities, w.snakeId, w.segments)
    && UnitDir(w.dirX, w.dirY)
  }

  /**
   * What no engine operation takes back: the game-over flag stays set, the score and the
   * id counter never decrease, entities are never removed or renumbered, and the snake
   * only ever grows at its tail.
   */
  predicate Progress(w: World, r: World) {
    && (w.ended ==> r.ended)
    && w.score <= r.score
    && w.nextId <= r.nextId
    && w.segments <= r.segments
    && |w.entities| <= |r.entities|
    && forall i :: 0 <= i < |w.entities| ==> r.entities[i].id == w.entities[i].id
  }

  /** The state initEngine leaves. */
  function Initial(): (w: World)
    ensures WorldOk(w)
  {
    World(EmptyGrid(), [], 1, 0, false, -1, -1, [], 1, 0, 0)
  }

  // ---------------------------------------------------------------------
  // Spawning
  // ---------------------------------------------------------------------

  /** A new piece: one cell wide, at column BOARD_WIDTH / 2 - 1 of the top row, unrotated. */
  function NewPiece(id: int, shapeIndex: int): Entity {
    Entity(id, SpawnX, 0, 1, 1, Piece, shapeIndex, 0)
  }

  /** A one-cell entity of a non-Tetris kind. */
  function NewCell(id: int, p: Pos, kind: Kind): Entity {
    Entity(id, p.x, p.y, 1, 1, kind, -1, 0)
  }

  /** The draw of spawnRandomTetrisPiece and fixTetrisPiece: rand() % 7. */
  function DrawShape(rand: nat -> nat): (s: int)
    ensures 0 <= s < |Catalog|
  {
    rand(0) % |Catalog|
  }

  /** The cells of the snake's segments, head first. */
  function SnakeCells(w: World): seq<Pos>
    requires AllPresent(w.entities, w.segments)
  {
    CellsOf(w.entities, w.segments)
  }

  /** spawnRandomTetrisPiece: a random piece at the spawn cell becomes the active piece. */
  function SpawnRandomPiece(w: World, rand: nat -> nat, now: U32): (World, int) {
    var e := NewPiece(w.nextId, DrawShape(rand));
    (w.(entities := w.entities + [e], nextId := w.nextId + 1, tetrisId := e.id, lastDrop := now), e.id)
  }

  /** ensureFoodExists: when no food exists, add one at the cell placeFoodRandom picks. */
  function EnsureFood(w: World, rand: nat -> nat): World
    requires AllPresent(w.entities, w.segments)
  {
    if AnyFood(w.entities) then w
    else
      var f := NewCell(w.nextId, FoodSpot(SnakeCells(w), rand), Food);
      w.(entities := w.entities + [f], nextId := w.nextId + 1)
  }

  /**
   * spawnBlock: a Tetris type returns the active piece, or spawns one when there is
   * none; any other type creates the snake head at (x, y) when there is no snake yet
   * (and makes sure some food exists), and otherwise a food entity placed at random.
   */
  function SpawnBlock(w: World, t: string, x: int, y: int, rand: nat -> nat, now: U32): (World, int)
    requires AllPresent(w.entities, w.segments)
  {
    if IsTetrisType(t) then
      if w.tetrisId != -1 then (w, w.tetrisId) else SpawnRandomPiece(w, rand, now)
    else if w.snakeId == -1 then
      var head := NewCell(w.nextId, Pos(x, y), SnakeHead);
      var w1 := w.(entities := w.entities + [head], nextId := w.nextId + 1,
                   snakeId := head.id, segments := [head.id]);
      assert Ids(w1.entities) == Ids(w.entities) + [head.id];
      (EnsureFood(w1, rand), head.id)
    else
      var f := NewCell(w.nextId, FoodSpot(SnakeCells(w), rand), Food);
      (w.(entities := w.entities + [f], nextId := w.nextId + 1), f.id)
  }

  // ---------------------------------------------------------------------
  // Fixing a piece
  // ---------------------------------------------------------------------

  /** The board after the piece at index k settles its marker and full rows clear. */
  function SettledBoard(g: Grid, e: Entity): (r: (Grid, nat))
    requires Shaped(g) && 0 <= e.shapeIndex < |Catalog|
    ensures Shaped(r.0)
  {
    ClearLines(Settle(g, e.gx, e.gy, PieceCells(e.shapeIndex, e.rotation), e.shapeIndex + 1))
  }

  /**
   * The first half of fixTetrisPiece: the piece's cells on the board take its marker,
   * it becomes Fixed, there is no active piece, full rows clear and the cleared lines
   * score.
   */
  function Settled(w: World, k: int): World
    requires Shaped(w.grid) && 0 <= k < |w.entities| && 0 <= w.entities[k].shapeIndex < |Catalog|
  {
    var e := w.entities[k];
    var cleared := SettledBoard(w.grid, e);
    w.(grid := cleared.0, entities := w.entities[k := e.(kind := Fixed)], tetrisId := -1,
       score := w.score + LineBonus(cleared.1))
  }

  /**
   * The second half: a new piece of shape idx takes the next id; when it collides at
   * the spawn cell the game ends and the piece is not added (its id is still used up).
   */
  function SpawnNext(w: World, idx: int, now: U32): World
    requires Shaped(w.grid)
  {
    if Collides(w.grid, SpawnX, 0, idx, 0) then w.(nextId := w.nextId + 1, ended := true)
    else w.(entities := w.entities + [NewPiece(w.nextId, idx)], nextId := w.nextId + 1,
            tetrisId := w.nextId, lastDrop := now)
  }

  /** fixTetrisPiece; an entity without a shape is left alone. */
  function FixPiece(w: World, k: int, rand: nat -> nat, now: U32): World
    requires Shaped(w.grid) && 0 <= k < |w.entities| && w.entities[k].shapeIndex < |Catalog|
  {
    if w.entities[k].shapeIndex < 0 then w
    else SpawnNext(Settled(w, k), DrawShape(rand), now)
  }

  // ---------------------------------------------------------------------
  // Movement
  // ---------------------------------------------------------------------

  /** The clamp of moveEntity for other kinds: below 0 becomes 0, then above hi becomes hi. */
  function Clamp(v: int, hi: int): (r: int)
    ensures hi >= 0 ==> 0 <= r <= hi
    ensures 0 <= v <= hi ==> r == v
  {
    var a := if v < 0 then 0 else v;
    if a > hi then hi else a
  }

  /** Replace the entity at index k. */
  function Put(w: World, k: int, e: Entity): World
    requires 0 <= k < |w.entities|
  {
    w.(entities := w.entities[k := e])
  }

  /** Each segment takes its predecessor's cell and the head moves to h. */
  function Slither(w: World, h: Pos): World
    requires AllPresent(w.entities, w.segments) && w.segments != []
  {
    w.(entities := Relocate(w.entities, w.segments, Shifted(SnakeCells(w), h)))
  }

  /**
   * Eating the food at index f, in the order of the code: the score grows by one, the
   * food moves to a cell off the shifted snake, and then a tail segment is appended on
   * the old tail cell.
   */
  function Eat(w: World, cells: seq<Pos>, h: Pos, f: int, rand: nat -> nat): World
    requires 0 <= f < |w.entities| && |cells| >= 1
  {
    var es := w.entities + [NewCell(w.nextId, cells[|cells| - 1], SnakeBody)];
    var p := FoodAfterEatAsWritten(cells, h, rand);
    w.(entities := es[f := es[f].(gx := p.x, gy := p.y)], segments := w.segments + [w.nextId],
       nextId := w.nextId + 1, score := w.score + 1)
  }

  /**
   * One snake step: the head moves one cell in the current direction, wrapping at the
   * edges; hitting a body segment ends the game.  Otherwise the body follows and, on
   * food, the snake eats.
   */
  function SnakeStep(w: World, head: Entity, rand: nat -> nat): World
    requires AllPresent(w.entities, w.segments) && w.segments != []
  {
    var cells := SnakeCells(w);
    var h := NextHead(PosOf(head), w.dirX, w.dirY);
    if HitsBody(cells, h) then w.(ended := true)
    else match FirstFoodAt(w.entities, h)
      case None => Slither(w, h)
      case Some(f) => Eat(Slither(w, h), cells, h, f, rand)
  }

  /**
   * A piece moved by (dx, dy): it takes the new placement when that is free; a blocked
   * move downwards fixes it, any other blocked move leaves it.
   */
  function Shove(w: World, k: int, dx: int, dy: int, rand: nat -> nat, now: U32): World
    requires Shaped(w.grid) && 0 <= k < |w.entities| && w.entities[k].shapeIndex < |Catalog|
  {
    var e := w.entities[k];
    if !Collides(w.grid, e.gx + dx, e.gy + dy, e.shapeIndex, e.rotation) then
      Put(w, k, e.(gx := e.gx + dx, gy := e.gy + dy))
    else if dy > 0 then FixPiece(w, k, rand, now)
    else w
  }

  /** The next quarter turn of a rotation, (rotation + 1) % 4. */
  function NextRotation(rotation: int): (r: int)
    ensures 0 <= r < 4
  {
    (rotation + 1) % 4
  }

  /** A shape turned to rotation r when that placement is free. */
  function Turn(w: World, k: int, r: int): World
    requires Shaped(w.grid) && 0 <= k < |w.entities|
  {
    var e := w.entities[k];
    if Collides(w.grid, e.gx, e.gy, e.shapeIndex, r) then w else Put(w, k, e.(rotation := r))
  }

  /**
   * moveEntity: unknown ids and Fixed entities stay; a falling piece is shoved by
   * (dx, dy); the snake head takes a snake step (ignoring dx, dy); anything else moves
   * by (dx, dy) clamped to the board.
   */
  function MoveEntity(w: World, id: int, dx: int, dy: int, rand: nat -> nat, now: U32): World
    requires WorldOk(w)
  {
    match IndexOf(Ids(w.entities), id)
    case None => w
    case Some(k) =>
      var e := w.entities[k];
      if e.kind.Fixed? then w
      else if e.kind.Piece? && e.shapeIndex >= 0 then Shove(w, k, dx, dy, rand, now)
      else if e.kind.SnakeHead? then SnakeStep(w, e, rand)
      else Put(w, k, e.(gx := Clamp(e.gx + dx, Width - e.w), gy := Clamp(e.gy + dy, Height - e.h)))
  }

  /** rotateEntity: any entity with a shape turns a quarter when the turned placement is free. */
  function RotateEntity(w: World, id: int): World
    requires Shaped(w.grid)
  {
    match IndexOf(Ids(w.entities), id)
    case None => w
    case Some(k) => if w.entities[k].shapeIndex < 0 then w else Turn(w, k, NextRotation(w.entities[k].rotation))
  }

  /** dropEntity: any entity with a shape falls to its landing row and is fixed there. */
  function DropEntity(w: World, id: int, rand: nat -> nat, now: U32): World
    requires WorldOk(w)
  {
    match IndexOf(Ids(w.entities), id)
    case None => w
    case Some(k) =>
      var e := w.entities[k];
      if e.shapeIndex < 0 then w
      else FixPiece(Put(w, k, e.(gy := Landing(w.grid, e.gx, e.gy, e.shapeIndex, e.rotation))), k, rand, now)
  }

  // ---------------------------------------------------------------------
  // Auto drop and events
  // ---------------------------------------------------------------------

  /** The index of the active piece, when there is one. */
  function ActiveIndex(w: World): (r: Option<nat>)
    ensures r.Some? ==> r.value < |w.entities| && w.entities[r.value].id == w.tetrisId
  {
    if w.tetrisId == -1 then None else IndexOf(Ids(w.entities), w.tetrisId)
  }

  /**
   * updateTetrisAutoDrop: with an active piece and at least DropInterval ticks since the
   * last drop (unsigned difference), the piece steps down (or is fixed when blocked)
   * and the drop tick is now.
   */
  function AutoDrop(w: World, now: U32, rand: nat -> nat): World
    requires WorldOk(w)
  {
    if w.tetrisId == -1 || Elapsed(now, w.lastDrop) < DropInterval then w
    else
      var w1 := match ActiveIndex(w)
        case None => w
        case Some(k) => Shove(w, k, 0, 1, rand, now);
      w1.(lastDrop := now)
  }

  datatype Key = Escape | LeftArrow | RightArrow | DownArrow | UpArrow | Letter(h: Heading) | OtherKey

  datatype Event = Quit | KeyDown(key: Key) | OtherEvent

  /** The down arrow: one row down restarting the drop timer, or fixed when blocked. */
  function SoftDrop(w: World, k: int, rand: nat -> nat, now: U32): World
    requires Shaped(w.grid) && 0 <= k < |w.entities| && w.entities[k].shapeIndex < |Catalog|
  {
    var e := w.entities[k];
    if !Collides(w.grid, e.gx, e.gy + 1, e.shapeIndex, e.rotation) then
      Put(w, k, e.(gy := e.gy + 1)).(lastDrop := now)
    else FixPiece(w, k, rand, now)
  }

  /** One key press of pollEvents other than Escape. */
  function HandleKey(w: World, key: Key, rand: nat -> nat, now: U32): World
    requires WorldOk(w)
  {
    match key
    case LeftArrow =>
      (match ActiveIndex(w)
       case None => w
       case Some(k) => Shove(w, k, -1, 0, rand, now))
    case RightArrow =>
      (match ActiveIndex(w)
       case None => w
       case Some(k) => Shove(w, k, 1, 0, rand, now))
    case DownArrow =>
      (match ActiveIndex(w)
       case None => w
       case Some(k) => SoftDrop(w, k, rand, now))
    case UpArrow =>
      (match ActiveIndex(w)
       case None => w
       case Some(k) => Turn(w, k, NextRotation(w.entities[k].rotation)))
    case Letter(h) =>
      if w.snakeId == -1 then w
      else
        var d := Steer(w.dirX, w.dirY, h);
        w.(dirX := d.0, dirY := d.1)
    case Escape => w
    case OtherKey => w
  }

  // ---------------------------------------------------------------------
  // Updates that keep the invariant
  // ---------------------------------------------------------------------

  /** es2 differs from es at most in positions and in rotations that stay within 0..3. */
  predicate Retouched(es: seq<Entity>, es2: seq<Entity>) {
    && |es2| == |es|
    && forall i :: 0 <= i < |es| ==>
         && es2[i].id == es[i].id && es2[i].kind == es[i].kind && es2[i].shapeIndex == es[i].shapeIndex
         && es2[i].w == es[i].w && es2[i].h == es[i].h && 0 <= es2[i].rotation < 4
  }

  lemma RetouchedLookup(es: seq<Entity>, es2: seq<Entity>, id: int)
    requires Retouched(es, es2) && id in Ids(es)
    ensures Ids(es2) == Ids(es) && Lookup(es2, id).kind == Lookup(es, id).kind
  {
    assert Ids(es2) == Ids(es);
  }

  /** Moving or turning entities keeps the store, the active piece and the snake well formed. */
  lemma RetouchedKeepsOk(w: World, es2: seq<Entity>)
    requires WorldOk(w) && Retouched(w.entities, es2)
    ensures WorldOk(w.(entities := es2))
    ensures Progress(w, w.(entities := es2))
  {
    var es := w.entities;
    assert Ids(es2) == Ids(es);
    if w.tetrisId != -1 {
      RetouchedLookup(es, es2, w.tetrisId);
    }
    forall i | 0 <= i < |w.segments|
      ensures Lookup(es2, w.segments[i]).kind == Lookup(es, w.segments[i]).kind
    {
      RetouchedLookup(es, es2, w.segments[i]);
    }
  }

  /** Appending a fresh one-cell entity that is not a snake head keeps the invariant. */
  lemma AppendKeepsOk(w: World, e: Entity)
    requires WorldOk(w) && e.id == w.nextId && EntityOk(e) && !e.kind.SnakeHead?
    ensures WorldOk(w.(entities := w.entities + [e], nextId := w.nextId + 1))
    ensures Progress(w, w.(entities := w.entities + [e], nextId := w.nextId + 1))
  {
    StoreAppend(w.entities, w.nextId, e);
    ActiveAppend(w.entities, w.tetrisId, e);
    SnakeAppend(w.entities, w.snakeId, w.segments, e);
  }

  lemma StoreAppend(es: seq<Entity>, nextId: int, e: Entity)
    requires StoreOk(es, nextId) && e.id == nextId && EntityOk(e)
    ensures StoreOk(es + [e], nextId + 1) && e.id !in Ids(es)
  {
    assert Ids(es + [e]) == Ids(es) + [e.id];
  }

  lemma ActiveAppend(es: seq<Entity>, tetrisId: int, e: Entity)
    requires ActiveOk(es, tetrisId) && Distinct(Ids(es)) && e.id !in Ids(es)
    ensures ActiveOk(es + [e], tetrisId)
  {
    if tetrisId != -1 {
      LookupAppend(es, e, tetrisId);
    }
  }

  lemma SnakeAppend(es: seq<Entity>, snakeId: int, segs: seq<int>, e: Entity)
    requires SnakeOk(es, snakeId, segs) && Distinct(Ids(es)) && e.id !in Ids(es) && !e.kind.SnakeHead?
    ensures SnakeOk(es + [e], snakeId, segs)
  {
    assert Ids(es + [e]) == Ids(es) + [e.id];
    forall i | 0 <= i < |segs|
      ensures Lookup(es + [e], segs[i]) == Lookup(es, segs[i])
    {
      LookupAppend(es, e, segs[i]);
    }
  }

  /** Fixing a piece or a settled shape in place keeps store and snake well formed. */
  lemma MarkFixedKeepsOk(w: World, k: int)
    requires WorldOk(w) && 0 <= k < |w.entities| && w.entities[k].shapeIndex >= 0
    ensures WorldOk(w.(entities := w.entities[k := w.entities[k].(kind := Fixed)], tetrisId := -1))
    ensures Progress(w, w.(entities := w.entities[k := w.entities[k].(kind := Fixed)], tetrisId := -1))
  {
    var es := w.entities;
    var es2 := es[k := es[k].(kind := Fixed)];
    assert Ids(es2) == Ids(es);
    forall i | 0 <= i < |w.segments|
      ensures Lookup(es2, w.segments[i]).kind == Lookup(es, w.segments[i]).kind
    {
      LookupUpdate(es, k, es2[k], w.segments[i]);
    }
  }

  lemma StoreBump(es: seq<Entity>, nextId: int)
    requires StoreOk(es, nextId)
    ensures StoreOk(es, nextId + 1)
  {
  }

  lemma SettledBoardMarkers(g: Grid, e: Entity)
    requires Markers(g) && 0 <= e.shapeIndex < |Catalog|
    ensures Markers(SettledBoard(g, e).0)
  {
    var settled := Settle(g, e.gx, e.gy, PieceCells(e.shapeIndex, e.rotation), e.shapeIndex + 1);
    SettleKeepsMarkers(g, e.gx, e.gy, PieceCells(e.shapeIndex, e.rotation), e.shapeIndex + 1);
    ClearLinesKeepsMarkers(settled);
  }

  // ---------------------------------------------------------------------
  // Every operation keeps the invariant
  // ---------------------------------------------------------------------

  lemma SettledKeepsOk(w: World, k: int)
    requires WorldOk(w) && 0 <= k < |w.entities| && w.entities[k].shapeIndex >= 0
    ensures WorldOk(Settled(w, k))
    ensures Progress(w, Settled(w, k))
  {
    SettledBoardMarkers(w.grid, w.entities[k]);
    MarkFixedKeepsOk(w, k);
    LineBonusTable(SettledBoard(w.grid, w.entities[k]).1, SettledBoard(w.grid, w.entities[k]).1);
  }

  lemma SpawnNextKeepsOk(w: World, idx: int, now: U32)
    requires WorldOk(w) && 0 <= idx < |Catalog|
    ensures WorldOk(SpawnNext(w, idx, now))
    ensures Progress(w, SpawnNext(w, idx, now))
  {
    var p := NewPiece(w.nextId, idx);
    if Collides(w.grid, SpawnX, 0, idx, 0) {
      StoreBump(w.entities, w.nextId);
    } else {
      AppendKeepsOk(w, p);
      StoreAppend(w.entities, w.nextId, p);
      LookupAppend(w.entities, p, p.id);
    }
  }

  lemma FixPieceKeepsOk(w: World, k: int, rand: nat -> nat, now: U32)
    requires WorldOk(w) && 0 <= k < |w.entities|
    ensures WorldOk(FixPiece(w, k, rand, now))
    ensures Progress(w, FixPiece(w, k, rand, now))
  {
    if w.entities[k].shapeIndex >= 0 {
      SettledKeepsOk(w, k);
      SpawnNextKeepsOk(Settled(w, k), DrawShape(rand), now);
    }
  }

  /** Moving or turning one entity keeps the invariant. */
  lemma PutKeepsOk(w: World, k: int, e: Entity)
    requires WorldOk(w) && 0 <= k < |w.entities|
    requires e == w.entities[k].(gx := e.gx, gy := e.gy, rotation := e.rotation) && 0 <= e.rotation < 4
    ensures WorldOk(Put(w, k, e))
    ensures Progress(w, Put(w, k, e))
  {
    assert Retouched(w.entities, w.entities[k := e]);
    RetouchedKeepsOk(w, w.entities[k := e]);
  }

  lemma EnsureFoodKeepsOk(w: World, rand: nat -> nat)
    requires WorldOk(w)
    ensures WorldOk(EnsureFood(w, rand))
    ensures Progress(w, EnsureFood(w, rand))
  {
    if !AnyFood(w.entities) {
      AppendKeepsOk(w, NewCell(w.nextId, FoodSpot(SnakeCells(w), rand), Food));
    }
  }

  /** The head spawnBlock creates when there is no snake. */
  lemma NewSnakeKeepsOk(w: World, head: Entity)
    requires WorldOk(w) && w.snakeId == -1 && head.id == w.nextId && EntityOk(head) && head.kind.SnakeHead?
    ensures WorldOk(w.(entities := w.entities + [head], nextId := w.nextId + 1,
                       snakeId := head.id, segments := [head.id]))
    ensures Progress(w, w.(entities := w.entities + [head], nextId := w.nextId + 1,
                          snakeId := head.id, segments := [head.id]))
  {
    var es := w.entities;
    StoreAppend(es, w.nextId, head);
    ActiveAppend(es, w.tetrisId, head);
    LookupAppend(es, head, head.id);
    assert Ids(es + [head]) == Ids(es) + [head.id];
    assert forall i :: 0 <= i < |es| ==> !es[i].kind.SnakeHead?;
  }

  lemma SpawnBlockKeepsOk(w: World, t: string, x: int, y: int, rand: nat -> nat, now: U32)
    requires WorldOk(w)
    ensures WorldOk(SpawnBlock(w, t, x, y, rand, now).0)
    ensures Progress(w, SpawnBlock(w, t, x, y, rand, now).0)
  {
    if IsTetrisType(t) {
      SpawnPieceKeepsOk(w, t, x, y, rand, now);
    } else if w.snakeId == -1 {
      SpawnSnakeKeepsOk(w, t, x, y, rand, now);
    } else {
      AppendKeepsOk(w, NewCell(w.nextId, FoodSpot(SnakeCells(w), rand), Food));
    }
  }

  lemma SpawnPieceKeepsOk(w: World, t: string, x: int, y: int, rand: nat -> nat, now: U32)
    requires WorldOk(w) && IsTetrisType(t)
    ensures WorldOk(SpawnBlock(w, t, x, y, rand, now).0)
    ensures Progress(w, SpawnBlock(w, t, x, y, rand, now).0)
  {
    if w.tetrisId == -1 {
      var p := NewPiece(w.nextId, DrawShape(rand));
      AppendKeepsOk(w, p);
      StoreAppend(w.entities, w.nextId, p);
      LookupAppend(w.entities, p, p.id);
    }
  }

  lemma SpawnSnakeKeepsOk(w: World, t: string, x: int, y: int, rand: nat -> nat, now: U32)
    requires WorldOk(w) && !IsTetrisType(t) && w.snakeId == -1
    ensures WorldOk(SpawnBlock(w, t, x, y, rand, now).0)
    ensures Progress(w, SpawnBlock(w, t, x, y, rand, now).0)
  {
    var head := NewCell(w.nextId, Pos(x, y), SnakeHead);
    var w1 := w.(entities := w.entities + [head], nextId := w.nextId + 1,
                 snakeId := head.id, segments := [head.id]);
    NewSnakeKeepsOk(w, head);
    assert SpawnBlock(w, t, x, y, rand, now).0 == EnsureFood(w1, rand);
    EnsureFoodKeepsOk(w1, rand);
  }

  /** A new tail segment appended to a snake keeps the invariant. */
  lemma GrowKeepsOk(w: World, tail: Entity)
    requires WorldOk(w) && w.segments != [] && tail.id == w.nextId && EntityOk(tail) && tail.kind.SnakeBody?
    ensures WorldOk(w.(entities := w.entities + [tail], nextId := w.nextId + 1, segments := w.segments + [tail.id]))
    ensures Progress(w, w.(entities := w.entities + [tail], nextId := w.nextId + 1, segments := w.segments + [tail.id]))
  {
    var es := w.entities;
    var segs := w.segments;
    StoreAppend(es, w.nextId, tail);
    ActiveAppend(es, w.tetrisId, tail);
    SnakeAppend(es, w.snakeId, segs, tail);
    LookupAppend(es, tail, tail.id);
    assert Ids(es + [tail]) == Ids(es) + [tail.id];
    assert tail.id !in segs;
    forall i | 0 <= i < |segs + [tail.id]|
      ensures (segs + [tail.id])[i] in Ids(es + [tail])
      ensures Lookup(es + [tail], (segs + [tail.id])[i]).kind == (if i == 0 then SnakeHead else SnakeBody)
    {
      if i < |segs| {
        assert (segs + [tail.id])[i] == segs[i];
      }
    }
  }

  lemma SlitherKeepsOk(w: World, h: Pos)
    requires WorldOk(w) && w.segments != []
    ensures WorldOk(Slither(w, h))
    ensures Progress(w, Slither(w, h))
  {
    var moved := Relocate(w.entities, w.segments, Shifted(SnakeCells(w), h));
    assert Retouched(w.entities, moved);
    RetouchedKeepsOk(w, moved);
  }

  lemma EatKeepsOk(w: World, cells: seq<Pos>, h: Pos, f: int, rand: nat -> nat)
    requires WorldOk(w) && w.segments != [] && 0 <= f < |w.entities| && |cells| >= 1
    ensures WorldOk(Eat(w, cells, h, f, rand))
    ensures Progress(w, Eat(w, cells, h, f, rand))
  {
    var tail := NewCell(w.nextId, cells[|cells| - 1], SnakeBody);
    GrowKeepsOk(w, tail);
    var wt := w.(entities := w.entities + [tail], nextId := w.nextId + 1, segments := w.segments + [tail.id]);
    var p := FoodAfterEatAsWritten(cells, h, rand);
    var es := w.entities + [tail];
    assert Retouched(es, es[f := es[f].(gx := p.x, gy := p.y)]);
    RetouchedKeepsOk(wt, es[f := es[f].(gx := p.x, gy := p.y)]);
  }

  lemma SnakeStepKeepsOk(w: World, head: Entity, rand: nat -> nat)
    requires WorldOk(w) && w.segments != []
    ensures WorldOk(SnakeStep(w, head, rand))
    ensures Progress(w, SnakeStep(w, head, rand))
  {
    var h := NextHead(PosOf(head), w.dirX, w.dirY);
    if !HitsBody(SnakeCells(w), h) {
      if FirstFoodAt(w.entities, h).None? {
        SlideKeepsOk(w, head, rand);
      } else {
        FeedKeepsOk(w, head, rand);
      }
    }
  }

  lemma SlideKeepsOk(w: World, head: Entity, rand: nat -> nat)
    requires WorldOk(w) && w.segments != []
    requires !HitsBody(SnakeCells(w), NextHead(PosOf(head), w.dirX, w.dirY))
    requires FirstFoodAt(w.entities, NextHead(PosOf(head), w.dirX, w.dirY)).None?
    ensures WorldOk(SnakeStep(w, head, rand))
    ensures Progress(w, SnakeStep(w, head, rand))
  {
    SlitherKeepsOk(w, NextHead(PosOf(head), w.dirX, w.dirY));
  }

  lemma FeedKeepsOk(w: World, head: Entity, rand: nat -> nat)
    requires WorldOk(w) && w.segments != []
    requires !HitsBody(SnakeCells(w), NextHead(PosOf(head), w.dirX, w.dirY))
    requires FirstFoodAt(w.entities, NextHead(PosOf(head), w.dirX, w.dirY)).Some?
    ensures WorldOk(SnakeStep(w, head, rand))
    ensures Progress(w, SnakeStep(w, head, rand))
  {
    SlitherKeepsOk(w, NextHead(PosOf(head), w.dirX, w.dirY));
    EatKeepsOk(Slither(w, NextHead(PosOf(head), w.dirX, w.dirY)), SnakeCells(w),
               NextHead(PosOf(head), w.dirX, w.dirY),
               FirstFoodAt(w.entities, NextHead(PosOf(head), w.dirX, w.dirY)).value, rand);
  }

  // ---------------------------------------------------------------------
  // What a snake step does
  // ---------------------------------------------------------------------

  /** Moving onto a body segment (its current cell, the tail's included) ends the game and moves nothing. */
  lemma SnakeStepHitsBody(w: World, head: Entity, rand: nat -> nat)
    requires AllPresent(w.entities, w.segments) && w.segments != []
    requires exists i :: 1 <= i < |w.segments| && SnakeCells(w)[i] == NextHead(PosOf(head), w.dirX, w.dirY)
    ensures SnakeStep(w, head, rand).ended
    ensures SnakeStep(w, head, rand).entities == w.entities && SnakeStep(w, head, rand).segments == w.segments
    ensures SnakeStep(w, head, rand).score == w.score && SnakeStep(w, head, rand).nextId == w.nextId
  {
  }

  /** A food entity is never one of the snake's segments. */
  lemma FoodNotSegment(w: World, f: int)
    requires WorldOk(w) && 0 <= f < |w.entities| && w.entities[f].kind.Food?
    ensures w.entities[f].id !in w.segments
  {
    LookupAt(w.entities, f);
  }

  /** Eating appends the tail entity after the snake's cells and puts the food where FoodAfterEatAsWritten says. */
  lemma EatPlaces(w: World, cells: seq<Pos>, h: Pos, f: int, rand: nat -> nat)
    requires Distinct(Ids(w.entities)) && AllPresent(w.entities, w.segments)
    requires w.nextId !in Ids(w.entities) && 0 <= f < |w.entities| && w.entities[f].id !in w.segments
    requires |cells| >= 1
    ensures AllPresent(Eat(w, cells, h, f, rand).entities, Eat(w, cells, h, f, rand).segments)
    ensures CellsOf(Eat(w, cells, h, f, rand).entities, Eat(w, cells, h, f, rand).segments)
            == CellsOf(w.entities, w.segments) + [cells[|cells| - 1]]
    ensures PosOf(Eat(w, cells, h, f, rand).entities[f]) == FoodAfterEatAsWritten(cells, h, rand)
  {
    var tail := NewCell(w.nextId, cells[|cells| - 1], SnakeBody);
    var es1 := w.entities + [tail];
    var p := FoodAfterEatAsWritten(cells, h, rand);
    var es2 := es1[f := es1[f].(gx := p.x, gy := p.y)];
    var segs := w.segments + [tail.id];
    LookupAppend(w.entities, tail, tail.id);
    forall i | 0 <= i < |segs|
      ensures segs[i] in Ids(es2) && PosOf(Lookup(es2, segs[i])) == (CellsOf(w.entities, w.segments) + [cells[|cells| - 1]])[i]
    {
      LookupUpdate(es1, f, es2[f], segs[i]);
      if i < |w.segments| {
        assert segs[i] == w.segments[i];
        LookupAppend(w.entities, tail, segs[i]);
      }
    }
  }

  /**
   * A step without food ahead: the segment list stays, segment i takes the cell segment
   * i - 1 held, the head takes the wrapped cell ahead, and the score stays.
   */
  lemma SnakeStepShifts(w: World, head: Entity, rand: nat -> nat)
    requires WorldOk(w) && w.segments != []
    requires !HitsBody(SnakeCells(w), NextHead(PosOf(head), w.dirX, w.dirY))
    requires FirstFoodAt(w.entities, NextHead(PosOf(head), w.dirX, w.dirY)).None?
    ensures SnakeStep(w, head, rand).segments == w.segments
    ensures SnakeStep(w, head, rand).score == w.score && !SnakeStep(w, head, rand).ended == !w.ended
    ensures AllPresent(SnakeStep(w, head, rand).entities, w.segments)
    ensures CellsOf(SnakeStep(w, head, rand).entities, w.segments)[0] == NextHead(PosOf(head), w.dirX, w.dirY)
    ensures forall i :: 1 <= i < |w.segments| ==>
              CellsOf(SnakeStep(w, head, rand).entities, w.segments)[i] == SnakeCells(w)[i - 1]
  {
    RelocatePlaces(w.entities, w.segments, Shifted(SnakeCells(w), NextHead(PosOf(head), w.dirX, w.dirY)));
  }

  /**
   * A step onto food: the snake grows by exactly one segment and now covers the cell ahead
   * plus every cell it held (the new tail sits on the old tail's cell), the score grows by
   * one, and the eaten food moves to a cell on the board off the shifted snake, or to
   * (0, 0); it is placed before the tail is appended, so it may share the new tail's cell.
   */
  lemma SnakeStepEats(w: World, head: Entity, rand: nat -> nat)
    requires WorldOk(w) && w.segments != []
    requires !HitsBody(SnakeCells(w), NextHead(PosOf(head), w.dirX, w.dirY))
    requires FirstFoodAt(w.entities, NextHead(PosOf(head), w.dirX, w.dirY)).Some?
    ensures var r := SnakeStep(w, head, rand);
      && |r.segments| == |w.segments| + 1
      && r.score == w.score + 1
      && AllPresent(r.entities, r.segments)
      && CellsOf(r.entities, r.segments) == [NextHead(PosOf(head), w.dirX, w.dirY)] + SnakeCells(w)
      && var food := PosOf(r.entities[FirstFoodAt(w.entities, NextHead(PosOf(head), w.dirX, w.dirY)).value]);
         && InBounds(food.x, food.y)
         && (food == Pos(0, 0) || food !in Shifted(SnakeCells(w), NextHead(PosOf(head), w.dirX, w.dirY)))
  {
    FeedSteps(w, head, rand);
    FoodNotSegment(w, FirstFoodAt(w.entities, NextHead(PosOf(head), w.dirX, w.dirY)).value);
    FeedGrows(w, NextHead(PosOf(head), w.dirX, w.dirY), FirstFoodAt(w.entities, NextHead(PosOf(head), w.dirX, w.dirY)).value, rand);
  }

  /**
   * The engine as written can put the eaten food under the new tail: a one-cell snake at
   * (5, 5) heading right eats the food at (6, 5) and every draw is 5, so the food goes to
   * (5, 5), the cell the appended tail segment then takes.
   */
  lemma SnakeStepFoodOnNewTail()
    ensures var w := World(EmptyGrid(), [NewCell(1, Pos(5, 5), SnakeHead), NewCell(2, Pos(6, 5), Food)],
                           3, 0, false, -1, 1, [1], 1, 0, 0);
      var r := SnakeStep(w, w.entities[0], (i: nat) => 5);
      && WorldOk(w)
      && r.segments == [1, 3] && |r.entities| == 3 && r.entities[1].kind.Food? && r.entities[2].id == 3
      && PosOf(r.entities[1]) == PosOf(r.entities[2]) == Pos(5, 5)
  {
    var w := World(EmptyGrid(), [NewCell(1, Pos(5, 5), SnakeHead), NewCell(2, Pos(6, 5), Food)],
                   3, 0, false, -1, 1, [1], 1, 0, 0);
    var rand := (i: nat) => 5;
    assert Ids(w.entities) == [1, 2];
    assert WorldOk(w);
    assert SnakeCells(w) == [Pos(5, 5)];
    var h := NextHead(Pos(5, 5), 1, 0);
    assert h == Pos(6, 5);
    assert !HitsBody(SnakeCells(w), h);
    assert FirstFoodAt(w.entities, h) == Some(1);
    AsWrittenFoodOnNewTail();
    var moved := Slither(w, h);
    assert moved.entities[1] == w.entities[1];
  }

  lemma FeedSteps(w: World, head: Entity, rand: nat -> nat)
    requires AllPresent(w.entities, w.segments) && w.segments != []
    requires !HitsBody(SnakeCells(w), NextHead(PosOf(head), w.dirX, w.dirY))
    requires FirstFoodAt(w.entities, NextHead(PosOf(head), w.dirX, w.dirY)).Some?
    ensures SnakeStep(w, head, rand)
            == Eat(Slither(w, NextHead(PosOf(head), w.dirX, w.dirY)), SnakeCells(w), NextHead(PosOf(head), w.dirX, w.dirY),
                   FirstFoodAt(w.entities, NextHead(PosOf(head), w.dirX, w.dirY)).value, rand)
  {
  }

  /** The body move before eating keeps the store facts Eat needs and lays the snake on the shifted cells. */
  lemma SlitherPlaces(w: World, h: Pos)
    requires Distinct(Ids(w.entities)) && Distinct(w.segments) && AllPresent(w.entities, w.segments) && w.segments != []
    ensures Ids(Slither(w, h).entities) == Ids(w.entities)
    ensures AllPresent(Slither(w, h).entities, w.segments)
    ensures CellsOf(Slither(w, h).entities, w.segments) == Shifted(SnakeCells(w), h)
  {
    RelocatePlaces(w.entities, w.segments, Shifted(SnakeCells(w), h));
  }

  lemma FeedGrows(w: World, h: Pos, f: int, rand: nat -> nat)
    requires Distinct(Ids(w.entities)) && Distinct(w.segments) && AllPresent(w.entities, w.segments) && w.segments != []
    requires w.nextId !in Ids(w.entities) && 0 <= f < |w.entities| && w.entities[f].id !in w.segments
    ensures var r := Eat(Slither(w, h), SnakeCells(w), h, f, rand);
      && |r.segments| == |w.segments| + 1
      && r.score == w.score + 1
      && AllPresent(r.entities, r.segments)
      && CellsOf(r.entities, r.segments) == [h] + SnakeCells(w)
      && (PosOf(r.entities[f]) == Pos(0, 0) || PosOf(r.entities[f]) !in Shifted(SnakeCells(w), h))
  {
    SlitherPlaces(w, h);
    EatPlaces(Slither(w, h), SnakeCells(w), h, f, rand);
    GrownKeepsBody(SnakeCells(w), h);
  }

  /** A live snake head means a snake with segments. */
  lemma HeadMeansSnake(w: World, k: int)
    requires WorldOk(w) && 0 <= k < |w.entities| && w.entities[k].kind.SnakeHead?
    ensures w.segments != [] && w.segments[0] == w.entities[k].id
  {
  }

  lemma ShoveFree(w: World, k: int, dx: int, dy: int, rand: nat -> nat, now: U32)
    requires Shaped(w.grid) && 0 <= k < |w.entities| && w.entities[k].shapeIndex < |Catalog|
    requires !Collides(w.grid, w.entities[k].gx + dx, w.entities[k].gy + dy, w.entities[k].shapeIndex, w.entities[k].rotation)
    ensures Shove(w, k, dx, dy, rand, now) == Put(w, k, w.entities[k].(gx := w.entities[k].gx + dx, gy := w.entities[k].gy + dy))
  {
  }

  lemma ShoveBlocked(w: World, k: int, dx: int, dy: int, rand: nat -> nat, now: U32)
    requires Shaped(w.grid) && 0 <= k < |w.entities| && w.entities[k].shapeIndex < |Catalog|
    requires Collides(w.grid, w.entities[k].gx + dx, w.entities[k].gy + dy, w.entities[k].shapeIndex, w.entities[k].rotation)
    ensures dy > 0 ==> Shove(w, k, dx, dy, rand, now) == FixPiece(w, k, rand, now)
    ensures dy <= 0 ==> Shove(w, k, dx, dy, rand, now) == w
  {
    assert Shove(w, k, dx, dy, rand, now) == if dy > 0 then FixPiece(w, k, rand, now) else w;
  }

  lemma ShoveKeepsOk(w: World, k: int, dx: int, dy: int, rand: nat -> nat, now: U32)
    requires WorldOk(w) && 0 <= k < |w.entities|
    ensures WorldOk(Shove(w, k, dx, dy, rand, now))
    ensures Progress(w, Shove(w, k, dx, dy, rand, now))
  {
    if !Collides(w.grid, w.entities[k].gx + dx, w.entities[k].gy + dy, w.entities[k].shapeIndex, w.entities[k].rotation) {
      ShoveFreeKeepsOk(w, k, dx, dy, rand, now);
    } else {
      ShoveBlockedKeepsOk(w, k, dx, dy, rand, now);
    }
  }

  lemma ShoveFreeKeepsOk(w: World, k: int, dx: int, dy: int, rand: nat -> nat, now: U32)
    requires WorldOk(w) && 0 <= k < |w.entities|
    requires !Collides(w.grid, w.entities[k].gx + dx, w.entities[k].gy + dy, w.entities[k].shapeIndex, w.entities[k].rotation)
    ensures WorldOk(Shove(w, k, dx, dy, rand, now))
    ensures Progress(w, Shove(w, k, dx, dy, rand, now))
  {
    PutKeepsOk(w, k, w.entities[k].(gx := w.entities[k].gx + dx, gy := w.entities[k].gy + dy));
    ShoveFree(w, k, dx, dy, rand, now);
  }

  lemma ShoveBlockedKeepsOk(w: World, k: int, dx: int, dy: int, rand: nat -> nat, now: U32)
    requires WorldOk(w) && 0 <= k < |w.entities|
    requires Collides(w.grid, w.entities[k].gx + dx, w.entities[k].gy + dy, w.entities[k].shapeIndex, w.entities[k].rotation)
    ensures WorldOk(Shove(w, k, dx, dy, rand, now))
    ensures Progress(w, Shove(w, k, dx, dy, rand, now))
  {
    ShoveBlocked(w, k, dx, dy, rand, now);
    FixPieceKeepsOk(w, k, rand, now);
  }

  lemma SoftDropFree(w: World, k: int, rand: nat -> nat, now: U32)
    requires Shaped(w.grid) && 0 <= k < |w.entities| && w.entities[k].shapeIndex < |Catalog|
    requires !Collides(w.grid, w.entities[k].gx, w.entities[k].gy + 1, w.entities[k].shapeIndex, w.entities[k].rotation)
    ensures SoftDrop(w, k, rand, now) == Put(w, k, w.entities[k].(gy := w.entities[k].gy + 1)).(lastDrop := now)
  {
  }

  lemma SoftDropBlocked(w: World, k: int, rand: nat -> nat, now: U32)
    requires Shaped(w.grid) && 0 <= k < |w.entities| && w.entities[k].shapeIndex < |Catalog|
    requires Collides(w.grid, w.entities[k].gx, w.entities[k].gy + 1, w.entities[k].shapeIndex, w.entities[k].rotation)
    ensures SoftDrop(w, k, rand, now) == FixPiece(w, k, rand, now)
  {
  }

  lemma SoftDropKeepsOk(w: World, k: int, rand: nat -> nat, now: U32)
    requires WorldOk(w) && 0 <= k < |w.entities|
    ensures WorldOk(SoftDrop(w, k, rand, now))
    ensures Progress(w, SoftDrop(w, k, rand, now))
  {
    var e := w.entities[k];
    if !Collides(w.grid, e.gx, e.gy + 1, e.shapeIndex, e.rotation) {
      SoftDropFreeKeepsOk(w, k, rand, now);
    } else {
      SoftDropBlocked(w, k, rand, now);
      FixPieceKeepsOk(w, k, rand, now);
    }
  }

  lemma SoftDropFreeKeepsOk(w: World, k: int, rand: nat -> nat, now: U32)
    requires WorldOk(w) && 0 <= k < |w.entities|
    requires !Collides(w.grid, w.entities[k].gx, w.entities[k].gy + 1, w.entities[k].shapeIndex, w.entities[k].rotation)
    ensures WorldOk(SoftDrop(w, k, rand, now))
    ensures Progress(w, SoftDrop(w, k, rand, now))
  {
    PutKeepsOk(w, k, w.entities[k].(gy := w.entities[k].gy + 1));
    SoftDropFree(w, k, rand, now);
  }

  lemma TurnKeepsOk(w: World, k: int, r: int)
    requires WorldOk(w) && 0 <= k < |w.entities| && 0 <= r < 4
    ensures WorldOk(Turn(w, k, r))
    ensures Progress(w, Turn(w, k, r))
  {
    var e := w.entities[k];
    if !Collides(w.grid, e.gx, e.gy, e.shapeIndex, r) {
      PutKeepsOk(w, k, e.(rotation := r));
    }
  }

  lemma MoveEntityKeepsOk(w: World, id: int, dx: int, dy: int, rand: nat -> nat, now: U32)
    requires WorldOk(w)
    ensures WorldOk(MoveEntity(w, id, dx, dy, rand, now))
    ensures Progress(w, MoveEntity(w, id, dx, dy, rand, now))
  {
    match IndexOf(Ids(w.entities), id)
    case None =>
    case Some(k) =>
      var e := w.entities[k];
      if e.kind.Fixed? {
      } else if e.kind.Piece? && e.shapeIndex >= 0 {
        MovePieceKeepsOk(w, id, dx, dy, rand, now, k);
      } else if e.kind.SnakeHead? {
        MoveHeadKeepsOk(w, id, dx, dy, rand, now, k);
      } else {
        MoveOtherKeepsOk(w, id, dx, dy, rand, now, k);
      }
  }

  lemma MovePieceKeepsOk(w: World, id: int, dx: int, dy: int, rand: nat -> nat, now: U32, k: nat)
    requires WorldOk(w) && IndexOf(Ids(w.entities), id) == Some(k) && k < |w.entities|
    requires w.entities[k].kind.Piece? && w.entities[k].shapeIndex >= 0
    ensures WorldOk(MoveEntity(w, id, dx, dy, rand, now))
    ensures Progress(w, MoveEntity(w, id, dx, dy, rand, now))
  {
    ShoveKeepsOk(w, k, dx, dy, rand, now);
  }

  lemma MoveHeadKeepsOk(w: World, id: int, dx: int, dy: int, rand: nat -> nat, now: U32, k: nat)
    requires WorldOk(w) && IndexOf(Ids(w.entities), id) == Some(k) && k < |w.entities|
    requires w.entities[k].kind.SnakeHead?
    ensures WorldOk(MoveEntity(w, id, dx, dy, rand, now))
    ensures Progress(w, MoveEntity(w, id, dx, dy, rand, now))
  {
    HeadMeansSnake(w, k);
    SnakeStepKeepsOk(w, w.entities[k], rand);
  }

  lemma MoveOtherKeepsOk(w: World, id: int, dx: int, dy: int, rand: nat -> nat, now: U32, k: nat)
    requires WorldOk(w) && IndexOf(Ids(w.entities), id) == Some(k) && k < |w.entities|
    requires !w.entities[k].kind.SnakeHead? && !w.entities[k].kind.Piece? && !w.entities[k].kind.Fixed?
    ensures WorldOk(MoveEntity(w, id, dx, dy, rand, now))
    ensures Progress(w, MoveEntity(w, id, dx, dy, rand, now))
  {
    PutKeepsOk(w, k, w.entities[k].(gx := Clamp(w.entities[k].gx + dx, Width - w.entities[k].w),
                                    gy := Clamp(w.entities[k].gy + dy, Height - w.entities[k].h)));
    MoveOtherStep(w, id, dx, dy, rand, now, k);
  }

  /** The clamped move of moveEntity's last branch, as an equation for the proofs above. */
  lemma MoveOtherStep(w: World, id: int, dx: int, dy: int, rand: nat -> nat, now: U32, k: nat)
    requires WorldOk(w) && IndexOf(Ids(w.entities), id) == Some(k) && k < |w.entities|
    requires !w.entities[k].kind.SnakeHead? && !w.entities[k].kind.Piece? && !w.entities[k].kind.Fixed?
    ensures MoveEntity(w, id, dx, dy, rand, now)
            == Put(w, k, w.entities[k].(gx := Clamp(w.entities[k].gx + dx, Width - w.entities[k].w),
                                        gy := Clamp(w.entities[k].gy + dy, Height - w.entities[k].h)))
  {
  }

  /**
   * Food and body segments moved by moveEntity stay on the board: the new cell lies in
   * [0, BOARD_WIDTH - w] x [0, BOARD_HEIGHT - h], it is the cell (gx + dx, gy + dy) whenever
   * that one fits, and nothing but that entity's position changes.
   */
  lemma MoveOtherClamps(w: World, id: int, dx: int, dy: int, rand: nat -> nat, now: U32, k: nat)
    requires WorldOk(w) && IndexOf(Ids(w.entities), id) == Some(k) && k < |w.entities|
    requires !w.entities[k].kind.SnakeHead? && !w.entities[k].kind.Piece? && !w.entities[k].kind.Fixed?
    ensures var r := MoveEntity(w, id, dx, dy, rand, now);
      && r == w.(entities := r.entities)
      && |r.entities| == |w.entities|
      && (forall j :: 0 <= j < |w.entities| && j != k ==> r.entities[j] == w.entities[j])
      && r.entities[k] == w.entities[k].(gx := r.entities[k].gx, gy := r.entities[k].gy)
      && 0 <= r.entities[k].gx <= Width - w.entities[k].w
      && 0 <= r.entities[k].gy <= Height - w.entities[k].h
      && (0 <= w.entities[k].gx + dx <= Width - w.entities[k].w ==> r.entities[k].gx == w.entities[k].gx + dx)
      && (0 <= w.entities[k].gy + dy <= Height - w.entities[k].h ==> r.entities[k].gy == w.entities[k].gy + dy)
  {
    MoveOtherStep(w, id, dx, dy, rand, now, k);
    assert EntityOk(w.entities[k]);
  }

  lemma RotateEntityKeepsOk(w: World, id: int)
    requires WorldOk(w)
    ensures WorldOk(RotateEntity(w, id))
    ensures Progress(w, RotateEntity(w, id))
  {
    match IndexOf(Ids(w.entities), id)
    case None =>
    case Some(k) => TurnKeepsOk(w, k, NextRotation(w.entities[k].rotation));
  }

  lemma DropEntityKeepsOk(w: World, id: int, rand: nat -> nat, now: U32)
    requires WorldOk(w)
    ensures WorldOk(DropEntity(w, id, rand, now))
    ensures Progress(w, DropEntity(w, id, rand, now))
  {
    match IndexOf(Ids(w.entities), id)
    case None =>
    case Some(k) =>
      var e := w.entities[k];
      if e.shapeIndex >= 0 {
        var landed := e.(gy := Landing(w.grid, e.gx, e.gy, e.shapeIndex, e.rotation));
        PutKeepsOk(w, k, landed);
        FixPieceKeepsOk(Put(w, k, landed), k, rand, now);
      }
  }

  lemma AutoDropKeepsOk(w: World, now: U32, rand: nat -> nat)
    requires WorldOk(w)
    ensures WorldOk(AutoDrop(w, now, rand))
    ensures Progress(w, AutoDrop(w, now, rand))
  {
    if w.tetrisId != -1 && Elapsed(now, w.lastDrop) >= DropInterval {
      match ActiveIndex(w)
      case None =>
      case Some(k) => ShoveKeepsOk(w, k, 0, 1, rand, now);
    }
  }

  lemma HandleKeyKeepsOk(w: World, key: Key, rand: nat -> nat, now: U32)
    requires WorldOk(w)
    ensures WorldOk(HandleKey(w, key, rand, now))
    ensures Progress(w, HandleKey(w, key, rand, now))
  {
    match key
    case LeftArrow =>
      match ActiveIndex(w) {
        case None =>
        case Some(k) => ShoveKeepsOk(w, k, -1, 0, rand, now);
      }
    case RightArrow =>
      match ActiveIndex(w) {
        case None =>
        case Some(k) => ShoveKeepsOk(w, k, 1, 0, rand, now);
      }
    case DownArrow =>
      match ActiveIndex(w) {
        case None =>
        case Some(k) => SoftDropKeepsOk(w, k, rand, now);
      }
    case UpArrow =>
      match ActiveIndex(w) {
        case None =>
        case Some(k) => TurnKeepsOk(w, k, NextRotation(w.entities[k].rotation));
      }
    case Letter(h) =>
      if w.snakeId != -1 {
        SteerNeverReverses(w.dirX, w.dirY, h);
      }
    case Escape =>
    case OtherKey =>
  }

  // ---------------------------------------------------------------------
  // What the Tetris operations promise
  // ---------------------------------------------------------------------

  /**
   * The first half of fixTetrisPiece: the piece becomes Fixed where it is; the board is the
   * settled board compacted (one empty row per full row on top, the other rows in their
   * order), so no full row is left; the score grows by the bonus for the full rows.
   */
  lemma SettledOutcome(w: World, k: int)
    requires Shaped(w.grid) && 0 <= k < |w.entities| && 0 <= w.entities[k].shapeIndex < |Catalog|
    ensures var e := w.entities[k];
      var settled := Settle(w.grid, e.gx, e.gy, PieceCells(e.shapeIndex, e.rotation), e.shapeIndex + 1);
      var r := Settled(w, k);
      && r.entities == w.entities[k := e.(kind := Fixed)]
      && r.grid == Blank(FullCount(settled)) + KeptRows(settled)
      && (forall y :: 0 <= y < Height ==> !Full(r.grid[y]))
      && r.score == w.score + LineBonus(FullCount(settled))
      && r.tetrisId == -1 && r.nextId == w.nextId && r.ended == w.ended
  {
    var e := w.entities[k];
    var settled := Settle(w.grid, e.gx, e.gy, PieceCells(e.shapeIndex, e.rotation), e.shapeIndex + 1);
    ClearLinesCompacts(settled);
    ClearLinesLeavesNoFullRow(settled);
  }

  /**
   * The respawn half: the next id is used up either way; a new piece of shape idx at the
   * spawn cell becomes the active piece when that placement is vacant, and otherwise the
   * game ends and no entity is added.
   */
  lemma SpawnNextOutcome(w: World, idx: int, now: U32)
    requires Shaped(w.grid) && 0 <= idx < |Catalog|
    ensures var r := SpawnNext(w, idx, now);
      && r.grid == w.grid && r.score == w.score && r.nextId == w.nextId + 1
      && if Vacant(w.grid, SpawnX, 0, idx, 0) then
           && r.entities == w.entities + [NewPiece(w.nextId, idx)]
           && r.tetrisId == w.nextId && r.ended == w.ended && r.lastDrop == now
         else r.entities == w.entities && r.ended && r.tetrisId == w.tetrisId
  {
    FreeIffVacant(w.grid, SpawnX, 0, idx, 0);
  }

  /**
   * fixTetrisPiece as a whole: the piece is Fixed in place, no full row is left, the score
   * grows by the bonus for the rows the settled piece completed, one id is used up, and
   * either a piece of the drawn shape is active at the spawn cell or the game is over
   * with no piece added.
   */
  lemma FixPieceOutcome(w: World, k: int, rand: nat -> nat, now: U32)
    requires Shaped(w.grid) && 0 <= k < |w.entities| && 0 <= w.entities[k].shapeIndex < |Catalog|
    ensures var e := w.entities[k];
      var settled := Settle(w.grid, e.gx, e.gy, PieceCells(e.shapeIndex, e.rotation), e.shapeIndex + 1);
      var r := FixPiece(w, k, rand, now);
      && r.entities[k] == e.(kind := Fixed)
      && (forall y :: 0 <= y < Height ==> !Full(r.grid[y]))
      && r.score == w.score + LineBonus(FullCount(settled))
      && r.nextId == w.nextId + 1
      && if Vacant(r.grid, SpawnX, 0, DrawShape(rand), 0) then
           && |r.entities| == |w.entities| + 1 && r.entities[|w.entities|] == NewPiece(w.nextId, DrawShape(rand))
           && r.tetrisId == w.nextId && r.ended == w.ended
         else |r.entities| == |w.entities| && r.ended && r.tetrisId == -1
  {
    SettledOutcome(w, k);
    SpawnNextOutcome(Settled(w, k), DrawShape(rand), now);
  }

  /**
   * A move by (dx, dy) is taken only onto a vacant placement and then leaves the board and
   * everything else alone; a blocked move changes nothing, except that a blocked move
   * downwards fixes the piece.
   */
  lemma ShoveOutcome(w: World, k: int, dx: int, dy: int, rand: nat -> nat, now: U32)
    requires Shaped(w.grid) && 0 <= k < |w.entities| && 0 <= w.entities[k].shapeIndex < |Catalog|
    ensures Vacant(w.grid, w.entities[k].gx + dx, w.entities[k].gy + dy, w.entities[k].shapeIndex, w.entities[k].rotation) ==>
      Shove(w, k, dx, dy, rand, now)
        == w.(entities := w.entities[k := w.entities[k].(gx := w.entities[k].gx + dx, gy := w.entities[k].gy + dy)])
    ensures !Vacant(w.grid, w.entities[k].gx + dx, w.entities[k].gy + dy, w.entities[k].shapeIndex, w.entities[k].rotation) ==>
      Shove(w, k, dx, dy, rand, now) == if dy > 0 then FixPiece(w, k, rand, now) else w
  {
    FreeIffVacant(w.grid, w.entities[k].gx + dx, w.entities[k].gy + dy, w.entities[k].shapeIndex, w.entities[k].rotation);
    if Vacant(w.grid, w.entities[k].gx + dx, w.entities[k].gy + dy, w.entities[k].shapeIndex, w.entities[k].rotation) {
      ShoveFree(w, k, dx, dy, rand, now);
    } else {
      ShoveBlocked(w, k, dx, dy, rand, now);
    }
  }

  /** A turn to rotation r is taken only onto a vacant placement; otherwise nothing changes. */
  lemma TurnOutcome(w: World, k: int, r: int)
    requires Shaped(w.grid) && 0 <= k < |w.entities| && 0 <= w.entities[k].shapeIndex < |Catalog|
    ensures Turn(w, k, r) ==
      if Vacant(w.grid, w.entities[k].gx, w.entities[k].gy, w.entities[k].shapeIndex, r) then
        w.(entities := w.entities[k := w.entities[k].(rotation := r)])
      else w
  {
    FreeIffVacant(w.grid, w.entities[k].gx, w.entities[k].gy, w.entities[k].shapeIndex, r);
  }

  /**
   * dropEntity: the entity falls to the row y at which the next row down first collides,
   * every row it passes on the way being free, and is fixed there.
   */
  lemma DropEntityOutcome(w: World, id: int, rand: nat -> nat, now: U32, k: nat)
    requires WorldOk(w) && IndexOf(Ids(w.entities), id) == Some(k) && k < |w.entities|
    requires w.entities[k].shapeIndex >= 0
    ensures var e := w.entities[k];
      var y := Landing(w.grid, e.gx, e.gy, e.shapeIndex, e.rotation);
      && y >= e.gy
      && Collides(w.grid, e.gx, y + 1, e.shapeIndex, e.rotation)
      && (forall row :: e.gy < row <= y ==> !Collides(w.grid, e.gx, row, e.shapeIndex, e.rotation))
      && DropEntity(w, id, rand, now) == FixPiece(Put(w, k, e.(gy := y)), k, rand, now)
  {
    var e := w.entities[k];
    forall row | e.gy < row <= Landing(w.grid, e.gx, e.gy, e.shapeIndex, e.rotation)
      ensures !Collides(w.grid, e.gx, row, e.shapeIndex, e.rotation)
    {
      LandingPassesFreeRows(w.grid, e.gx, e.gy, e.shapeIndex, e.rotation, row);
    }
  }

  /**
   * updateTetrisAutoDrop acts only with an active piece and at least DropInterval ticks
   * since the last drop (unsigned difference), and it then restarts the drop timer at now.
   */
  lemma AutoDropTiming(w: World, now: U32, rand: nat -> nat)
    requires WorldOk(w)
    ensures w.tetrisId == -1 || Elapsed(now, w.lastDrop) < DropInterval ==> AutoDrop(w, now, rand) == w
    ensures w.tetrisId != -1 && Elapsed(now, w.lastDrop) >= DropInterval ==> AutoDrop(w, now, rand).lastDrop == now
  {
    if w.tetrisId != -1 && Elapsed(now, w.lastDrop) >= DropInterval {
      match ActiveIndex(w)
      case None =>
      case Some(k) =>
        assert AutoDrop(w, now, rand) == Shove(w, k, 0, 1, rand, now).(lastDrop := now);
    }
  }

  lemma AutoDropShoves(w: World, now: U32, rand: nat -> nat, k: nat)
    requires WorldOk(w) && w.tetrisId != -1 && Elapsed(now, w.lastDrop) >= DropInterval
    requires IndexOf(Ids(w.entities), w.tetrisId) == Some(k) && k < |w.entities|
    requires 0 <= w.entities[k].shapeIndex < |Catalog|
    ensures AutoDrop(w, now, rand) == Shove(w, k, 0, 1, rand, now).(lastDrop := now)
  {
    assert ActiveIndex(w) == Some(k);
  }

  /**
   * A due auto drop: when the placement one row down is vacant only the active piece
   * moves, one row down; otherwise the piece is fixed where it stands and no full row
   * is left.  Either way the drop timer restarts at now.
   */
  lemma AutoDropDue(w: World, now: U32, rand: nat -> nat, k: nat)
    requires WorldOk(w) && w.tetrisId != -1 && Elapsed(now, w.lastDrop) >= DropInterval
    requires IndexOf(Ids(w.entities), w.tetrisId) == Some(k)
    ensures k < |w.entities| && 0 <= w.entities[k].shapeIndex < |Catalog|
    ensures Vacant(w.grid, w.entities[k].gx, w.entities[k].gy + 1, w.entities[k].shapeIndex, w.entities[k].rotation) ==>
      AutoDrop(w, now, rand)
        == w.(entities := w.entities[k := w.entities[k].(gy := w.entities[k].gy + 1)], lastDrop := now)
    ensures !Vacant(w.grid, w.entities[k].gx, w.entities[k].gy + 1, w.entities[k].shapeIndex, w.entities[k].rotation) ==>
      && AutoDrop(w, now, rand).entities[k] == w.entities[k].(kind := Fixed)
      && (forall y :: 0 <= y < Height ==> !Full(AutoDrop(w, now, rand).grid[y]))
      && AutoDrop(w, now, rand).lastDrop == now
  {
    assert EntityOk(w.entities[k]);
    if Vacant(w.grid, w.entities[k].gx, w.entities[k].gy + 1, w.entities[k].shapeIndex, w.entities[k].rotation) {
      AutoDropMoves(w, now, rand, k);
    } else {
      AutoDropFixes(w, now, rand, k);
    }
  }

  lemma AutoDropMoves(w: World, now: U32, rand: nat -> nat, k: nat)
    requires WorldOk(w) && w.tetrisId != -1 && Elapsed(now, w.lastDrop) >= DropInterval
    requires IndexOf(Ids(w.entities), w.tetrisId) == Some(k) && k < |w.entities|
    requires 0 <= w.entities[k].shapeIndex < |Catalog|
    requires Vacant(w.grid, w.entities[k].gx, w.entities[k].gy + 1, w.entities[k].shapeIndex, w.entities[k].rotation)
    ensures AutoDrop(w, now, rand)
      == w.(entities := w.entities[k := w.entities[k].(gy := w.entities[k].gy + 1)], lastDrop := now)
  {
    AutoDropShoves(w, now, rand, k);
    ShoveOutcome(w, k, 0, 1, rand, now);
  }

  lemma AutoDropFixes(w: World, now: U32, rand: nat -> nat, k: nat)
    requires WorldOk(w) && w.tetrisId != -1 && Elapsed(now, w.lastDrop) >= DropInterval
    requires IndexOf(Ids(w.entities), w.tetrisId) == Some(k) && k < |w.entities|
    requires 0 <= w.entities[k].shapeIndex < |Catalog|
    requires !Vacant(w.grid, w.entities[k].gx, w.entities[k].gy + 1, w.entities[k].shapeIndex, w.entities[k].rotation)
    ensures AutoDrop(w, now, rand).entities[k] == w.entities[k].(kind := Fixed)
    ensures forall y :: 0 <= y < Height ==> !Full(AutoDrop(w, now, rand).grid[y])
    ensures AutoDrop(w, now, rand).lastDrop == now
  {
    AutoDropShoves(w, now, rand, k);
    ShoveOutcome(w, k, 0, 1, rand, now);
    FixPieceOutcome(w, k, rand, now);
  }

  /** A snake key turns the snake at most a quarter: the direction stays a unit step and never reverses. */
  lemma SteerKeyNeverReverses(w: World, h: Heading, rand: nat -> nat, now: U32)
    requires WorldOk(w)
    ensures var r := HandleKey(w, Letter(h), rand, now);
      && UnitDir(r.dirX, r.dirY) && (r.dirX, r.dirY) != (-w.dirX, -w.dirY)
      && r.entities == w.entities && r.grid == w.grid
      && (w.snakeId == -1 ==> r == w)
  {
    SteerNeverReverses(w.dirX, w.dirY, h);
  }

  // ---------------------------------------------------------------------
  // Session
  // ---------------------------------------------------------------------

  /** setScore. */
  function SetScore(w: World, value: int): World {
    w.(score := value)
  }

  /** addScore. */
  function AddScore(w: World, delta: int): World {
    w.(score := w.score + delta)
  }

  /** endGame: the reason is only logged. */
  function EndGame(w: World): World {
    w.(ended := true)
  }

  /**
   * The score setters and endGame keep the invariant; addScore with a non-negative delta
   * and endGame only move forward, and after endGame the game stays over.
   */
  lemma SessionKeepsOk(w: World, value: int, delta: int)
    requires WorldOk(w)
    ensures WorldOk(SetScore(w, value)) && SetScore(w, value).score == value
    ensures WorldOk(AddScore(w, delta)) && AddScore(w, delta).score - w.score == delta
    ensures delta >= 0 ==> Progress(w, AddScore(w, delta))
    ensures WorldOk(EndGame(w)) && Progress(w, EndGame(w)) && EndGame(w).ended
    ensures EndGame(EndGame(w)) == EndGame(w)
  {
  }

  // ---------------------------------------------------------------------
  // One frame of pollEvents
  // ---------------------------------------------------------------------

  /**
   * The events of one pollEvents call after the auto drop: Quit or Escape stop at once
   * with false; key presses run their command with the n-th random stream; with the
   * queue drained the result is whether the game is still on.
   */
  function Drain(w: World, events: seq<Event>, now: U32, rand: nat -> (nat -> nat), n: nat): (r: (World, bool))
    requires WorldOk(w)
    ensures WorldOk(r.0) && Progress(w, r.0)
    ensures r.1 ==> !r.0.ended
    ensures Quit in events ==> !r.1
    ensures KeyDown(Escape) in events ==> !r.1
    ensures Quit !in events && KeyDown(Escape) !in events ==> r.1 == !r.0.ended
    decreases |events|
  {
    if events == [] then (w, !w.ended)
    else if events[0] == Quit || events[0] == KeyDown(Escape) then (w, false)
    else
      assert Quit in events ==> Quit in events[1..];
      assert KeyDown(Escape) in events ==> KeyDown(Escape) in events[1..];
      assert Quit !in events ==> Quit !in events[1..];
      assert KeyDown(Escape) !in events ==> KeyDown(Escape) !in events[1..];
      if events[0].KeyDown? then
        HandleKeyKeepsOk(w, events[0].key, rand(n), now);
        Drain(HandleKey(w, events[0].key, rand(n), now), events[1..], now, rand, n + 1)
      else Drain(w, events[1..], now, rand, n)
  }

  /** One event of the queue taken off its front. */
  lemma DrainUnfold(w: World, events: seq<Event>, now: U32, rand: nat -> (nat -> nat), n: nat)
    requires WorldOk(w) && events != []
    ensures events[0] == Quit || events[0] == KeyDown(Escape) ==> Drain(w, events, now, rand, n) == (w, false)
    ensures events[0].KeyDown? && events[0].key != Escape && WorldOk(HandleKey(w, events[0].key, rand(n), now)) ==>
      Drain(w, events, now, rand, n) == Drain(HandleKey(w, events[0].key, rand(n), now), events[1..], now, rand, n + 1)
    ensures events[0] == OtherEvent ==> Drain(w, events, now, rand, n) == Drain(w, events[1..], now, rand, n)
  {
  }

  /** pollEvents: the auto drop with the first random stream, then the queued events. */
  function Poll(w: World, now: U32, events: seq<Event>, rand: nat -> (nat -> nat)): (r: (World, bool))
    requires WorldOk(w)
    ensures WorldOk(r.0) && Progress(w, r.0)
    ensures r.1 ==> !r.0.ended
    ensures Quit in events || KeyDown(Escape) in events ==> !r.1
    ensures Quit !in events && KeyDown(Escape) !in events ==> r.1 == !r.0.ended
  {
    AutoDropKeepsOk(w, now, rand(0));
    Drain(AutoDrop(w, now, rand(0)), events, now, rand, 1)
  }
}
