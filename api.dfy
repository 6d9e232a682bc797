/**
 * The engine as the program keeps it: globals updated in place.  Class Engine holds
 * gTetrisBoard as a fixed-size array and the other globals as fields; each public
 * method is one entry point of the engine API and is proved to take exactly the step
 * that the matching function of module Game describes, keeping the engine invariant.
 */
module Api {
  import opened Defs
  import opened Shapes
  import opened Tetris
  import opened TetrisBoard
  import opened Store
  import opened Snake
  import opened Game

  /**
   * The segment-shift loops of moveEntity: the head (at index k) moves to h and segment i
   * to oldPos[i - 1], each found by id in the store; nothing else changes.
   */
  method ShiftSegments(es: seq<Entity>, segs: seq<int>, k: nat, h: Pos, oldPos: seq<Pos>) returns (r: seq<Entity>)
    requires k < |es| && Distinct(Ids(es)) && Distinct(segs) && AllPresent(es, segs)
    requires segs != [] && segs[0] == es[k].id && |oldPos| == |segs|
    ensures r == Relocate(es, segs, Shifted(oldPos, h))
  {
    ghost var cells := Shifted(oldPos, h);
    RelocateStep(es, segs, cells, 0, k);
    r := es[k := es[k].(gx := h.x, gy := h.y)];
    var i := 1;
    while i < |segs|
      invariant 1 <= i <= |segs|
      invariant r == Relocate(es, segs[..i], cells[..i])
    {
      var j := FindEntity(r, segs[i]);
      ghost var m := IndexOf(Ids(es), segs[i]).value;
      assert j.value == m;
      RelocateStep(es, segs, cells, i, m);
      r := r[j.value := r[j.value].(gx := oldPos[i - 1].x, gy := oldPos[i - 1].y)];
      i := i + 1;
    }
    assert segs[..i] == segs && cells[..i] == cells;
  }

  class Engine {
    /** gTetrisBoard. */
    const board: array2<int>
    /** gEntities, gNextId, gScore, gGameEnded, gTetrisId, gSnakeId. */
    var entities: seq<Entity>
    var nextId: int
    var score: int
    var ended: bool
    var tetrisId: int
    var snakeId: int
    /** gSnakeSegments, gSnakeDirX, gSnakeDirY, gLastTetrisDrop. */
    var segments: seq<int>
    var dirX: int
    var dirY: int
    var lastDrop: U32

    /** The globals as one value. */
    ghost function Abs(): World
      reads this, board
      requires Fits(board)
    {
      World(GridOf(board), entities, nextId, score, ended, tetrisId, snakeId, segments, dirX, dirY, lastDrop)
    }

    ghost predicate Valid()
      reads this, board
    {
      Fits(board) && WorldOk(Abs())
    }

    /** The engine as initEngine leaves it, with a fresh board. */
    constructor ()
      ensures Valid() && Abs() == Initial()
    {
      board := new int[Height, Width];
      new;
      Init();
    }

    /** The state reset of initEngine: empty store, counters back, board cleared. */
    method Init()
      requires Fits(board)
      modifies this, board
      ensures Valid() && Abs() == Initial()
    {
      entities := [];
      segments := [];
      nextId := 1;
      score := 0;
      ended := false;
      tetrisId := -1;
      snakeId := -1;
      dirX := 1;
      dirY := 0;
      lastDrop := 0;
      ZeroBoard(board);
    }

    // -------------------------------------------------------------------
    // Session
    // -------------------------------------------------------------------

    method SetScore(value: int)
      requires Valid()
      modifies this
      ensures Valid() && Abs() == Game.SetScore(old(Abs()), value)
    {
      SessionKeepsOk(Abs(), value, 0);
      score := value;
    }

    method AddScore(delta: int)
      requires Valid()
      modifies this
      ensures Valid() && Abs() == Game.AddScore(old(Abs()), delta)
    {
      SessionKeepsOk(Abs(), 0, delta);
      score := score + delta;
    }

    method EndGame()
      requires Valid()
      modifies this
      ensures Valid() && Abs() == Game.EndGame(old(Abs()))
    {
      SessionKeepsOk(Abs(), 0, 0);
      ended := true;
    }

    /** isGameEnded: the game-over flag. */
    method IsGameEnded() returns (b: bool)
      requires Valid()
      ensures b == Abs().ended
    {
      b := ended;
    }

    // -------------------------------------------------------------------
    // Spawning
    // -------------------------------------------------------------------

    /** spawnRandomTetrisPiece. */
    method SpawnRandomPiece(rand: nat -> nat, now: U32) returns (id: int)
      requires Fits(board)
      modifies this
      ensures (Abs(), id) == Game.SpawnRandomPiece(old(Abs()), rand, now)
    {
      var e := NewPiece(nextId, DrawShape(rand));
      nextId := nextId + 1;
      entities := entities + [e];
      tetrisId := e.id;
      lastDrop := now;
      id := e.id;
    }

    /** ensureFoodExists. */
    method EnsureFood(rand: nat -> nat)
      requires Fits(board) && AllPresent(entities, segments)
      modifies this
      ensures Abs() == Game.EnsureFood(old(Abs()), rand)
    {
      var any := HasFood(entities);
      if any {
        return;
      }
      var occ := CollectCells(entities, segments);
      var p := PlaceFood(occ, rand);
      var f := NewCell(nextId, p, Food);
      nextId := nextId + 1;
      entities := entities + [f];
    }

    /** The snake branch of spawnBlock: a head at (x, y) when there is no snake yet, then food. */
    method SpawnHead(t: string, x: int, y: int, rand: nat -> nat, now: U32) returns (id: int)
      requires Fits(board) && AllPresent(entities, segments) && !IsTetrisType(t) && snakeId == -1
      modifies this
      ensures (Abs(), id) == Game.SpawnBlock(old(Abs()), t, x, y, rand, now)
    {
      ghost var es := entities;
      var head := NewCell(nextId, Pos(x, y), SnakeHead);
      nextId := nextId + 1;
      entities := entities + [head];
      snakeId := head.id;
      segments := [head.id];
      assert Ids(entities) == Ids(es) + [head.id];
      EnsureFood(rand);
      id := head.id;
    }

    /** The food branch of spawnBlock: a food entity at a random cell off the snake. */
    method SpawnFood(t: string, x: int, y: int, rand: nat -> nat, now: U32) returns (id: int)
      requires Fits(board) && AllPresent(entities, segments) && !IsTetrisType(t) && snakeId != -1
      modifies this
      ensures (Abs(), id) == Game.SpawnBlock(old(Abs()), t, x, y, rand, now)
    {
      var occ := CollectCells(entities, segments);
      var p := PlaceFood(occ, rand);
      var f := NewCell(nextId, p, Food);
      nextId := nextId + 1;
      entities := entities + [f];
      id := f.id;
    }

    /** spawnBlock. */
    method SpawnBlock(t: string, x: int, y: int, rand: nat -> nat, now: U32) returns (id: int)
      requires Valid()
      modifies this
      ensures Valid() && (Abs(), id) == Game.SpawnBlock(old(Abs()), t, x, y, rand, now)
    {
      SpawnBlockKeepsOk(Abs(), t, x, y, rand, now);
      if !IsTetrisType(t) {
        if snakeId == -1 {
          id := SpawnHead(t, x, y, rand, now);
        } else {
          id := SpawnFood(t, x, y, rand, now);
        }
      } else if tetrisId != -1 {
        id := tetrisId;
      } else {
        id := SpawnRandomPiece(rand, now);
      }
    }

    // -------------------------------------------------------------------
    // Tetris
    // -------------------------------------------------------------------

    /** The respawn after a fix: a drawn piece at the spawn cell, or game over when it collides. */
    method SpawnAfterFix(rand: nat -> nat, now: U32)
      requires Fits(board)
      modifies this
      ensures Abs() == SpawnNext(old(Abs()), DrawShape(rand), now)
    {
      var piece := NewPiece(nextId, DrawShape(rand));
      nextId := nextId + 1;
      var hit := CheckCollision(board, piece.gx, piece.gy, piece.shapeIndex, piece.rotation);
      if hit {
        ended := true;
        return;
      }
      entities := entities + [piece];
      tetrisId := piece.id;
      lastDrop := now;
    }

    /** fixTetrisPiece on the entity at index k. */
    method FixPiece(k: nat, rand: nat -> nat, now: U32)
      requires Fits(board) && k < |entities| && entities[k].shapeIndex < |Catalog|
      modifies this, board
      ensures Abs() == Game.FixPiece(old(Abs()), k, rand, now)
    {
      var e := entities[k];
      if e.shapeIndex < 0 {
        return;
      }
      ghost var w := Abs();
      SettleCells(board, e.gx, e.gy, PieceCells(e.shapeIndex, e.rotation), e.shapeIndex + 1);
      entities := entities[k := e.(kind := Fixed)];
      tetrisId := -1;
      var lines := ClearFullRows(board);
      score := score + LineBonus(lines);
      assert Abs() == Settled(w, k);
      SpawnAfterFix(rand, now);
    }

    /** The piece branch of moveEntity: move when free, fix when blocked moving down. */
    method ShovePiece(k: nat, dx: int, dy: int, rand: nat -> nat, now: U32)
      requires Fits(board) && k < |entities| && entities[k].shapeIndex < |Catalog|
      modifies this, board
      ensures Abs() == Shove(old(Abs()), k, dx, dy, rand, now)
    {
      var hit := CheckCollision(board, entities[k].gx + dx, entities[k].gy + dy, entities[k].shapeIndex, entities[k].rotation);
      if hit {
        BlockedPiece(k, dx, dy, rand, now);
      } else {
        FreePiece(k, dx, dy, rand, now);
      }
    }

    /** An accepted move: only the piece's cell changes. */
    method FreePiece(k: nat, dx: int, dy: int, rand: nat -> nat, now: U32)
      requires Fits(board) && k < |entities| && entities[k].shapeIndex < |Catalog|
      requires !Collides(GridOf(board), entities[k].gx + dx, entities[k].gy + dy, entities[k].shapeIndex, entities[k].rotation)
      modifies this
      ensures Abs() == Shove(old(Abs()), k, dx, dy, rand, now)
    {
      ShoveFree(Abs(), k, dx, dy, rand, now);
      entities := entities[k := entities[k].(gx := entities[k].gx + dx, gy := entities[k].gy + dy)];
    }

    /** A blocked move: a fix when it was downwards, nothing otherwise. */
    method BlockedPiece(k: nat, dx: int, dy: int, rand: nat -> nat, now: U32)
      requires Fits(board) && k < |entities| && entities[k].shapeIndex < |Catalog|
      requires Collides(GridOf(board), entities[k].gx + dx, entities[k].gy + dy, entities[k].shapeIndex, entities[k].rotation)
      modifies this, board
      ensures Abs() == Shove(old(Abs()), k, dx, dy, rand, now)
    {
      ShoveBlocked(Abs(), k, dx, dy, rand, now);
      if dy > 0 {
        FixPiece(k, rand, now);
      }
    }

    /** A quarter turn of the entity at index k when the turned placement is free. */
    method TurnPiece(k: nat)
      requires Fits(board) && k < |entities|
      modifies this
      ensures Abs() == Turn(old(Abs()), k, NextRotation(old(entities[k].rotation)))
    {
      var e := entities[k];
      var r := NextRotation(e.rotation);
      var hit := CheckCollision(board, e.gx, e.gy, e.shapeIndex, r);
      if !hit {
        entities := entities[k := e.(rotation := r)];
      }
    }

    /** The down arrow: one row down restarting the drop timer, or a fix when blocked. */
    method SoftDropPiece(k: nat, rand: nat -> nat, now: U32)
      requires Fits(board) && k < |entities| && entities[k].shapeIndex < |Catalog|
      modifies this, board
      ensures Abs() == SoftDrop(old(Abs()), k, rand, now)
    {
      var e := entities[k];
      var hit := CheckCollision(board, e.gx, e.gy + 1, e.shapeIndex, e.rotation);
      if !hit {
        SoftDropFree(Abs(), k, rand, now);
        entities := entities[k := e.(gy := e.gy + 1)];
        lastDrop := now;
      } else {
        SoftDropBlocked(Abs(), k, rand, now);
        FixPiece(k, rand, now);
      }
    }

    /** rotateEntity. */
    method RotateEntity(id: int)
      requires Valid()
      modifies this
      ensures Valid() && Abs() == Game.RotateEntity(old(Abs()), id)
    {
      ghost var w := Abs();
      RotateEntityKeepsOk(w, id);
      var r := FindEntity(entities, id);
      if r.None? || entities[r.value].shapeIndex < 0 {
        return;
      }
      TurnPiece(r.value);
    }

    /** dropEntity: fall while the next row is free, then fix. */
    method DropEntity(id: int, rand: nat -> nat, now: U32)
      requires Valid()
      modifies this, board
      ensures Valid() && Abs() == Game.DropEntity(old(Abs()), id, rand, now)
    {
      ghost var w := Abs();
      DropEntityKeepsOk(w, id, rand, now);
      var r := FindEntity(entities, id);
      if r.None? || entities[r.value].shapeIndex < 0 {
        return;
      }
      var k := r.value;
      var e := entities[k];
      var y := LandingRow(board, e.gx, e.gy, e.shapeIndex, e.rotation);
      entities := entities[k := e.(gy := y)];
      FixPiece(k, rand, now);
    }

    /** updateTetrisAutoDrop, with the tick count passed in. */
    method UpdateAutoDrop(now: U32, rand: nat -> nat)
      requires Valid()
      modifies this, board
      ensures Valid() && Abs() == AutoDrop(old(Abs()), now, rand)
    {
      ghost var w := Abs();
      AutoDropKeepsOk(w, now, rand);
      if tetrisId == -1 || Elapsed(now, lastDrop) < DropInterval {
        return;
      }
      var r := FindEntity(entities, tetrisId);
      if r.Some? {
        ShovePiece(r.value, 0, 1, rand, now);
      }
      lastDrop := now;
    }

    // -------------------------------------------------------------------
    // Snake
    // -------------------------------------------------------------------

    /**
     * The snake-head branch of moveEntity: wrap the head forward, stop on a body hit,
     * otherwise shift every segment into its predecessor's cell and eat the food ahead.
     */
    method StepSnake(k: nat, rand: nat -> nat)
      requires Fits(board) && k < |entities| && Distinct(Ids(entities))
      requires Distinct(segments) && AllPresent(entities, segments) && segments != []
      requires segments[0] == entities[k].id
      modifies this
      ensures Abs() == SnakeStep(old(Abs()), old(entities[k]), rand)
    {
      var head := entities[k];
      var h := NextHead(Pos(head.gx, head.gy), dirX, dirY);
      var hit := HitsSegment(entities, segments, h);
      if hit {
        ended := true;
        return;
      }
      var food := FindFoodAt(entities, h);
      var oldPos := CollectCells(entities, segments);
      entities := ShiftSegments(entities, segments, k, h, oldPos);
      if food.Some? {
        Feed(food.value, oldPos, h, rand);
      }
    }

    /** Eating the food at index f: a point, the food moved off the shifted snake, then a new tail. */
    method Feed(f: nat, oldPos: seq<Pos>, h: Pos, rand: nat -> nat)
      requires Fits(board) && f < |entities| && |oldPos| >= 1
      modifies this
      ensures Abs() == Eat(old(Abs()), oldPos, h, f, rand)
    {
      score := score + 1;
      var p := PlaceFood(Shifted(oldPos, h), rand);
      entities := entities[f := entities[f].(gx := p.x, gy := p.y)];
      var tail := NewCell(nextId, oldPos[|oldPos| - 1], SnakeBody);
      nextId := nextId + 1;
      entities := entities + [tail];
      segments := segments + [tail.id];
    }

    /** moveEntity. */
    method MoveEntity(id: int, dx: int, dy: int, rand: nat -> nat, now: U32)
      requires Valid()
      modifies this, board
      ensures Valid() && Abs() == Game.MoveEntity(old(Abs()), id, dx, dy, rand, now)
    {
      ghost var w := Abs();
      MoveEntityKeepsOk(w, id, dx, dy, rand, now);
      var r := FindEntity(entities, id);
      if r.None? {
        return;
      }
      var k := r.value;
      var e := entities[k];
      if e.kind.Fixed? {
        return;
      }
      if e.kind.Piece? && e.shapeIndex >= 0 {
        ShovePiece(k, dx, dy, rand, now);
        return;
      }
      if e.kind.SnakeHead? {
        HeadMeansSnake(w, k);
        StepSnake(k, rand);
        return;
      }
      entities := entities[k := e.(gx := Clamp(e.gx + dx, Width - e.w), gy := Clamp(e.gy + dy, Height - e.h))];
    }

    // -------------------------------------------------------------------
    // Events
    // -------------------------------------------------------------------

    /** One key press of pollEvents other than Escape. */
    method HandleKey(key: Key, rand: nat -> nat, now: U32)
      requires Valid()
      modifies this, board
      ensures Valid() && Abs() == Game.HandleKey(old(Abs()), key, rand, now)
    {
      ghost var w := Abs();
      HandleKeyKeepsOk(w, key, rand, now);
      if key.Letter? {
        if snakeId != -1 {
          var d := Steer(dirX, dirY, key.h);
          dirX, dirY := d.0, d.1;
        }
        return;
      }
      if key == Escape || key == OtherKey || tetrisId == -1 {
        return;
      }
      var r := FindEntity(entities, tetrisId);
      if r.None? {
        return;
      }
      var k := r.value;
      match key
      case LeftArrow => ShovePiece(k, -1, 0, rand, now);
      case RightArrow => ShovePiece(k, 1, 0, rand, now);
      case DownArrow => SoftDropPiece(k, rand, now);
      case UpArrow => TurnPiece(k);
    }

    /**
     * One queued event: Quit or Escape stop polling; a key press runs its command with the
     * n-th random stream and moves on to the next stream.
     */
    method TakeEvent(ev: Event, rest: seq<Event>, now: U32, rand: nat -> (nat -> nat), n: nat)
      returns (stop: bool, next: nat)
      requires Valid()
      modifies this, board
      ensures Valid()
      ensures stop ==> Drain(old(Abs()), [ev] + rest, now, rand, n) == (Abs(), false)
      ensures !stop ==> Drain(old(Abs()), [ev] + rest, now, rand, n) == Drain(Abs(), rest, now, rand, next)
    {
      ghost var w := Abs();
      assert ([ev] + rest)[0] == ev && ([ev] + rest)[1..] == rest;
      if ev == Quit || ev == KeyDown(Escape) {
        DrainUnfold(w, [ev] + rest, now, rand, n);
        return true, n;
      }
      if ev.KeyDown? {
        HandleKeyKeepsOk(w, ev.key, rand(n), now);
        DrainUnfold(w, [ev] + rest, now, rand, n);
        HandleKey(ev.key, rand(n), now);
        return false, n + 1;
      }
      DrainUnfold(w, [ev] + rest, now, rand, n);
      return false, n;
    }

    /**
     * pollEvents with the tick count and the queued events passed in: the auto drop, then
     * each event in turn; Quit or Escape answer false at once, and otherwise the answer
     * is whether the game is still on.
     */
    method PollEvents(now: U32, events: seq<Event>, rand: nat -> (nat -> nat)) returns (running: bool)
      requires Valid()
      modifies this, board
      ensures Valid() && (Abs(), running) == Poll(old(Abs()), now, events, rand)
    {
      ghost var target := Poll(Abs(), now, events, rand);
      UpdateAutoDrop(now, rand(0));
      assert events[0..] == events;
      var i := 0;
      var n: nat := 1;
      while i < |events|
        invariant Valid() && 0 <= i <= |events|
        invariant Drain(Abs(), events[i..], now, rand, n) == target
      {
        assert events[i..] == [events[i]] + events[i + 1..];
        var stop;
        stop, n := TakeEvent(events[i], events[i + 1..], now, rand, n);
        if stop {
          return false;
        }
        i := i + 1;
      }
      assert events[i..] == [];
      running := !ended;
    }
  }
}
