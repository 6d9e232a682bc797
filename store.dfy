/** The entity records, the kind predicates and the lookup of gEntities by id. */
module Store {
  import opened Defs
  import opened Shapes

  /**
   * The entity type string as a closed variant: Piece is a falling piece (its type
   * string is its shape name, "I" to "Z"), Fixed is "Fixed", SnakeHead is "Snake",
   * SnakeBody is "SnakeBody" and Food is "Food".
   */
  datatype Kind = Piece | Fixed | SnakeHead | SnakeBody | Food

  /** Entity: grid position, cell extent, kind, shape index (-1 when none) and rotation. */
  datatype Entity = Entity(id: int, gx: int, gy: int, w: int, h: int, kind: Kind, shapeIndex: int, rotation: int)

  function PosOf(e: Entity): Pos {
    Pos(e.gx, e.gy)
  }

  // ---------------------------------------------------------------------
  // Kind predicates over type strings
  // ---------------------------------------------------------------------

  predicate IsTetrisType(t: string) {
    t == "I" || t == "O" || t == "T" || t == "L" || t == "J" || t == "S" ||
    t == "Z" || t == "Tetris" || t == "Block"
  }

  predicate IsSnakeHeadType(t: string) {
    t == "Snake"
  }

  predicate IsSnakeBodyType(t: string) {
    t == "SnakeBody"
  }

  predicate IsSnakeAnyType(t: string) {
    IsSnakeHeadType(t) || IsSnakeBodyType(t)
  }

  predicate IsFoodType(t: string) {
    t == "Food"
  }

  /** The type string the source keeps for an entity of each kind. */
  function TypeName(e: Entity): string
    requires e.kind.Piece? ==> 0 <= e.shapeIndex < |Catalog|
  {
    match e.kind
    case Piece => Catalog[e.shapeIndex].name
    case Fixed => "Fixed"
    case SnakeHead => "Snake"
    case SnakeBody => "SnakeBody"
    case Food => "Food"
  }

  /**
   * The string predicates agree with the variant: a type string is a Tetris type exactly
   * for a falling piece, the snake predicates exactly for head and body, and so on.  So
   * dispatching on Kind is dispatching on the type string.
   */
  lemma TypeNameKinds(e: Entity)
    requires e.kind.Piece? ==> 0 <= e.shapeIndex < |Catalog|
    ensures IsTetrisType(TypeName(e)) <==> e.kind.Piece?
    ensures IsSnakeHeadType(TypeName(e)) <==> e.kind.SnakeHead?
    ensures IsSnakeBodyType(TypeName(e)) <==> e.kind.SnakeBody?
    ensures IsSnakeAnyType(TypeName(e)) <==> e.kind.SnakeHead? || e.kind.SnakeBody?
    ensures IsFoodType(TypeName(e)) <==> e.kind.Food?
    ensures TypeName(e) == "Fixed" <==> e.kind.Fixed?
  {
    if e.kind.Piece? {
      var s := e.shapeIndex;
      assert s == 0 || s == 1 || s == 2 || s == 3 || s == 4 || s == 5 || s == 6;
    }
  }

  // ---------------------------------------------------------------------
  // Entity store invariants and lookup
  // ---------------------------------------------------------------------

  function Ids(es: seq<Entity>): (ids: seq<int>)
    ensures |ids| == |es| && forall i :: 0 <= i < |es| ==> ids[i] == es[i].id
  {
    seq(|es|, i requires 0 <= i < |es| => es[i].id)
  }

  predicate Distinct(s: seq<int>) {
    forall i, j :: 0 <= i < j < |s| ==> s[i] != s[j]
  }

  /** The index of the first occurrence of id, as the search loop of findEntity finds it. */
  function IndexOf(ids: seq<int>, id: int): (r: Option<nat>)
    ensures r.Some? ==> r.value < |ids| && ids[r.value] == id && forall j :: 0 <= j < r.value ==> ids[j] != id
    ensures r.None? ==> forall j :: 0 <= j < |ids| ==> ids[j] != id
    decreases |ids|
  {
    if ids == [] then None
    else if ids[0] == id then Some(0)
    else match IndexOf(ids[1..], id)
      case None => None
      case Some(k) => Some(k + 1)
  }

  /** findEntity: a linear search of gEntities for the id; None stands for the null pointer. */
  method FindEntity(es: seq<Entity>, id: int) returns (r: Option<nat>)
    ensures r == IndexOf(Ids(es), id)
  {
    var i := 0;
    while i < |es|
      invariant 0 <= i <= |es|
      invariant forall j :: 0 <= j < i ==> es[j].id != id
    {
      if es[i].id == id {
        return Some(i);
      }
      i := i + 1;
    }
    return None;
  }

  /** With distinct ids, the entity with id es[k].id is found at index k. */
  lemma IndexOfDistinct(ids: seq<int>, k: int)
    requires Distinct(ids) && 0 <= k < |ids|
    ensures IndexOf(ids, ids[k]) == Some(k)
  {
  }

  /** The entity with a given id; defined for ids that are present. */
  function Lookup(es: seq<Entity>, id: int): Entity
    requires id in Ids(es)
  {
    es[IndexOf(Ids(es), id).value]
  }

  lemma LookupAt(es: seq<Entity>, k: int)
    requires Distinct(Ids(es)) && 0 <= k < |es|
    ensures es[k].id in Ids(es) && Lookup(es, es[k].id) == es[k]
  {
    IndexOfDistinct(Ids(es), k);
  }

  /** Replacing an entity by one with the same id changes only what that id looks up. */
  lemma LookupUpdate(es: seq<Entity>, k: int, e: Entity, id: int)
    requires Distinct(Ids(es)) && 0 <= k < |es| && e.id == es[k].id && id in Ids(es)
    ensures Ids(es[k := e]) == Ids(es)
    ensures Lookup(es[k := e], id) == if id == e.id then e else Lookup(es, id)
  {
    assert Ids(es[k := e]) == Ids(es);
    IndexOfDistinct(Ids(es), k);
  }

  /** Appending an entity with a fresh id leaves every other lookup as it was. */
  lemma LookupAppend(es: seq<Entity>, e: Entity, id: int)
    requires id in Ids(es) + [e.id]
    requires Distinct(Ids(es)) && e.id !in Ids(es)
    ensures Ids(es + [e]) == Ids(es) + [e.id] && Distinct(Ids(es + [e]))
    ensures Lookup(es + [e], id) == if id == e.id then e else Lookup(es, id)
  {
    assert Ids(es + [e]) == Ids(es) + [e.id];
    if id == e.id {
      IndexOfDistinct(Ids(es + [e]), |es|);
    } else {
      var k := IndexOf(Ids(es), id).value;
      IndexOfDistinct(Ids(es), k);
      IndexOfDistinct(Ids(es + [e]), k);
    }
  }

  // ---------------------------------------------------------------------
  // Food lookups
  // ---------------------------------------------------------------------

  predicate AnyFood(es: seq<Entity>) {
    exists i :: 0 <= i < |es| && es[i].kind.Food?
  }

  /** hasFood: some entity is food. */
  method HasFood(es: seq<Entity>) returns (found: bool)
    ensures found <==> AnyFood(es)
  {
    var i := 0;
    while i < |es|
      invariant 0 <= i <= |es|
      invariant forall j :: 0 <= j < i ==> !es[j].kind.Food?
    {
      if es[i].kind.Food? {
        return true;
      }
      i := i + 1;
    }
    return false;
  }

  /** The index of the first food entity at p, as the eat check of moveEntity finds it. */
  function FirstFoodAt(es: seq<Entity>, p: Pos): (r: Option<nat>)
    ensures r.Some? ==> (r.value < |es| && es[r.value].kind.Food? && PosOf(es[r.value]) == p &&
      forall j :: 0 <= j < r.value ==> !(es[j].kind.Food? && PosOf(es[j]) == p))
    ensures r.None? ==> forall j :: 0 <= j < |es| ==> !(es[j].kind.Food? && PosOf(es[j]) == p)
    decreases |es|
  {
    if es == [] then None
    else if es[0].kind.Food? && PosOf(es[0]) == p then Some(0)
    else match FirstFoodAt(es[1..], p)
      case None => None
      case Some(k) => Some(k + 1)
  }

  method FindFoodAt(es: seq<Entity>, p: Pos) returns (r: Option<nat>)
    ensures r == FirstFoodAt(es, p)
  {
    var i := 0;
    while i < |es|
      invariant 0 <= i <= |es|
      invariant forall j :: 0 <= j < i ==> !(es[j].kind.Food? && PosOf(es[j]) == p)
    {
      if es[i].kind.Food? && es[i].gx == p.x && es[i].gy == p.y {
        return Some(i);
      }
      i := i + 1;
    }
    return None;
  }

  // ---------------------------------------------------------------------
  // Invariants of the store
  // ---------------------------------------------------------------------

  /** Every entity is one cell; pieces carry a catalog index, other kinds carry -1. */
  predicate EntityOk(e: Entity) {
    && e.w == 1 && e.h == 1 && 0 <= e.rotation < 4
    && (if e.kind.Piece? || e.kind.Fixed? then 0 <= e.shapeIndex < |Catalog| else e.shapeIndex == -1)
  }

  /** Ids are distinct and were all handed out by the counter, which is now at nextId. */
  predicate StoreOk(es: seq<Entity>, nextId: int) {
    && nextId >= 1
    && Distinct(Ids(es))
    && forall i :: 0 <= i < |es| ==> EntityOk(es[i]) && 1 <= es[i].id < nextId
  }

  /** Positions of the entities whose ids are listed, in list order. */
  function CellsOf(es: seq<Entity>, ids: seq<int>): (cells: seq<Pos>)
    requires AllPresent(es, ids)
    ensures |cells| == |ids|
    ensures forall i :: 0 <= i < |ids| ==> cells[i] == PosOf(Lookup(es, ids[i]))
  {
    seq(|ids|, i requires 0 <= i < |ids| => PosOf(Lookup(es, ids[i])))
  }

  /** Every listed id belongs to some entity. */
  predicate AllPresent(es: seq<Entity>, ids: seq<int>) {
    forall i :: 0 <= i < |ids| ==> ids[i] in Ids(es)
  }

  /**
   * Moves the entity listed at index j of ids to cells[j]; entities not listed stay
   * where they are.  Only positions change.
   */
  function Relocate(es: seq<Entity>, ids: seq<int>, cells: seq<Pos>): (r: seq<Entity>)
    requires |cells| == |ids|
    ensures |r| == |es| && Ids(r) == Ids(es)
    ensures forall i :: 0 <= i < |es| ==> r[i] == es[i].(gx := r[i].gx, gy := r[i].gy)
    ensures forall i :: 0 <= i < |es| && es[i].id !in ids ==> r[i] == es[i]
  {
    seq(|es|, i requires 0 <= i < |es| =>
      match IndexOf(ids, es[i].id)
      case None => es[i]
      case Some(j) => es[i].(gx := cells[j].x, gy := cells[j].y))
  }

  /** After relocation the listed entities stand exactly on the given cells, in order. */
  lemma RelocatePlaces(es: seq<Entity>, ids: seq<int>, cells: seq<Pos>)
    requires |cells| == |ids| && Distinct(Ids(es)) && Distinct(ids) && AllPresent(es, ids)
    ensures AllPresent(Relocate(es, ids, cells), ids)
    ensures CellsOf(Relocate(es, ids, cells), ids) == cells
  {
    var r := Relocate(es, ids, cells);
    forall j | 0 <= j < |ids|
      ensures PosOf(Lookup(r, ids[j])) == cells[j]
    {
      var k := IndexOf(Ids(es), ids[j]).value;
      IndexOfDistinct(ids, j);
      assert r[k] == es[k].(gx := cells[j].x, gy := cells[j].y);
    }
  }

  /** Searching one more id of a list of distinct ids finds that id there and nothing else new. */
  lemma IndexOfPrefix(ids: seq<int>, i: nat, x: int)
    requires Distinct(ids) && i < |ids|
    ensures IndexOf(ids[..i + 1], x) == if x == ids[i] then Some(i) else IndexOf(ids[..i], x)
  {
    var longer := IndexOf(ids[..i + 1], x);
    var shorter := IndexOf(ids[..i], x);
    if x != ids[i] && longer.Some? {
      assert shorter.Some? && shorter.value == longer.value;
    }
  }

  /**
   * Relocating the entity listed at index i after those listed before it is one
   * in-place position update of the entity carrying that id.
   */
  lemma RelocateStep(es: seq<Entity>, ids: seq<int>, cells: seq<Pos>, i: nat, k: nat)
    requires |cells| == |ids| && Distinct(ids) && Distinct(Ids(es))
    requires i < |ids| && k < |es| && es[k].id == ids[i]
    ensures Relocate(es, ids[..i + 1], cells[..i + 1])
            == Relocate(es, ids[..i], cells[..i])[k := es[k].(gx := cells[i].x, gy := cells[i].y)]
  {
    var a := Relocate(es, ids[..i + 1], cells[..i + 1]);
    var b := Relocate(es, ids[..i], cells[..i])[k := es[k].(gx := cells[i].x, gy := cells[i].y)];
    forall m | 0 <= m < |es|
      ensures a[m] == b[m]
    {
      IndexOfPrefix(ids, i, es[m].id);
    }
  }

  /** The pre-move position loop of moveEntity (oldPos): every listed segment's cell. */
  method CollectCells(es: seq<Entity>, ids: seq<int>) returns (cells: seq<Pos>)
    requires AllPresent(es, ids)
    ensures cells == CellsOf(es, ids)
  {
    cells := [];
    var i := 0;
    while i < |ids|
      invariant 0 <= i <= |ids|
      invariant cells == CellsOf(es, ids[..i])
    {
      var k := FindEntity(es, ids[i]);
      cells := cells + [Pos(es[k.value].gx, es[k.value].gy)];
      i := i + 1;
    }
    assert ids[..|ids|] == ids;
  }

  /** The self-collision loop of moveEntity: does p hold some segment other than the head? */
  method HitsSegment(es: seq<Entity>, ids: seq<int>, p: Pos) returns (hit: bool)
    requires AllPresent(es, ids)
    ensures hit <==> exists i :: 1 <= i < |ids| && CellsOf(es, ids)[i] == p
  {
    var i := 1;
    while i < |ids|
      invariant 1 <= i <= |ids| || |ids| == 0
      invariant forall j :: 1 <= j < i && j < |ids| ==> CellsOf(es, ids)[j] != p
    {
      var k := FindEntity(es, ids[i]);
      if es[k.value].gx == p.x && es[k.value].gy == p.y {
        assert CellsOf(es, ids)[i] == p;
        return true;
      }
      i := i + 1;
    }
    return false;
  }
}
