/** The spatial index of `game/map/map_instance.cpp`: a grid of cells that must agree with the table of
    objects it speeds up, and the cell arithmetic of `GameObject::UpdatePosition`
    (`game/objects/game_object.cpp`).  Coordinates are real numbers: rounding is not modelled. */
module MapInstances {

  type ObjectId = nat
  type Grid = seq<seq<seq<ObjectId>>>     // rows of columns of cells

  const GRID_SIZE := 25
  const OBJECT_RANGE := 10000000
  const RESPAWN_DELAY := 15000

  datatype Position = Position(x: real, y: real, gridX: int, gridY: int)

  /** `owner` is the player's id, or the spawn point of a monster. */
  datatype Object = Object(owner: nat, position: Position)

  datatype Kind = Player | Npc | Mob | Other

  function KindOf(id: ObjectId): Kind {
    match id / OBJECT_RANGE % 256
    case 0 => Player
    case 1 => Npc
    case 2 => Mob
    case _ => Other
  }

  // ---------------------------------------------------------------- cells

  /** Conversion of a floating-point number to an integer drops the fraction. */
  function Truncate(r: real): int {
    if r < 0.0 then -((-r).Floor) else r.Floor
  }

  /** Division of integers rounds towards zero. */
  function Quotient(n: int, d: int): int
    requires d > 0
  {
    if n < 0 then -(-n / d) else n / d
  }

  function Abs(n: int): int {
    if n < 0 then -n else n
  }

  /** `UpdatePosition`, given the left bound of the map. */
  function Placed(left: int, x: real, y: real): Position {
    var gridX := if x < 0.0 then (x - left as real) / GRID_SIZE as real else (Abs(left) as real + x) / GRID_SIZE as real;
    Position(x, y, Truncate(gridX), Abs(Quotient(Truncate(y), GRID_SIZE)))
  }

  /** The number of cells along a side, as the constructor of the map computes it. */
  function Cells(size: int): int {
    Quotient(size, GRID_SIZE) + 1
  }

  /** Inside a map that starts at or left of zero, a position names a cell of the grid. */
  lemma CellIsInside(left: int, width: int, height: int, x: real, y: real)
    requires left <= 0 && left as real <= x <= (left + width) as real && -(height as real) <= y <= height as real
    ensures 0 <= Placed(left, x, y).gridX < Cells(width)
    ensures 0 <= Placed(left, x, y).gridY < Cells(height)
  {
    var d := x - left as real;
    assert Placed(left, x, y).gridX == Truncate(d / GRID_SIZE as real);
    FloorOfQuotient(d, width);
    TruncatedWithin(y, height);
  }

  lemma FloorOfQuotient(d: real, width: int)
    requires 0.0 <= d <= width as real
    ensures 0 <= (d / GRID_SIZE as real).Floor <= width / GRID_SIZE
  {
    var q := (d / GRID_SIZE as real).Floor;
    assert q as real * GRID_SIZE as real <= d;
    assert q * GRID_SIZE <= width;
  }

  lemma TruncatedWithin(y: real, height: int)
    requires -(height as real) <= y <= height as real
    ensures 0 <= Abs(Quotient(Truncate(y), GRID_SIZE)) <= height / GRID_SIZE
  {}

  /** Which cell that is: column and row count whole steps of 25, from the left bound on (or, right of a
      bound above zero, from that far left of zero on) and from the origin away in both directions. */
  lemma PlacedExactly(left: int, x: real, y: real)
    ensures Placed(left, x, y).x == x && Placed(left, x, y).y == y
    ensures var d := if left <= 0 || x < 0.0 then x - left as real else x + left as real; var column := Placed(left, x, y).gridX;
      if d >= 0.0 then 25.0 * column as real <= d < 25.0 * (column + 1) as real
      else 25.0 * (column - 1) as real < d <= 25.0 * column as real
    ensures var d := if y < 0.0 then -y else y; var row := Placed(left, x, y).gridY;
      25.0 * row as real <= d < 25.0 * (row + 1) as real
  {
    var d := if left <= 0 || x < 0.0 then x - left as real else x + left as real;
    assert Placed(left, x, y).gridX == Truncate(d / GRID_SIZE as real);
    if d >= 0.0 { StepsOf(d); } else { StepsOf(-d); assert (-d) / 25.0 == -(d / 25.0); }
    var e := if y < 0.0 then -y else y;
    assert Abs(Quotient(Truncate(y), GRID_SIZE)) == e.Floor / 25;
    var row := e.Floor / 25;
    assert 25 * row <= e.Floor <= 25 * row + 24;
  }

  lemma StepsOf(d: real)
    requires d >= 0.0
    ensures var steps := (d / 25.0).Floor; 25.0 * steps as real <= d < 25.0 * (steps + 1) as real
  {
    var q := d / 25.0;
    assert q.Floor as real <= q < (q.Floor + 1) as real && d == 25.0 * q;
  }

  /** A side has as many cells as steps of 25 begin on it, its end included. */
  lemma CellsExactly(size: nat)
    ensures 25 * (Cells(size) - 1) <= size < 25 * Cells(size)
  {}

  /** The kind of an object is the range its id is in, and the ranges start again after 256 of them. */
  lemma KindsByRange(id: ObjectId)
    ensures id < 2_560_000_000 ==>
      (KindOf(id) == Player <==> id < 10_000_000) && (KindOf(id) == Npc <==> 10_000_000 <= id < 20_000_000)
    ensures id < 2_560_000_000 ==> (KindOf(id) == Mob <==> 20_000_000 <= id < 30_000_000)
    ensures KindOf(id + 2_560_000_000) == KindOf(id)
  {
    assert (id + 2_560_000_000) / OBJECT_RANGE == id / OBJECT_RANGE + 256;
    assert (id / OBJECT_RANGE + 256) % 256 == id / OBJECT_RANGE % 256;
  }

  /** With a left bound above zero the sum of bound and coordinate can name a column beyond the grid.
      Every place from the left to the right bound is inside exactly if the bound is not above zero, or
      if even the rightmost place falls into the last column. */
  lemma ColumnsInsideIff(left: int, width: nat)
    ensures (forall x: real :: left as real <= x <= (left + width) as real ==> 0 <= Placed(left, x, 0.0).gridX < Cells(width))
      <==> left <= 0 || (2 * left + width) / GRID_SIZE == width / GRID_SIZE
  {
    if left <= 0 {
      forall x: real | left as real <= x <= (left + width) as real ensures 0 <= Placed(left, x, 0.0).gridX < Cells(width) {
        CellIsInside(left, width, 0, x, 0.0);
      }
    } else {
      var right := (left + width) as real;
      RightmostColumn(left, width);
      if (2 * left + width) / GRID_SIZE == width / GRID_SIZE {
        forall x: real | left as real <= x <= right ensures 0 <= Placed(left, x, 0.0).gridX < Cells(width) {
          FloorOfQuotient(left as real + x, 2 * left + width);
        }
      } else {
        assert !(0 <= Placed(left, right, 0.0).gridX < Cells(width));
      }
    }
  }

  lemma RightmostColumn(left: int, width: nat)
    requires left > 0
    ensures Placed(left, (left + width) as real, 0.0).gridX == (2 * left + width) / GRID_SIZE
  {
    var sum := 2 * left + width;
    var q := sum / GRID_SIZE;
    assert q * GRID_SIZE <= sum < (q + 1) * GRID_SIZE;
    assert (sum as real / GRID_SIZE as real).Floor == q by {
      assert q as real <= sum as real / GRID_SIZE as real < (q + 1) as real;
    }
    assert left as real + (left + width) as real == sum as real;
  }

  /** A map 50 wide that starts at 100: its left edge already names column 8 of 3. */
  lemma CellCanBeOutside()
    ensures Placed(100, 100.0, 0.0).gridX == 8 && Cells(50) == 3
  {
    assert Abs(100) as real + 100.0 == 200.0 && 200.0 / 25.0 == 8.0;
  }

  // ---------------------------------------------------------------- the grid

  predicate Inside(g: Grid, x: int, y: int) {
    0 <= y < |g| && 0 <= x < |g[y]|
  }

  /** How often the cell lists the object. */
  function Listed(g: Grid, x: int, y: int, o: ObjectId): nat {
    if Inside(g, x, y) then multiset(g[y][x])[o] else 0
  }

  /** `std::erase`. */
  function Erased(cell: seq<ObjectId>, o: ObjectId): seq<ObjectId> {
    if cell == [] then []
    else (if cell[0] == o then [] else [cell[0]]) + Erased(cell[1..], o)
  }

  lemma {:induction false} ErasedAll(cell: seq<ObjectId>, o: ObjectId, p: ObjectId)
    ensures multiset(Erased(cell, o))[p] == if p == o then 0 else multiset(cell)[p]
  {
    if cell != [] {
      assert cell == [cell[0]] + cell[1..];
      ErasedAll(cell[1..], o, p);
    }
  }

  function WithCell(g: Grid, x: int, y: int, cell: seq<ObjectId>): Grid
    requires Inside(g, x, y)
  {
    g[y := g[y][x := cell]]
  }

  function EraseAt(g: Grid, x: int, y: int, o: ObjectId): Grid
    requires Inside(g, x, y)
  {
    WithCell(g, x, y, Erased(g[y][x], o))
  }

  function PushAt(g: Grid, x: int, y: int, o: ObjectId): Grid
    requires Inside(g, x, y)
  {
    WithCell(g, x, y, g[y][x] + [o])
  }

  lemma EraseListed(g: Grid, x: int, y: int, o: ObjectId, u: int, v: int, p: ObjectId)
    requires Inside(g, x, y)
    ensures Listed(EraseAt(g, x, y, o), u, v, p) == if u == x && v == y && p == o then 0 else Listed(g, u, v, p)
    ensures Inside(EraseAt(g, x, y, o), u, v) == Inside(g, u, v)
  {
    ErasedAll(g[y][x], o, p);
  }

  lemma PushListed(g: Grid, x: int, y: int, o: ObjectId, u: int, v: int, p: ObjectId)
    requires Inside(g, x, y)
    ensures Listed(PushAt(g, x, y, o), u, v, p) == Listed(g, u, v, p) + if u == x && v == y && p == o then 1 else 0
    ensures Inside(PushAt(g, x, y, o), u, v) == Inside(g, u, v)
  {}

  predicate CellOf(objects: map<ObjectId, Object>, o: ObjectId, x: int, y: int) {
    o in objects && objects[o].position.gridX == x && objects[o].position.gridY == y
  }

  /** Every object of `listed` is in exactly one cell, once, the one its position names, and the cells
      hold nothing else. */
  ghost predicate Agrees(g: Grid, objects: map<ObjectId, Object>, listed: set<ObjectId>) {
    && (forall x, y, o: ObjectId :: Listed(g, x, y, o) == if o in listed && CellOf(objects, o, x, y) then 1 else 0)
    && (forall o :: o in listed ==> o in objects && Inside(g, objects[o].position.gridX, objects[o].position.gridY))
  }

  lemma PushAgrees(g: Grid, objects: map<ObjectId, Object>, listed: set<ObjectId>, o: ObjectId)
    requires Agrees(g, objects, listed) && o in objects && o !in listed
    requires Inside(g, objects[o].position.gridX, objects[o].position.gridY)
    ensures Agrees(PushAt(g, objects[o].position.gridX, objects[o].position.gridY, o), objects, listed + {o})
  {
    var x, y := objects[o].position.gridX, objects[o].position.gridY;
    hide PushAt, Listed, Inside;
    forall u, v, p: ObjectId
      ensures Listed(PushAt(g, x, y, o), u, v, p) == if p in listed + {o} && CellOf(objects, p, u, v) then 1 else 0
    {
      PushListed(g, x, y, o, u, v, p);
    }
    forall p | p in listed + {o} ensures Inside(PushAt(g, x, y, o), objects[p].position.gridX, objects[p].position.gridY) {
      PushListed(g, x, y, o, objects[p].position.gridX, objects[p].position.gridY, o);
    }
  }

  lemma EraseAgrees(g: Grid, objects: map<ObjectId, Object>, listed: set<ObjectId>, o: ObjectId)
    requires Agrees(g, objects, listed) && o in listed
    ensures Inside(g, objects[o].position.gridX, objects[o].position.gridY)
    ensures Agrees(EraseAt(g, objects[o].position.gridX, objects[o].position.gridY, o), objects, listed - {o})
  {
    var x, y := objects[o].position.gridX, objects[o].position.gridY;
    hide EraseAt, Listed, Inside;
    forall u, v, p: ObjectId
      ensures Listed(EraseAt(g, x, y, o), u, v, p) == if p in listed - {o} && CellOf(objects, p, u, v) then 1 else 0
    {
      EraseListed(g, x, y, o, u, v, p);
    }
    forall p | p in listed - {o} ensures Inside(EraseAt(g, x, y, o), objects[p].position.gridX, objects[p].position.gridY) {
      EraseListed(g, x, y, o, objects[p].position.gridX, objects[p].position.gridY, o);
    }
  }

  /** Objects that are not listed may come, go and move as they like. */
  lemma OnlyListedMatter(g: Grid, objects: map<ObjectId, Object>, objects': map<ObjectId, Object>, listed: set<ObjectId>)
    requires Agrees(g, objects, listed)
    requires forall o :: o in listed ==> o in objects' && objects'[o] == objects[o]
    ensures Agrees(g, objects', listed)
  {
    hide Listed, Inside;
    forall x, y, o: ObjectId ensures Listed(g, x, y, o) == if o in listed && CellOf(objects', o, x, y) then 1 else 0 {
      assert Listed(g, x, y, o) == if o in listed && CellOf(objects, o, x, y) then 1 else 0;
    }
  }

  // ---------------------------------------------------------------- the other indexes

  /** The table of players and the player objects determine each other. */
  predicate PlayersAgree(objects: map<ObjectId, Object>, players: map<nat, ObjectId>) {
    && (forall id :: id in players ==> players[id] in objects && KindOf(players[id]) == Player && objects[players[id]].owner == id)
    && (forall o :: o in objects && KindOf(o) == Player ==> objects[o].owner in players && players[objects[o].owner] == o)
  }

  /** So do the table of monsters by spawn point and the monsters: one to a spawn point at most. */
  predicate MobsAgree(objects: map<ObjectId, Object>, mobs: map<nat, ObjectId>) {
    && (forall spawn :: spawn in mobs ==> mobs[spawn] in objects && KindOf(mobs[spawn]) == Mob && objects[mobs[spawn]].owner == spawn)
    && (forall o :: o in objects && KindOf(o) == Mob ==> objects[o].owner in mobs && mobs[objects[o].owner] == o)
  }

  /** All three indexes. */
  ghost predicate Indexed(grid: Grid, objects: map<ObjectId, Object>, players: map<nat, ObjectId>, mobs: map<nat, ObjectId>,
                          maxX: int, maxY: int) {
    Agrees(grid, objects, objects.Keys) && PlayersAgree(objects, players) && MobsAgree(objects, mobs) && Square(grid, maxX, maxY)
  }

  /** The shape the constructor gives the grid. */
  ghost predicate Square(g: Grid, maxX: int, maxY: int) {
    |g| == maxY && forall y :: 0 <= y < |g| ==> |g[y]| == maxX
  }

  lemma SquareInside(g: Grid, maxX: int, maxY: int, x: int, y: int)
    requires Square(g, maxX, maxY)
    ensures Inside(g, x, y) <==> 0 <= x < maxX && 0 <= y < maxY
  {}

  lemma StaysSquare(g: Grid, maxX: int, maxY: int, x: int, y: int, o: ObjectId)
    requires Square(g, maxX, maxY) && Inside(g, x, y)
    ensures Square(PushAt(g, x, y, o), maxX, maxY) && Square(EraseAt(g, x, y, o), maxX, maxY)
  {}

  lemma AddedPlayer(grid: Grid, objects: map<ObjectId, Object>, players: map<nat, ObjectId>, mobs: map<nat, ObjectId>,
                    maxX: int, maxY: int, o: ObjectId, entity: Object)
    requires Indexed(grid, objects, players, mobs, maxX, maxY) && o !in objects && KindOf(o) == Player && entity.owner !in players
    requires Inside(grid, entity.position.gridX, entity.position.gridY)
    ensures Indexed(PushAt(grid, entity.position.gridX, entity.position.gridY, o), objects[o := entity], players[entity.owner := o], mobs, maxX, maxY)
  {
    hide Inside, Listed, PushAt, KindOf;
    var objects' := objects[o := entity];
    OnlyListedMatter(grid, objects, objects', objects.Keys);
    PushAgrees(grid, objects', objects.Keys, o);
    assert objects'.Keys == objects.Keys + {o};
    StaysSquare(grid, maxX, maxY, entity.position.gridX, entity.position.gridY, o);
  }

  /** The table without the entry of an object of that kind. */
  function Without(table: map<nat, ObjectId>, o: ObjectId, entity: Object, kind: Kind): map<nat, ObjectId> {
    if KindOf(o) == kind then table - {entity.owner} else table
  }

  lemma RemovedObject(grid: Grid, objects: map<ObjectId, Object>, players: map<nat, ObjectId>, mobs: map<nat, ObjectId>,
                      maxX: int, maxY: int, o: ObjectId)
    requires Indexed(grid, objects, players, mobs, maxX, maxY) && o in objects
    ensures Inside(grid, objects[o].position.gridX, objects[o].position.gridY)
    ensures Indexed(EraseAt(grid, objects[o].position.gridX, objects[o].position.gridY, o), objects - {o},
                    Without(players, o, objects[o], Player), Without(mobs, o, objects[o], Mob), maxX, maxY)
  {
    hide Inside, Listed, EraseAt, KindOf;
    EraseAgrees(grid, objects, objects.Keys, o);
    var grid' := EraseAt(grid, objects[o].position.gridX, objects[o].position.gridY, o);
    assert (objects - {o}).Keys == objects.Keys - {o};
    OnlyListedMatter(grid', objects, objects - {o}, objects.Keys - {o});
    StaysSquare(grid, maxX, maxY, objects[o].position.gridX, objects[o].position.gridY, o);
  }

  /** The table as it was before the object's position changed its cell. */
  function Before(objects: map<ObjectId, Object>, o: ObjectId, oldX: int, oldY: int): map<ObjectId, Object>
    requires o in objects
  {
    objects[o := objects[o].(position := objects[o].position.(gridX := oldX, gridY := oldY))]
  }

  lemma MovedObject(grid: Grid, objects: map<ObjectId, Object>, players: map<nat, ObjectId>, mobs: map<nat, ObjectId>,
                    maxX: int, maxY: int, o: ObjectId, oldX: int, oldY: int)
    requires o in objects && Indexed(grid, Before(objects, o, oldX, oldY), players, mobs, maxX, maxY)
    requires Inside(grid, objects[o].position.gridX, objects[o].position.gridY)
    ensures Inside(grid, oldX, oldY)
    ensures var erased := EraseAt(grid, oldX, oldY, o); var x, y := objects[o].position.gridX, objects[o].position.gridY;
      Inside(erased, x, y) && Indexed(PushAt(erased, x, y, o), objects, players, mobs, maxX, maxY)
  {
    var was := Before(objects, o, oldX, oldY);
    var x, y := objects[o].position.gridX, objects[o].position.gridY;
    hide Listed, EraseAt, PushAt, KindOf;
    EraseAgrees(grid, was, was.Keys, o);
    var erased := EraseAt(grid, oldX, oldY, o);
    EraseListed(grid, oldX, oldY, o, x, y, o);
    OnlyListedMatter(erased, was, objects, was.Keys - {o});
    PushAgrees(erased, objects, was.Keys - {o}, o);
    assert was.Keys - {o} + {o} == objects.Keys;
    StaysSquare(grid, maxX, maxY, oldX, oldY, o);
    StaysSquare(erased, maxX, maxY, x, y, o);
    TablesKept(objects, was, players, mobs, o);
  }

  /** The tables do not depend on positions. */
  lemma TablesKept(objects: map<ObjectId, Object>, was: map<ObjectId, Object>, players: map<nat, ObjectId>, mobs: map<nat, ObjectId>, o: ObjectId)
    requires o in objects && o in was && objects == was[o := objects[o]] && objects[o].owner == was[o].owner
    requires PlayersAgree(was, players) && MobsAgree(was, mobs)
    ensures PlayersAgree(objects, players) && MobsAgree(objects, mobs)
  {
    hide KindOf;
  }

  class MapInstance {
    const left: int
    const maxGridX: int
    const maxGridY: int
    var objects: map<ObjectId, Object>
    var players: map<nat, ObjectId>       // player id to the object of its session
    var mobs: map<nat, ObjectId>          // spawn point to its monster
    var spawns: map<nat, Position>
    var grid: Grid
    var lastRespawnTick: nat

    predicate InGrid(p: Position) {
      0 <= p.gridX < maxGridX && 0 <= p.gridY < maxGridY
    }

    ghost predicate Valid()
      reads this
    {
      && Indexed(grid, objects, players, mobs, maxGridX, maxGridY)
      && forall spawn :: spawn in spawns ==> InGrid(spawns[spawn])
    }

    constructor (leftBound: int, width: nat, height: nat)
      ensures Valid() && objects == map[] && maxGridX == Cells(width) && maxGridY == Cells(height) && left == leftBound
    {
      left := leftBound;
      maxGridX, maxGridY := width / GRID_SIZE + 1, height / GRID_SIZE + 1;
      objects, players, mobs, spawns, lastRespawnTick := map[], map[], map[], map[], 0;
      grid := seq(height / GRID_SIZE + 1, _ => seq(width / GRID_SIZE + 1, _ => []));
    }

    /** Refused exactly when the player id is here already.  `inBounds` says whether the cell exists;
        where it does not, the source leaves the grid access undefined and the model stops. */
    method AddPlayer(playerId: nat, o: ObjectId, position: Position) returns (inserted: bool, inBounds: bool)
      requires Valid() && KindOf(o) == Player && (playerId !in players ==> o !in objects)
      modifies this`objects, this`players, this`grid
      ensures inserted <==> playerId !in old(players)
      ensures inBounds <==> inserted ==> InGrid(position)
      ensures inBounds ==> Valid()
      ensures objects == if inserted then old(objects)[o := Object(playerId, position)] else old(objects)
      ensures players == if inserted then old(players)[playerId := o] else old(players)
    {
      inserted, inBounds := playerId !in players, true;
      if inserted {
        if !InGrid(position) {
          players := players[playerId := o];
          objects := objects[o := Object(playerId, position)];
          return true, false;
        }
        SquareInside(grid, maxGridX, maxGridY, position.gridX, position.gridY);
        AddedPlayer(grid, objects, players, mobs, maxGridX, maxGridY, o, Object(playerId, position));
        hide Indexed, PushAt;
        players := players[playerId := o];
        objects := objects[o := Object(playerId, position)];
        grid := PushAt(grid, position.gridX, position.gridY, o);
      }
    }

    /** `found` is false only for an absent monster, whose missing entry the source would use. */
    method RemoveObject(o: ObjectId) returns (ok: bool, found: bool)
      requires Valid()
      modifies this`objects, this`players, this`mobs, this`grid
      ensures found <==> o in old(objects) || KindOf(o) != Mob
      ensures Valid() && objects == old(objects) - {o}
      ensures found ==> (ok <==> o in old(objects) || KindOf(o) != Player)
    {
      ghost var was := objects;
      found := true;
      if o in objects {
        RemovedObject(grid, objects, players, mobs, maxGridX, maxGridY, o);
        grid := EraseAt(grid, objects[o].position.gridX, objects[o].position.gridY, o);
      }
      hide Indexed, EraseAt, KindOf;
      if KindOf(o) == Player {
        if o !in objects {
          assert objects - {o} == objects;
          return false, true;
        }
        players := players - {objects[o].owner};
      } else if KindOf(o) == Mob {
        if o !in objects {
          assert objects - {o} == objects;
          return false, false;
        }
        mobs := mobs - {objects[o].owner};
      }
      assert o !in objects ==> objects - {o} == objects;
      objects := objects - {o};
      ok := true;
    }

    /** `GameObject::UpdatePosition` of an object on this map. */
    method UpdatePosition(o: ObjectId, x: real, y: real)
      requires o in objects
      modifies this`objects
      ensures objects == old(objects)[o := old(objects)[o].(position := Placed(left, x, y))]
    {
      objects := objects[o := objects[o].(position := Placed(left, x, y))];
    }

    /** Called after the object has updated its own position, with the cell it was in. */
    method MoveObject(o: ObjectId, oldX: int, oldY: int)
      requires o in objects && InGrid(objects[o].position) && (forall spawn :: spawn in spawns ==> InGrid(spawns[spawn]))
      requires Indexed(grid, Before(objects, o, oldX, oldY), players, mobs, maxGridX, maxGridY)
      modifies this`grid
      ensures Valid()
    {
      var position := objects[o].position;
      SquareInside(grid, maxGridX, maxGridY, position.gridX, position.gridY);
      MovedObject(grid, objects, players, mobs, maxGridX, maxGridY, o, oldX, oldY);
      hide Indexed, EraseAt, PushAt;
      grid := EraseAt(grid, oldX, oldY, o);
      grid := PushAt(grid, position.gridX, position.gridY, o);
    }

    /** `inBounds` says whether the cell of the new place is in the grid, as those of places on the map
        are (`CellIsInside`); the source does not check, and its grid access is undefined otherwise. */
    method OnPlayerMove(o: ObjectId, x: real, y: real) returns (inBounds: bool)
      requires Valid() && o in objects
      modifies this`objects, this`grid
      ensures objects == old(objects)[o := old(objects)[o].(position := Placed(left, x, y))]
      ensures inBounds <==> InGrid(Placed(left, x, y))
      ensures inBounds ==> Valid()
    {
      var was := objects[o].position;
      ghost var before := objects;
      UpdatePosition(o, x, y);
      var position := objects[o].position;
      inBounds := InGrid(position);
      if !inBounds {
        return;
      }
      if was.gridX != position.gridX || was.gridY != position.gridY {
        SameTables(before, objects, o, was.gridX, was.gridY);
        MoveObject(o, was.gridX, was.gridY);
      } else {
        SameTables(before, objects, o, was.gridX, was.gridY);
        assert Before(objects, o, was.gridX, was.gridY) == objects;
      }
    }

    /** Whether a position's coordinates are those of the object does not matter to any index. */
    lemma SameTables(before: map<ObjectId, Object>, after: map<ObjectId, Object>, o: ObjectId, oldX: int, oldY: int)
      requires o in before && o in after && after == before[o := after[o]] && after[o].owner == before[o].owner
      requires before[o].position.gridX == oldX && before[o].position.gridY == oldY
      requires Indexed(grid, before, players, mobs, maxGridX, maxGridY)
      ensures Indexed(grid, Before(after, o, oldX, oldY), players, mobs, maxGridX, maxGridY)
    {
      hide KindOf, Listed, Inside;
      var was := Before(after, o, oldX, oldY);
      assert was.Keys == before.Keys;
      forall x, y, p: ObjectId ensures CellOf(was, p, x, y) == CellOf(before, p, x, y) {}
      TablesKept(was, before, players, mobs, o);
    }

    /** The tables while monsters are being added: the new ones, with ids from `firstId` on, are not in
        the grid yet. */
    ghost predicate Adding(was: map<ObjectId, Object>, wasMobs: map<nat, ObjectId>, added: seq<ObjectId>, firstId: ObjectId)
      reads this
    {
      && NewMobsOnly(was, wasMobs, objects, spawns)
      && (forall spawn :: spawn in wasMobs ==> spawn in mobs && mobs[spawn] == wasMobs[spawn])
      && PlayersAgree(objects, players) && MobsAgree(objects, mobs) && Fresh(added, was, objects)
      && (forall i :: 0 <= i < |added| ==> added[i] in objects && InGrid(objects[added[i]].position))
      && (forall o :: o in objects && KindOf(o) == Mob ==> o < firstId + |added|)
    }

    lemma StartAdding(firstId: ObjectId)
      requires PlayersAgree(objects, players) && MobsAgree(objects, mobs)
      requires forall o :: o in objects && KindOf(o) == Mob ==> o < firstId
      ensures Adding(objects, mobs, [], firstId)
    {
      hide PlayersAgree, MobsAgree, KindOf;
    }

    lemma AddingMeans(was: map<ObjectId, Object>, wasMobs: map<nat, ObjectId>, added: seq<ObjectId>, firstId: ObjectId)
      requires Adding(was, wasMobs, added, firstId)
      ensures NewMobsOnly(was, wasMobs, objects, spawns)
      ensures PlayersAgree(objects, players) && MobsAgree(objects, mobs) && Fresh(added, was, objects)
      ensures forall i :: 0 <= i < |added| ==> added[i] in objects && InGrid(objects[added[i]].position)
    {
      hide PlayersAgree, MobsAgree, KindOf, Fresh, NewMobsOnly;
    }

    /** A new monster at a spawn point that has none. */
    method AddMob(spawn: nat, o: ObjectId, ghost was: map<ObjectId, Object>, ghost wasMobs: map<nat, ObjectId>,
                  ghost added: seq<ObjectId>, ghost firstId: ObjectId)
      requires Adding(was, wasMobs, added, firstId) && o == firstId + |added| && KindOf(o) == Mob
      requires spawn in spawns && spawn !in mobs && InGrid(spawns[spawn])
      modifies this`objects, this`mobs
      ensures Adding(was, wasMobs, added + [o], firstId) && mobs == old(mobs)[spawn := o]
    {
      hide Fresh, PlayersAgree, MobsAgree, KindOf, InGrid, NewMobsOnly;
      IdIsUnused(objects, added, o, firstId);
      NewMob(objects, players, mobs, o, spawn, spawns[spawn], was, added);
      NewMobIsOne(was, wasMobs, objects, spawns, o, spawn);
      mobs := mobs[spawn := o];
      objects := objects[o := Object(spawn, spawns[spawn])];
    }

    /** The first loop: a new monster, with a new object id, for every spawn point that has none. */
    method FillSpawns(firstId: ObjectId) returns (added: seq<ObjectId>)
      requires Adding(objects, mobs, [], firstId) && (forall spawn :: spawn in spawns ==> InGrid(spawns[spawn]))
      requires 2 * OBJECT_RANGE <= firstId && firstId + |spawns| <= 3 * OBJECT_RANGE
      modifies this`objects, this`mobs
      ensures Adding(old(objects), old(mobs), added, firstId)
      ensures forall spawn :: spawn in spawns ==> spawn in mobs
    {
      hide Adding, InGrid, KindOf;
      var todo := spawns.Keys;
      added := [];
      ghost var was := objects;
      while todo != {}
        invariant todo <= spawns.Keys && |added| + |todo| <= |spawns|
        invariant Adding(was, old(mobs), added, firstId)
        invariant forall spawn :: spawn in spawns && spawn !in todo ==> spawn in mobs
        decreases |todo|
      {
        var spawn :| spawn in todo;
        todo := todo - {spawn};
        if spawn !in mobs {
          var o := firstId + |added|;
          MobId(o);
          AddMob(spawn, o, was, old(mobs), added, firstId);
          added := added + [o];
        }
      }
    }

    /** The second loop: the new monsters enter the grid. */
    method PushAll(added: seq<ObjectId>, ghost listed: set<ObjectId>)
      requires Agrees(grid, objects, listed) && Square(grid, maxGridX, maxGridY)
      requires forall i :: 0 <= i < |added| ==> added[i] in objects && added[i] !in listed && InGrid(objects[added[i]].position)
      requires forall i, j :: 0 <= i < j < |added| ==> added[i] != added[j]
      modifies this`grid
      ensures Agrees(grid, objects, listed + Set(added)) && Square(grid, maxGridX, maxGridY)
    {
      assert listed + Set(added[..0]) == listed;
      for i := 0 to |added|
        invariant Agrees(grid, objects, listed + Set(added[..i])) && Square(grid, maxGridX, maxGridY)
      {
        var o := added[i];
        var position := objects[o].position;
        SquareInside(grid, maxGridX, maxGridY, position.gridX, position.gridY);
        StaysSquare(grid, maxGridX, maxGridY, position.gridX, position.gridY, o);
        hide Agrees, Square, PushAt, Inside;
        assert added[..i + 1] == added[..i] + [o];
        assert o !in listed + Set(added[..i]);
        PushAgrees(grid, objects, listed + Set(added[..i]), o);
        assert listed + Set(added[..i]) + {o} == listed + Set(added[..i + 1]);
        grid := PushAt(grid, position.gridX, position.gridY, o);
      }
      assert added[..|added|] == added;
    }

    /** New monsters where they are missing, in the tables and in the grid. */
    method Respawn(firstId: ObjectId) returns (added: seq<ObjectId>)
      requires Valid() && 2 * OBJECT_RANGE <= firstId && firstId + |spawns| <= 3 * OBJECT_RANGE
      requires forall o :: o in objects && KindOf(o) == Mob ==> o < firstId
      modifies this`objects, this`mobs, this`grid
      ensures Valid() && (added == [] <==> objects == old(objects))
      ensures NewMobsOnly(old(objects), old(mobs), objects, spawns)
      ensures forall spawn :: spawn in spawns ==> spawn in mobs
      ensures forall o :: o in old(objects) ==> o in objects && objects[o] == old(objects)[o]
    {
      ghost var was, wasMobs := objects, mobs;
      StartAdding(firstId);
      hide Agrees, PlayersAgree, MobsAgree, Square, KindOf, Fresh, InGrid, NewMobsOnly, Adding;
      added := FillSpawns(firstId);
      AddingMeans(was, wasMobs, added, firstId);
      FreshMeans(added, was, objects);
      OnlyListedMatter(grid, was, objects, was.Keys);
      PushAll(added, was.Keys);
    }

    /** At most every 15 seconds, counted from the last time a monster was added.  Afterwards every
        spawn point has its monster. */
    method RespawnMobs(now: nat, firstId: ObjectId)
      requires Valid() && 2 * OBJECT_RANGE <= firstId && firstId + |spawns| <= 3 * OBJECT_RANGE
      requires forall o :: o in objects && KindOf(o) == Mob ==> o < firstId
      modifies this`objects, this`mobs, this`grid, this`lastRespawnTick
      ensures Valid()
      ensures old(lastRespawnTick) + RESPAWN_DELAY > now ==> objects == old(objects) && lastRespawnTick == old(lastRespawnTick)
      ensures old(lastRespawnTick) + RESPAWN_DELAY <= now ==> forall spawn :: spawn in spawns ==> spawn in mobs
      ensures lastRespawnTick == if objects == old(objects) then old(lastRespawnTick) else now
      ensures NewMobsOnly(old(objects), old(mobs), objects, spawns)
      ensures forall o :: o in old(objects) ==> o in objects && objects[o] == old(objects)[o]
    {
      hide Indexed, KindOf;
      if lastRespawnTick + RESPAWN_DELAY > now {
        return;
      }
      var added := Respawn(firstId);
      if added != [] {
        lastRespawnTick := now;
      }
    }
  }

  function Set(ids: seq<ObjectId>): set<ObjectId> {
    set o | o in ids
  }

  /** Exactly these objects have been added, all different. */
  ghost predicate Fresh(added: seq<ObjectId>, was: map<ObjectId, Object>, objects: map<ObjectId, Object>) {
    && (forall i :: 0 <= i < |added| ==> added[i] in objects && added[i] !in was)
    && (forall i, j :: 0 <= i < j < |added| ==> added[i] != added[j])
    && (forall o :: o in was ==> o in objects && objects[o] == was[o])
    && objects.Keys == was.Keys + Set(added)
  }

  lemma FreshMeans(added: seq<ObjectId>, was: map<ObjectId, Object>, objects: map<ObjectId, Object>)
    requires Fresh(added, was, objects)
    ensures was.Keys + Set(added) == objects.Keys && (added == [] <==> objects == was)
    ensures forall i :: 0 <= i < |added| ==> added[i] in objects && added[i] !in was.Keys
    ensures forall i, j :: 0 <= i < j < |added| ==> added[i] != added[j]
    ensures forall o :: o in was ==> o in objects && objects[o] == was[o]
  {
    if added == [] {
      assert objects.Keys == was.Keys;
    } else {
      assert added[0] in objects && added[0] !in was;
    }
  }

  /** Whatever has been added is a monster of a spawn point that had none, at that spawn point. */
  predicate NewMobsOnly(was: map<ObjectId, Object>, wasMobs: map<nat, ObjectId>, objects: map<ObjectId, Object>, spawns: map<nat, Position>) {
    forall o :: o in objects && o !in was ==>
      && KindOf(o) == Mob && objects[o].owner in spawns && objects[o].owner !in wasMobs
      && objects[o].position == spawns[objects[o].owner]
  }

  lemma NewMobIsOne(was: map<ObjectId, Object>, wasMobs: map<nat, ObjectId>, objects: map<ObjectId, Object>, spawns: map<nat, Position>,
                    o: ObjectId, spawn: nat)
    requires NewMobsOnly(was, wasMobs, objects, spawns) && KindOf(o) == Mob && spawn in spawns && spawn !in wasMobs
    ensures NewMobsOnly(was, wasMobs, objects[o := Object(spawn, spawns[spawn])], spawns)
  {
    hide KindOf;
  }

  lemma IdIsUnused(objects: map<ObjectId, Object>, added: seq<ObjectId>, o: ObjectId, firstId: ObjectId)
    requires KindOf(o) == Mob && o == firstId + |added|
    requires forall p :: p in objects && KindOf(p) == Mob ==> p < firstId + |added|
    ensures o !in objects
  {
    hide KindOf;
  }

  lemma MobId(o: ObjectId)
    requires 2 * OBJECT_RANGE <= o < 3 * OBJECT_RANGE
    ensures KindOf(o) == Mob
  {}

  lemma NewMob(objects: map<ObjectId, Object>, players: map<nat, ObjectId>, mobs: map<nat, ObjectId>, o: ObjectId, spawn: nat,
               position: Position, was: map<ObjectId, Object>, added: seq<ObjectId>)
    requires PlayersAgree(objects, players) && MobsAgree(objects, mobs) && Fresh(added, was, objects)
    requires KindOf(o) == Mob && o !in objects && spawn !in mobs
    ensures var objects' := objects[o := Object(spawn, position)];
      PlayersAgree(objects', players) && MobsAgree(objects', mobs[spawn := o]) && Fresh(added + [o], was, objects')
  {
    hide KindOf;
    var objects' := objects[o := Object(spawn, position)];
    assert objects'.Keys == objects.Keys + {o} && Set(added + [o]) == Set(added) + {o};
  }
}
