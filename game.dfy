/**
 * The tile-grid demo: a 20 x 20 board whose tiles record who stands on them
 * and how much resource they hold, a player and four NPCs with fixed roles,
 * the guarded move, and the NPCs' deterministic target choices. The random
 * moves are parameters.
 */
module Game {
  import opened Wrappers

  const GridSize: nat := 20

  /** The NPC roles, in the order the NPCs are listed. */
  datatype Role = Gatherer | Builder | Attacker | Defender

  const Roles: seq<Role> := [Gatherer, Builder, Attacker, Defender]

  /** Who stands on a tile: the player or the NPC at index `k`. */
  datatype Occupant = Hero | Npc(k: nat)

  /** The arrow keys the player handler reads. */
  datatype Arrow = ArrowUp | ArrowDown | ArrowLeft | ArrowRight | OtherKey

  predicate InGrid(x: int, y: int)
  {
    0 <= x < GridSize && 0 <= y < GridSize
  }

  function Abs(n: int): nat
  {
    if n < 0 then -n else n
  }

  /**
   * The tile (nx, ny) is one the role may aim at from (x, y), with `rand` the
   * random step: the defender stays, the builder takes the random step, the
   * attacker moves at most one tile per axis, and so does the gatherer
   * unless it steps randomly.
   */
  predicate Intended(role: Role, x: int, y: int, nx: int, ny: int, rand: (int, int))
  {
    match role
    case Defender => nx == x && ny == y
    case Builder => nx == x + rand.0 && ny == y + rand.1
    case Attacker => Abs(nx - x) <= 1 && Abs(ny - y) <= 1
    case Gatherer => (Abs(nx - x) <= 1 && Abs(ny - y) <= 1) || (nx == x + rand.0 && ny == y + rand.1)
  }

  /** `Math.abs(x1 - x2) + Math.abs(y1 - y2)`. */
  function Manhattan(x1: int, y1: int, x2: int, y2: int): nat
  {
    Abs(x1 - x2) + Abs(y1 - y2)
  }

  /** `a + (t > a ? 1 : t < a ? -1 : 0)`: one step from `a` toward `t`. */
  function Toward(a: int, t: int): int
  {
    a + (if t > a then 1 else if t < a then -1 else 0)
  }

  /** A step moves by at most one and gets exactly one closer, unless it is already there. */
  lemma TowardStep(a: int, t: int)
    ensures Abs(Toward(a, t) - a) <= 1
    ensures Abs(t - Toward(a, t)) == if a == t then 0 else Abs(t - a) - 1
    ensures Toward(a, t) == t <==> Abs(t - a) <= 1
  {
  }

  /** Row-major scan order: tile (a, b) is visited before tile (i, j). */
  predicate Before(a: int, b: int, i: int, j: int)
  {
    a < i || (a == i && b < j)
  }

  /** The game state `game.js` keeps in its closure. */
  class World {
    /** `grid[x][y].occupied`. */
    const occupied: array2<Option<Occupant>>
    /** `grid[x][y].resource`. */
    const resource: array2<int>
    var playerX: int
    var playerY: int
    var npcX: seq<int>
    var npcY: seq<int>
    /** The gatherer's `resources`. */
    var gathered: int

    /** Where an occupant stands. */
    function PosX(o: Occupant): int
      reads this
      requires o.Npc? ==> o.k < |npcX|
    {
      if o.Hero? then playerX else npcX[o.k]
    }

    function PosY(o: Occupant): int
      reads this
      requires o.Npc? ==> o.k < |npcY|
    {
      if o.Hero? then playerY else npcY[o.k]
    }

    /** Tile (x, y) is where occupant `o` stands. */
    predicate Holds(o: Occupant, x: int, y: int)
      reads this
    {
      match o
      case Hero => playerX == x && playerY == y
      case Npc(k) => k < |npcX| && k < |npcY| && npcX[k] == x && npcY[k] == y
    }

    /**
     * The occupancy invariant: every character stands inside the board on a
     * tile that names it, and every tile that names someone is where that
     * one stands; resources are never negative.
     */
    ghost predicate Valid()
      reads this, occupied, resource
    {
      && occupied.Length0 == GridSize && occupied.Length1 == GridSize
      && resource.Length0 == GridSize && resource.Length1 == GridSize
      && |npcX| == |Roles| && |npcY| == |Roles|
      && InGrid(playerX, playerY) && occupied[playerX, playerY] == Some(Hero)
      && (forall k :: 0 <= k < |npcX| ==> InGrid(npcX[k], npcY[k]) && occupied[npcX[k], npcY[k]] == Some(Npc(k)))
      && (forall x, y :: InGrid(x, y) && occupied[x, y].Some? ==> Holds(occupied[x, y].value, x, y))
      && (forall x, y :: InGrid(x, y) ==> resource[x, y] >= 0)
      && gathered >= 0
    }

    /** The starting board: resources where `hasResource` says (10 each), characters at their start tiles. */
    constructor (hasResource: (int, int) -> bool)
      ensures Valid() && fresh(occupied) && fresh(resource)
      ensures playerX == 2 && playerY == 2 && npcX == [5, 7, 10, 12] && npcY == [5, 7, 10, 12] && gathered == 0
      ensures forall x, y :: InGrid(x, y) ==> resource[x, y] == if hasResource(x, y) then 10 else 0
    {
      var occ := new Option<Occupant>[GridSize, GridSize]((x, y) => None);
      var res := new int[GridSize, GridSize]((x, y) => if hasResource(x, y) then 10 else 0);
      occ[2, 2] := Some(Hero);
      occ[5, 5] := Some(Npc(0));
      occ[7, 7] := Some(Npc(1));
      occ[10, 10] := Some(Npc(2));
      occ[12, 12] := Some(Npc(3));
      occupied, resource := occ, res;
      playerX, playerY := 2, 2;
      npcX, npcY := [5, 7, 10, 12], [5, 7, 10, 12];
      gathered := 0;
    }

    /** In a valid state no two characters share a tile. */
    lemma NoSharedTile(a: Occupant, b: Occupant)
      requires Valid() && a != b
      requires a.Npc? ==> a.k < |npcX|
      requires b.Npc? ==> b.k < |npcX|
      ensures PosX(a) != PosX(b) || PosY(a) != PosY(b)
    {
      assert occupied[PosX(a), PosY(a)] == Some(a);
      assert occupied[PosX(b), PosY(b)] == Some(b);
    }

    /**
     * `moveCharacter(char, newX, newY)`: only onto a free tile inside the
     * board; the old tile is cleared, the new one names the character, and
     * nothing else changes. Any other target changes nothing.
     */
    method MoveCharacter(o: Occupant, nx: int, ny: int) returns (moved: bool)
      requires Valid() && (o.Npc? ==> o.k < |npcX|)
      modifies this, occupied
      ensures Valid()
      ensures moved <==> InGrid(nx, ny) && old(occupied[nx, ny]).None?
      ensures moved ==> PosX(o) == nx && PosY(o) == ny
      ensures moved ==> occupied[old(PosX(o)), old(PosY(o))] == None && occupied[nx, ny] == Some(o)
      ensures moved ==> forall x, y :: InGrid(x, y) && !(x == nx && y == ny) && !(x == old(PosX(o)) && y == old(PosY(o))) ==>
        occupied[x, y] == old(occupied[x, y])
      ensures moved && o.Hero? ==> npcX == old(npcX) && npcY == old(npcY)
      ensures moved && o.Npc? ==> npcX == old(npcX)[o.k := nx] && npcY == old(npcY)[o.k := ny]
      ensures moved && o.Npc? ==> playerX == old(playerX) && playerY == old(playerY)
      ensures !moved ==> unchanged(this) && unchanged(occupied)
      ensures gathered == old(gathered)
    {
      moved := InGrid(nx, ny) && occupied[nx, ny].None?;
      if moved {
        var ox, oy := PosX(o), PosY(o);
        occupied[ox, oy] := None;
        if o.Hero? {
          playerX, playerY := nx, ny;
        } else {
          npcX, npcY := npcX[o.k := nx], npcY[o.k := ny];
        }
        occupied[nx, ny] := Some(o);
        assert forall k :: 0 <= k < |npcX| && Npc(k) != o ==> npcX[k] == old(npcX[k]) && npcY[k] == old(npcY[k]);
      }
    }

    /** The player's keydown handler: one tile in the arrow's direction, through `moveCharacter`. */
    method PlayerKey(key: Arrow) returns (moved: bool)
      requires Valid()
      modifies this, occupied
      ensures Valid()
      ensures var nx := old(playerX) + (if key == ArrowLeft then -1 else if key == ArrowRight then 1 else 0);
        var ny := old(playerY) + (if key == ArrowUp then -1 else if key == ArrowDown then 1 else 0);
        (moved <==> InGrid(nx, ny) && old(occupied[nx, ny]).None?) &&
        (moved ==> playerX == nx && playerY == ny) &&
        (!moved ==> playerX == old(playerX) && playerY == old(playerY))
      ensures npcX == old(npcX) && npcY == old(npcY)
    {
      var nx, ny := playerX, playerY;
      if key == ArrowUp { ny := ny - 1; }
      if key == ArrowDown { ny := ny + 1; }
      if key == ArrowLeft { nx := nx - 1; }
      if key == ArrowRight { nx := nx + 1; }
      moved := MoveCharacter(Hero, nx, ny);
    }

    /**
     * `t` is the gatherer's target from (x, y): `None` exactly when no tile
     * holds a resource, else a resource tile at the least Manhattan distance,
     * the first such in row-major order.
     */
    ghost predicate NearestResourceIs(x: int, y: int, t: Option<(int, int)>)
      reads this, resource
    {
      && resource.Length0 == GridSize && resource.Length1 == GridSize
      && (t.None? <==> forall a, b :: InGrid(a, b) ==> resource[a, b] <= 0)
      && (t.Some? ==>
        && InGrid(t.value.0, t.value.1) && resource[t.value.0, t.value.1] > 0
        && (forall a, b :: InGrid(a, b) && resource[a, b] > 0 ==>
              Manhattan(t.value.0, t.value.1, x, y) <= Manhattan(a, b, x, y))
        && (forall a, b :: InGrid(a, b) && resource[a, b] > 0 && Before(a, b, t.value.0, t.value.1) ==>
              Manhattan(t.value.0, t.value.1, x, y) < Manhattan(a, b, x, y)))
    }

    /**
     * `t` is the attacker's target for NPC `me` at distance `d`: `None`
     * exactly when there is no other NPC, else another NPC at the least
     * Manhattan distance, the first such in list order.
     */
    ghost predicate NearestOtherIs(me: nat, t: Option<nat>, d: nat)
      reads this
    {
      && me < |npcX| == |npcY|
      && (t.None? <==> |npcX| == 1)
      && (t.Some? ==>
        && t.value < |npcX| && t.value != me
        && d == Manhattan(npcX[t.value], npcY[t.value], npcX[me], npcY[me])
        && (forall k :: 0 <= k < |npcX| && k != me ==>
              d <= Manhattan(npcX[k], npcY[k], npcX[me], npcY[me]) &&
              (k < t.value ==> d < Manhattan(npcX[k], npcY[k], npcX[me], npcY[me]))))
    }

    /**
     * The gatherer's search: a resource tile at the least Manhattan distance
     * from (x, y), the first such tile in row-major order; `None` when no
     * tile holds a resource.
     */
    method NearestResource(x: int, y: int) returns (target: Option<(int, int)>)
      requires Valid()
      ensures NearestResourceIs(x, y, target)
    {
      target := None;
      var minDist := 0;
      for i := 0 to GridSize
        invariant target.None? ==> forall a, b :: InGrid(a, b) && a < i ==> resource[a, b] <= 0
        invariant target.Some? ==> InGrid(target.value.0, target.value.1) && target.value.0 < i
        invariant target.Some? ==> resource[target.value.0, target.value.1] > 0
        invariant target.Some? ==> minDist == Manhattan(target.value.0, target.value.1, x, y)
        invariant target.Some? ==> forall a, b :: InGrid(a, b) && a < i && resource[a, b] > 0 ==>
          minDist <= Manhattan(a, b, x, y) &&
          (Before(a, b, target.value.0, target.value.1) ==> minDist < Manhattan(a, b, x, y))
      {
        target, minDist := ScanColumn(x, y, i, target, minDist);
      }
    }

    /** The inner loop of the search over column `i`, starting from the best tile so far. */
    method ScanColumn(x: int, y: int, i: nat, best: Option<(int, int)>, bestDist: int)
      returns (target: Option<(int, int)>, minDist: int)
      requires Valid() && i < GridSize
      requires best.None? ==> forall a, b :: InGrid(a, b) && a < i ==> resource[a, b] <= 0
      requires best.Some? ==> InGrid(best.value.0, best.value.1) && best.value.0 < i
      requires best.Some? ==> resource[best.value.0, best.value.1] > 0
      requires best.Some? ==> bestDist == Manhattan(best.value.0, best.value.1, x, y)
      requires best.Some? ==> forall a, b :: InGrid(a, b) && a < i && resource[a, b] > 0 ==>
        bestDist <= Manhattan(a, b, x, y) &&
        (Before(a, b, best.value.0, best.value.1) ==> bestDist < Manhattan(a, b, x, y))
      ensures target.None? ==> forall a, b :: InGrid(a, b) && a <= i ==> resource[a, b] <= 0
      ensures target.Some? ==> InGrid(target.value.0, target.value.1) && target.value.0 <= i
      ensures target.Some? ==> resource[target.value.0, target.value.1] > 0
      ensures target.Some? ==> minDist == Manhattan(target.value.0, target.value.1, x, y)
      ensures target.Some? ==> forall a, b :: InGrid(a, b) && a <= i && resource[a, b] > 0 ==>
        minDist <= Manhattan(a, b, x, y) &&
        (Before(a, b, target.value.0, target.value.1) ==> minDist < Manhattan(a, b, x, y))
    {
      target, minDist := best, bestDist;
      for j := 0 to GridSize
        invariant target.None? ==> forall a, b :: InGrid(a, b) && Before(a, b, i, j) ==> resource[a, b] <= 0
        invariant target.Some? ==> InGrid(target.value.0, target.value.1) && Before(target.value.0, target.value.1, i, j)
        invariant target.Some? ==> resource[target.value.0, target.value.1] > 0
        invariant target.Some? ==> minDist == Manhattan(target.value.0, target.value.1, x, y)
        invariant target.Some? ==> forall a, b :: InGrid(a, b) && Before(a, b, i, j) && resource[a, b] > 0 ==>
          minDist <= Manhattan(a, b, x, y) &&
          (Before(a, b, target.value.0, target.value.1) ==> minDist < Manhattan(a, b, x, y))
      {
        if resource[i, j] > 0 {
          var dist := Manhattan(i, j, x, y);
          if target.None? || dist < minDist {
            target, minDist := Some((i, j)), dist;
          }
        }
      }
    }

    /**
     * The attacker's search: another NPC at the least Manhattan distance from
     * NPC `me`, the first such in list order, with that distance.
     */
    method NearestOther(me: nat) returns (target: Option<nat>, minDist: nat)
      requires Valid() && me < |npcX|
      ensures NearestOtherIs(me, target, minDist)
    {
      target, minDist := None, 0;
      for k := 0 to |npcX|
        invariant target.None? <==> k == 0 || (k == 1 && me == 0)
        invariant target.Some? ==> target.value < k && target.value != me
        invariant target.Some? ==> minDist == Manhattan(npcX[target.value], npcY[target.value], npcX[me], npcY[me])
        invariant target.Some? ==> forall m :: 0 <= m < k && m != me ==>
          minDist <= Manhattan(npcX[m], npcY[m], npcX[me], npcY[me]) &&
          (m < target.value ==> minDist < Manhattan(npcX[m], npcY[m], npcX[me], npcY[me]))
      {
        if k != me {
          var dist := Manhattan(npcX[k], npcY[k], npcX[me], npcY[me]);
          if target.None? || dist < minDist {
            target, minDist := Some(k), dist;
          }
        }
      }
    }

    /** The gatherer collects the resource on (a, b): it adds to `gathered` and the tile is left empty. */
    method Collect(a: int, b: int)
      requires Valid() && InGrid(a, b)
      modifies this`gathered, resource
      ensures Valid()
      ensures gathered == old(gathered) + old(resource[a, b]) && resource[a, b] == 0
      ensures forall x, y :: InGrid(x, y) && (x != a || y != b) ==> resource[x, y] == old(resource[x, y])
    {
      gathered := gathered + resource[a, b];
      resource[a, b] := 0;
    }

    /**
     * The gatherer's aim: a step toward the first nearest resource tile, or
     * the random step when no tile holds a resource; it collects the resource
     * when the step reaches that tile.
     */
    method GathererAim(k: nat, rand: (int, int)) returns (nx: int, ny: int, ghost aim: Option<(int, int)>)
      requires Valid() && k < |npcX|
      modifies this`gathered, resource
      ensures Valid()
      ensures Intended(Gatherer, npcX[k], npcY[k], nx, ny, rand)
      ensures old(allocated(aim)) && old(NearestResourceIs(npcX[k], npcY[k], aim))
      ensures aim.Some? ==> nx == Toward(npcX[k], aim.value.0) && ny == Toward(npcY[k], aim.value.1)
      ensures aim.None? ==> nx == npcX[k] + rand.0 && ny == npcY[k] + rand.1
      ensures gathered > old(gathered) ==>
        InGrid(nx, ny) && resource[nx, ny] == 0 && gathered == old(gathered) + old(resource[nx, ny])
      ensures gathered >= old(gathered)
    {
      var x, y := npcX[k], npcY[k];
      var t := NearestResource(x, y);
      aim := t;
      if t.Some? {
        nx, ny := Toward(x, t.value.0), Toward(y, t.value.1);
        TowardStep(x, t.value.0);
        TowardStep(y, t.value.1);
        if nx == t.value.0 && ny == t.value.1 {
          Collect(nx, ny);
        }
      } else {
        nx, ny := x + rand.0, y + rand.1;
      }
    }

    /**
     * The attacker's aim: it stays when no other NPC exists or the nearest is
     * within distance 1, and otherwise steps toward the first nearest one.
     */
    method AttackerAim(k: nat) returns (nx: int, ny: int, ghost foe: Option<nat>, ghost foeDist: nat)
      requires Valid() && k < |npcX|
      ensures NearestOtherIs(k, foe, foeDist)
      ensures (foe.None? || foeDist <= 1) ==> nx == npcX[k] && ny == npcY[k]
      ensures foe.Some? && foeDist > 1 ==> nx == Toward(npcX[k], npcX[foe.value]) && ny == Toward(npcY[k], npcY[foe.value])
      ensures Abs(nx - npcX[k]) <= 1 && Abs(ny - npcY[k]) <= 1
    {
      var t, d := NearestOther(k);
      foe, foeDist := t, d;
      nx, ny := npcX[k], npcY[k];
      if t.Some? && d > 1 {
        nx, ny := Toward(nx, npcX[t.value]), Toward(ny, npcY[t.value]);
        TowardStep(npcX[k], npcX[t.value]);
        TowardStep(npcY[k], npcY[t.value]);
      }
    }

    /**
     * The first half of an NPC's turn: the tile its role aims at, with the
     * gatherer's pickup when it aims at the resource tile; nobody moves yet.
     * The gatherer steps toward the first nearest resource tile, and steps
     * randomly only when no tile holds a resource. The attacker stays when no
     * other NPC exists or the nearest is within distance 1, and otherwise
     * steps toward it. `aim`, `foe` and `foeDist` are those searches' results.
     */
    method NpcIntent(k: nat, rand: (int, int))
      returns (nx: int, ny: int, ghost aim: Option<(int, int)>, ghost foe: Option<nat>, ghost foeDist: nat)
      requires Valid() && k < |npcX|
      modifies this`gathered, resource
      ensures Valid()
      ensures playerX == old(playerX) && playerY == old(playerY) && npcX == old(npcX) && npcY == old(npcY)
      ensures Intended(Roles[k], npcX[k], npcY[k], nx, ny, rand)
      ensures Roles[k] == Gatherer ==>
        old(allocated(aim)) && old(NearestResourceIs(npcX[k], npcY[k], aim)) &&
        (aim.Some? ==> nx == Toward(npcX[k], aim.value.0) && ny == Toward(npcY[k], aim.value.1)) &&
        (aim.None? ==> nx == npcX[k] + rand.0 && ny == npcY[k] + rand.1)
      ensures Roles[k] == Attacker ==>
        NearestOtherIs(k, foe, foeDist) &&
        ((foe.None? || foeDist <= 1) ==> nx == npcX[k] && ny == npcY[k]) &&
        (foe.Some? && foeDist > 1 ==> nx == Toward(npcX[k], npcX[foe.value]) && ny == Toward(npcY[k], npcY[foe.value]))
      ensures gathered > old(gathered) ==>
        Roles[k] == Gatherer && InGrid(nx, ny) && resource[nx, ny] == 0 &&
        gathered == old(gathered) + old(resource[nx, ny])
      ensures Roles[k] != Gatherer ==> gathered == old(gathered) && unchanged(resource)
      ensures gathered >= old(gathered)
    {
      nx, ny := npcX[k], npcY[k];
      aim, foe, foeDist := None, None, 0;
      match Roles[k] {
        case Gatherer =>
          nx, ny, aim := GathererAim(k, rand);
        case Builder =>
          nx, ny := nx + rand.0, ny + rand.1;
        case Attacker =>
          nx, ny, foe, foeDist := AttackerAim(k);
        case Defender =>
      }
    }

    /**
     * One NPC's turn: the intended tile, then `moveCharacter`. The NPC ends
     * on the intended tile when that is a free tile of the board, else where
     * it stood; nobody else moves. `aim`, `foe` and `foeDist` are the
     * searches' results, as in `NpcIntent`.
     */
    method NpcTurn(k: nat, rand: (int, int))
      returns (nx: int, ny: int, ghost aim: Option<(int, int)>, ghost foe: Option<nat>, ghost foeDist: nat)
      requires Valid() && k < |npcX|
      modifies this, occupied, resource
      ensures Valid()
      ensures Intended(Roles[k], old(npcX[k]), old(npcY[k]), nx, ny, rand)
      ensures Roles[k] == Gatherer ==>
        old(allocated(aim)) && old(NearestResourceIs(npcX[k], npcY[k], aim)) &&
        (aim.Some? ==> nx == Toward(old(npcX[k]), aim.value.0) && ny == Toward(old(npcY[k]), aim.value.1)) &&
        (aim.None? ==> nx == old(npcX[k]) + rand.0 && ny == old(npcY[k]) + rand.1)
      ensures Roles[k] == Attacker ==>
        old(allocated(foe)) && old(NearestOtherIs(k, foe, foeDist)) &&
        ((foe.None? || foeDist <= 1) ==> nx == old(npcX[k]) && ny == old(npcY[k])) &&
        (foe.Some? && foeDist > 1 ==>
          nx == Toward(old(npcX[k]), old(npcX[foe.value])) && ny == Toward(old(npcY[k]), old(npcY[foe.value])))
      ensures InGrid(nx, ny) && old(occupied[nx, ny]).None? ==>
        npcX == old(npcX)[k := nx] && npcY == old(npcY)[k := ny]
      ensures !(InGrid(nx, ny) && old(occupied[nx, ny]).None?) ==> npcX == old(npcX) && npcY == old(npcY)
      ensures playerX == old(playerX) && playerY == old(playerY)
      ensures gathered > old(gathered) ==>
        Roles[k] == Gatherer && InGrid(nx, ny) && resource[nx, ny] == 0 &&
        gathered == old(gathered) + old(resource[nx, ny])
      ensures Roles[k] != Gatherer ==> gathered == old(gathered) && unchanged(resource)
      ensures gathered >= old(gathered)
    {
      nx, ny, aim, foe, foeDist := NpcIntent(k, rand);
      var moved := MoveCharacter(Npc(k), nx, ny);
    }

    /**
     * `updateNPCs()`: every NPC takes its turn in list order. An NPC moves
     * only in its own turn and starts it where it stood before the round, so
     * each ends on a step its role allows from its starting tile, or stays;
     * the player stays.
     */
    method UpdateNPCs(rands: seq<(int, int)>)
      requires Valid() && |rands| == |npcX|
      modifies this, occupied, resource
      ensures Valid()
      ensures |npcX| == |old(npcX)| && gathered >= old(gathered)
      ensures playerX == old(playerX) && playerY == old(playerY)
      ensures forall j :: 0 <= j < |npcX| ==>
        (npcX[j] == old(npcX[j]) && npcY[j] == old(npcY[j])) ||
        Intended(Roles[j], old(npcX[j]), old(npcY[j]), npcX[j], npcY[j], rands[j])
    {
      for k := 0 to |npcX|
        invariant Valid() && |npcX| == |Roles| && gathered >= old(gathered)
        invariant playerX == old(playerX) && playerY == old(playerY)
        invariant forall j :: k <= j < |npcX| ==> npcX[j] == old(npcX[j]) && npcY[j] == old(npcY[j])
        invariant forall j :: 0 <= j < k ==>
          (npcX[j] == old(npcX[j]) && npcY[j] == old(npcY[j])) ||
          Intended(Roles[j], old(npcX[j]), old(npcY[j]), npcX[j], npcY[j], rands[j])
      {
        var nx, ny, _, _, _ := NpcTurn(k, rands[k]);
      }
    }
  }
}
