/**
 * The world (WorldModel.java): a 2-D occupancy grid and the set of live
 * entities, kept in step by add, move and remove. Entities live in an arena
 * addressed by handles; a removed entity stays in the arena, parked at
 * Offgrid, and is no longer live.
 */
module World {
  import opened Common
  import opened Geometry
  import opened Entities
  import opened Scheduler

  /** Where kind `k` is first listed in `kinds`; |kinds| when it is not listed. */
  function Rank(kinds: seq<Kind>, k: Kind): (i: nat)
    ensures i <= |kinds| && (i < |kinds| <==> k in kinds)
    ensures i < |kinds| ==> kinds[i] == k
    ensures forall j :: 0 <= j < i ==> kinds[j] != k
  {
    if |kinds| == 0 then 0
    else if kinds[0] == k then 0
    else 1 + Rank(kinds[1..], k)
  }

  /**
   * findNearest's candidate list after the first k kinds: `ofType` holds
   * live entities of those kinds, and `ends[j]` marks where kind j's
   * entities end, so that every live entity of kind j sits before ends[j]
   * and everything before ends[j] is of a kind among the first j + 1.
   */
  ghost predicate Collected(live: set<Handle>, arena: map<Handle, Entity>, kinds: seq<Kind>, k: nat,
                            ofType: seq<Handle>, ends: seq<nat>)
  {
    && live <= arena.Keys && k <= |kinds| && |ends| == k
    && (forall p :: 0 <= p < |ofType| ==> ofType[p] in live && arena[ofType[p]].kind in kinds[..k])
    && (forall j :: 0 <= j < k ==> ends[j] <= |ofType|)
    && (forall j, g :: 0 <= j < k && g in live && arena[g].kind == kinds[j] ==> g in ofType[..ends[j]])
    && (forall j, p :: 0 <= j < k && 0 <= p < ends[j] ==> arena[ofType[p]].kind in kinds[..j + 1])
  }

  /** Appending the live entities of kind k, as the inner loop finds them, extends Collected to k + 1 kinds. */
  lemma CollectKind(live: set<Handle>, arena: map<Handle, Entity>, kinds: seq<Kind>, k: nat,
                    ofType: seq<Handle>, ends: seq<nat>, found: seq<Handle>)
    requires Collected(live, arena, kinds, k, ofType, ends) && k < |kinds|
    requires forall i :: 0 <= i < |found| ==> found[i] in live && arena[found[i]].kind == kinds[k]
    requires forall g :: g in live && arena[g].kind == kinds[k] ==> g in found
    ensures Collected(live, arena, kinds, k + 1, ofType + found, ends + [|ofType + found|])
  {
    var ofType' := ofType + found;
    var ends' := ends + [|ofType'|];
    assert kinds[..k + 1] == kinds[..k] + [kinds[k]];
    forall j, g | 0 <= j < k + 1 && g in live && arena[g].kind == kinds[j]
      ensures g in ofType'[..ends'[j]]
    {
      if j < k {
        assert ofType'[..ends'[j]] == ofType[..ends[j]];
      } else {
        assert ofType'[..ends'[j]] == ofType';
        var i :| 0 <= i < |found| && found[i] == g;
        assert ofType'[|ofType| + i] == g;
      }
    }
    forall j, p | 0 <= j < k + 1 && 0 <= p < ends'[j]
      ensures arena[ofType'[p]].kind in kinds[..j + 1]
    {
      if j < k {
        assert ofType'[p] == ofType[p];
      } else if p < |ofType| {
        assert ofType'[p] == ofType[p];
        assert kinds[..k] <= kinds[..k + 1];
      } else {
        assert ofType'[p] == found[p - |ofType|];
      }
    }
    forall p | 0 <= p < |ofType'|
      ensures ofType'[p] in live && arena[ofType'[p]].kind in kinds[..k + 1]
    {
      if p < |ofType| {
        assert ofType'[p] == ofType[p];
      } else {
        assert ofType'[p] == found[p - |ofType|];
      }
    }
  }

  /**
   * The first nearest candidate of a complete Collected list is nearest
   * among all live entities of the kinds, and strictly nearer than every
   * live entity of a kind listed before its own.
   */
  lemma NearestCollected(live: set<Handle>, arena: map<Handle, Entity>, kinds: seq<Kind>,
                         ofType: seq<Handle>, ends: seq<nat>, positions: seq<Point>, pos: Point, t: nat)
    requires Collected(live, arena, kinds, |kinds|, ofType, ends)
    requires |positions| == |ofType| && forall p :: 0 <= p < |ofType| ==> positions[p] == arena[ofType[p]].position
    requires t < |positions| && IsNearest(positions, pos, t)
    requires forall j :: 0 <= j < t ==> DistanceSquared(positions[t], pos) < DistanceSquared(positions[j], pos)
    ensures forall g :: g in live && arena[g].kind in kinds ==>
              DistanceSquared(arena[ofType[t]].position, pos) <= DistanceSquared(arena[g].position, pos)
    ensures forall g :: g in live && Rank(kinds, arena[g].kind) < Rank(kinds, arena[ofType[t]].kind) ==>
              DistanceSquared(arena[ofType[t]].position, pos) < DistanceSquared(arena[g].position, pos)
  {
    forall g | g in live && arena[g].kind in kinds
      ensures DistanceSquared(arena[ofType[t]].position, pos) <= DistanceSquared(arena[g].position, pos)
    {
      var i :| 0 <= i < |kinds| && kinds[i] == arena[g].kind;
      var p :| 0 <= p < ends[i] && ofType[p] == g;
      assert positions[p] == arena[g].position;
    }
    forall g | g in live && Rank(kinds, arena[g].kind) < Rank(kinds, arena[ofType[t]].kind)
      ensures DistanceSquared(arena[ofType[t]].position, pos) < DistanceSquared(arena[g].position, pos)
    {
      var i := Rank(kinds, arena[g].kind);
      assert arena[ofType[t]].kind !in kinds[..i + 1];
      var p :| 0 <= p < ends[i] && ofType[p] == g;
      assert positions[p] == arena[g].position;
    }
  }

  class WorldModel {
    const numRows: int
    const numCols: int
    /** occupancy[y, x]: the entity at column x, row y, if any. */
    const occupancy: array2<Option<Handle>>
    var entities: set<Handle>
    var arena: map<Handle, Entity>
    /** The next handle to hand out: models allocation of a new Entity object. */
    var nextHandle: Handle

    predicate Shaped() {
      occupancy.Length0 == numRows && occupancy.Length1 == numCols
    }

    /** Whether `p` is a cell of the grid; the parking point of removed entities never is. */
    predicate WithinBounds(p: Point)
      ensures WithinBounds(p) ==> p != Offgrid
    {
      0 <= p.y < numRows && 0 <= p.x < numCols
    }

    /** What holds at every step, even in the middle of a move. */
    ghost predicate WellFormed()
      reads this, occupancy
    {
      && Shaped()
      && entities <= arena.Keys
      && (forall h :: h in arena ==> h < nextHandle)
      && (forall h :: h in arena ==> 0.0 <= arena[h].actionPeriod && 0.0 <= arena[h].animationPeriod)
      && (forall y, x :: 0 <= y < numRows && 0 <= x < numCols && occupancy[y, x].Some? ==>
            occupancy[y, x].value in arena)
    }

    /**
     * The occupancy invariant: an entity is live exactly when its position is
     * on the grid; every live entity's cell holds it; every non-empty cell
     * holds a live entity whose position is that cell. So a cell holds at
     * most one entity and a live entity is in exactly one cell.
     */
    ghost predicate Valid()
      reads this, occupancy
    {
      && WellFormed()
      && (forall h :: h in arena ==> (h in entities <==> WithinBounds(arena[h].position)))
      && (forall h :: h in entities ==> occupancy[arena[h].position.y, arena[h].position.x] == Some(h))
      && (forall y, x :: 0 <= y < numRows && 0 <= x < numCols && occupancy[y, x].Some? ==>
            occupancy[y, x].value in entities && arena[occupancy[y, x].value].position == Point(x, y))
    }

    /** An empty world of the given size, as the loader creates before adding entities. */
    constructor (numRows: nat, numCols: nat)
      ensures Valid() && fresh(occupancy)
      ensures this.numRows == numRows && this.numCols == numCols
      ensures entities == {} && arena == map[] && nextHandle == 0
    {
      this.numRows := numRows;
      this.numCols := numCols;
      occupancy := new Option<Handle>[numRows, numCols]((y, x) => None);
      entities := {};
      arena := map[];
      nextHandle := 0;
    }

    function GetOccupancyCell(p: Point): Option<Handle>
      reads occupancy
      requires Shaped() && WithinBounds(p)
    {
      occupancy[p.y, p.x]
    }

    /** Under the occupancy invariant a cell holds exactly the live entity standing in it, if there is one. */
    lemma CellHoldsItsStander(p: Point)
      requires Valid() && WithinBounds(p)
      ensures GetOccupancyCell(p).Some? ==> GetOccupancyCell(p).value in entities
      ensures forall h :: h in entities ==> (GetOccupancyCell(p) == Some(h) <==> arena[h].position == p)
    {
    }

    method SetOccupancyCell(p: Point, v: Option<Handle>)
      requires Shaped() && WithinBounds(p)
      modifies occupancy
      ensures occupancy[p.y, p.x] == v
      ensures forall y, x :: 0 <= y < numRows && 0 <= x < numCols && (y != p.y || x != p.x) ==>
                occupancy[y, x] == old(occupancy[y, x])
    {
      occupancy[p.y, p.x] := v;
    }

    /** Whether `p` is a grid cell holding an entity; a point off the grid is never occupied and is not read. */
    predicate IsOccupied(p: Point)
      reads occupancy
      requires Shaped()
      ensures IsOccupied(p) ==> WithinBounds(p)
    {
      WithinBounds(p) && GetOccupancyCell(p).Some?
    }

    /** The occupant of a cell: present iff the cell is occupied, and then a live entity standing there. */
    function GetOccupant(p: Point): (r: Option<Handle>)
      reads this, occupancy
      requires Shaped()
      ensures r.Some? <==> IsOccupied(p)
      ensures r.Some? ==> WithinBounds(p) && r == GetOccupancyCell(p)
      ensures Valid() && r.Some? ==> r.value in entities && arena[r.value].position == p
      ensures Valid() && r.None? ==> forall h :: h in entities ==> arena[h].position != p
    {
      if IsOccupied(p) then GetOccupancyCell(p) else None
    }

    /**
     * Places a new entity. The source assumes the target cell is empty; an
     * entity outside the grid is recorded but does not become live.
     */
    method AddEntity(e: Entity) returns (h: Handle)
      requires Valid()
      requires !IsOccupied(e.position)
      requires 0.0 <= e.actionPeriod && 0.0 <= e.animationPeriod
      modifies this, occupancy
      ensures Valid()
      ensures h == old(nextHandle) && h !in old(arena) && arena == old(arena)[h := e]
      ensures entities == if WithinBounds(e.position) then old(entities) + {h} else old(entities)
      ensures WithinBounds(e.position) ==> GetOccupancyCell(e.position) == Some(h)
    {
      h := nextHandle;
      nextHandle := nextHandle + 1;
      arena := arena[h := e];
      if WithinBounds(e.position) {
        SetOccupancyCell(e.position, Some(h));
        entities := entities + {h};
      }
    }

    /** addEntity guarded against an occupied cell, which throws and changes nothing. */
    method TryAddEntity(e: Entity) returns (r: Result<Handle>)
      requires Valid()
      requires 0.0 <= e.actionPeriod && 0.0 <= e.animationPeriod
      modifies this, occupancy
      ensures Valid()
      ensures r.Err? <==> old(IsOccupied(e.position))
      ensures r.Err? ==> r.error == PositionOccupied && unchanged(this, occupancy)
      ensures r.Ok? ==> && r.value == old(nextHandle) && arena == old(arena)[r.value := e]
                        && entities == if WithinBounds(e.position) then old(entities) + {r.value} else old(entities)
    {
      if IsOccupied(e.position) {
        return Err(PositionOccupied);
      }
      var h := AddEntity(e);
      return Ok(h);
    }

    /** Overwrites the record of an entity in a way that keeps its cell and its kind. */
    method UpdateEntity(h: Handle, e: Entity)
      requires Valid() && h in arena
      requires e.position == arena[h].position && e.kind == arena[h].kind
      requires e.actionPeriod == arena[h].actionPeriod && e.animationPeriod == arena[h].animationPeriod
      modifies this
      ensures Valid()
      ensures arena == old(arena)[h := e] && entities == old(entities) && nextHandle == old(nextHandle)
    {
      arena := arena[h := e];
    }

    /**
     * Removes whatever entity occupies `p`: it is parked at Offgrid, leaves the
     * live set and its cell is cleared. A no-op when `p` is off the grid or empty.
     */
    method RemoveEntityAt(p: Point)
      requires WellFormed()
      modifies this, occupancy
      ensures WellFormed() && nextHandle == old(nextHandle)
      ensures if old(IsOccupied(p)) then
                var g := old(GetOccupancyCell(p)).value;
                entities == old(entities) - {g} && arena == old(arena)[g := old(arena[g]).(position := Offgrid)]
              else
                entities == old(entities) && arena == old(arena)
      ensures WithinBounds(p) ==> GetOccupancyCell(p) == None
      ensures forall y, x :: 0 <= y < numRows && 0 <= x < numCols && (y != p.y || x != p.x) ==>
                occupancy[y, x] == old(occupancy[y, x])
      ensures old(Valid()) ==> Valid()
    {
      if WithinBounds(p) && GetOccupancyCell(p).Some? {
        var g := GetOccupancyCell(p).value;
        arena := arena[g := arena[g].(position := Offgrid)];
        entities := entities - {g};
        SetOccupancyCell(p, None);
      }
    }

    /**
     * Destroys an entity: cancels all its pending events, then clears the
     * cell at its recorded position. On a live entity of a valid world this
     * removes exactly that entity; on one already removed it changes nothing
     * in the world.
     */
    method RemoveEntity(s: EventScheduler, h: Handle)
      requires WellFormed() && s.Valid() && h in arena
      modifies this, occupancy, s
      ensures WellFormed() && nextHandle == old(nextHandle)
      ensures s.Valid()
      ensures s.queue == DropEntity(old(s.queue), h) && s.pending == old(s.pending) - {h}
      ensures s.currentTime == old(s.currentTime) && s.nextSerial == old(s.nextSerial)
      ensures var p := old(arena[h].position);
              && (WithinBounds(p) ==> GetOccupancyCell(p) == None)
              && (forall y, x :: 0 <= y < numRows && 0 <= x < numCols && (y != p.y || x != p.x) ==>
                    occupancy[y, x] == old(occupancy[y, x]))
              && if old(IsOccupied(p)) then
                   var g := old(GetOccupancyCell(p)).value;
                   entities == old(entities) - {g} && arena == old(arena)[g := old(arena[g]).(position := Offgrid)]
                 else
                   entities == old(entities) && arena == old(arena)
      ensures old(Valid()) ==> Valid()
      ensures old(Valid()) && h in old(entities) ==>
                entities == old(entities) - {h} && arena == old(arena)[h := old(arena[h]).(position := Offgrid)]
      ensures old(Valid()) && h !in old(entities) ==> entities == old(entities) && arena == old(arena)
    {
      s.UnscheduleAllEvents(h);
      RemoveEntityAt(arena[h].position);
    }

    /**
     * The world in the middle of a move: valid for every entity but the live
     * entity `h`, whose cell has been cleared and which no cell holds.
     */
    ghost predicate Lifted(h: Handle)
      reads this, occupancy
    {
      && WellFormed() && h in entities
      && (forall g :: g in arena && g != h ==> (g in entities <==> WithinBounds(arena[g].position)))
      && (forall g :: g in entities && g != h ==> occupancy[arena[g].position.y, arena[g].position.x] == Some(g))
      && (forall y, x :: 0 <= y < numRows && 0 <= x < numCols && occupancy[y, x].Some? ==>
            && occupancy[y, x].value in entities && occupancy[y, x].value != h
            && arena[occupancy[y, x].value].position == Point(x, y))
    }

    /** First step of moveEntity: clear the mover's cell. */
    method Vacate(h: Handle)
      requires Valid() && h in entities
      modifies occupancy
      ensures Lifted(h)
      ensures GetOccupancyCell(arena[h].position) == None
      ensures forall y, x :: 0 <= y < numRows && 0 <= x < numCols && Point(x, y) != arena[h].position ==>
                occupancy[y, x] == old(occupancy[y, x])
    {
      SetOccupancyCell(arena[h].position, None);
    }

    /** Last step of moveEntity: put the mover into the free cell `pos`. */
    method Settle(h: Handle, pos: Point)
      requires Lifted(h) && WithinBounds(pos) && GetOccupancyCell(pos) == None
      modifies this, occupancy
      ensures Valid()
      ensures entities == old(entities) && nextHandle == old(nextHandle)
      ensures arena == old(arena)[h := old(arena[h]).(position := pos)]
    {
      SetOccupancyCell(pos, Some(h));
      arena := arena[h := arena[h].(position := pos)];
    }

    /**
     * Moves a live entity to `pos`. Nothing happens when `pos` is off the grid
     * or is where the entity already stands. Otherwise its old cell is
     * cleared, an entity already at `pos` is destroyed (events cancelled),
     * and the mover takes the cell.
     */
    method MoveEntity(s: EventScheduler, h: Handle, pos: Point)
      requires Valid() && s.Valid() && h in entities
      modifies this, occupancy, s
      ensures Valid() && s.Valid() && h in entities && nextHandle == old(nextHandle)
      ensures s.currentTime == old(s.currentTime) && s.nextSerial == old(s.nextSerial)
      ensures var from := old(arena[h].position);
              if !WithinBounds(pos) || pos == from then
                && entities == old(entities) && arena == old(arena)
                && s.queue == old(s.queue) && s.pending == old(s.pending)
              else
                var victim := old(GetOccupant(pos));
                && arena[h] == old(arena[h]).(position := pos)
                && (victim.None? ==>
                      && entities == old(entities) && arena == old(arena)[h := arena[h]]
                      && s.queue == old(s.queue) && s.pending == old(s.pending))
                && (victim.Some? ==>
                      && victim.value != h
                      && entities == old(entities) - {victim.value}
                      && arena == old(arena)[victim.value := old(arena[victim.value]).(position := Offgrid)][h := arena[h]]
                      && s.queue == DropEntity(old(s.queue), victim.value)
                      && s.pending == old(s.pending) - {victim.value})
    {
      var oldPos := arena[h].position;
      if WithinBounds(pos) && pos != oldPos {
        Vacate(h);
        var occupant := GetOccupant(pos);
        if occupant.Some? {
          RemoveEntity(s, occupant.value);
        }
        Settle(h, pos);
      }
    }

    /** No live entity is of any of `kinds`. */
    ghost predicate NoneOfKinds(kinds: seq<Kind>)
      reads this
      requires entities <= arena.Keys
    {
      forall g :: g in entities ==> arena[g].kind !in kinds
    }

    /** Whether `t` is a live entity of one of `kinds` at least as close to `pos` as every other such entity. */
    ghost predicate IsNearestOfKinds(pos: Point, kinds: seq<Kind>, t: Handle)
      reads this
      requires entities <= arena.Keys
    {
      && t in entities && arena[t].kind in kinds
      && forall g :: g in entities && arena[g].kind in kinds ==>
           DistanceSquared(arena[t].position, pos) <= DistanceSquared(arena[g].position, pos)
    }

    /**
     * Ties across kinds go to the kind listed first: every live entity of a
     * kind listed before `t`'s kind first appears in `kinds` is strictly
     * farther from `pos` than `t`.
     */
    ghost predicate EarlierKindsFarther(pos: Point, kinds: seq<Kind>, t: Handle)
      reads this
      requires entities <= arena.Keys && t in arena
    {
      forall g :: g in entities && Rank(kinds, arena[g].kind) < Rank(kinds, arena[t].kind) ==>
        DistanceSquared(arena[t].position, pos) < DistanceSquared(arena[g].position, pos)
    }

    /** The inner loop of findNearest: the live entities of one kind, in the live set's unspecified iteration order. */
    method OfKind(kind: Kind) returns (found: seq<Handle>)
      requires Valid()
      ensures forall i :: 0 <= i < |found| ==> found[i] in entities && arena[found[i]].kind == kind
      ensures forall g :: g in entities && arena[g].kind == kind ==> g in found
    {
      found := [];
      var remaining := entities;
      while remaining != {}
        invariant remaining <= entities
        invariant forall i :: 0 <= i < |found| ==> found[i] in entities && arena[found[i]].kind == kind
        invariant forall g :: g in entities - remaining && arena[g].kind == kind ==> g in found
        decreases remaining
      {
        var g :| g in remaining;
        if arena[g].kind == kind {
          found := found + [g];
        }
        remaining := remaining - {g};
      }
    }

    /**
     * The outer loop of findNearest: the live entities of each kind in
     * turn, in the order the kinds are listed; `ends` marks where each
     * kind's run ends.
     */
    method OfKinds(kinds: seq<Kind>) returns (ofType: seq<Handle>, ghost ends: seq<nat>)
      requires Valid()
      ensures forall p :: 0 <= p < |ofType| ==> ofType[p] in entities && arena[ofType[p]].kind in kinds
      ensures forall g :: g in entities && arena[g].kind in kinds ==> g in ofType
      ensures Collected(entities, arena, kinds, |kinds|, ofType, ends)
    {
      ofType := [];
      ends := [];
      for k := 0 to |kinds|
        invariant Collected(entities, arena, kinds, k, ofType, ends)
      {
        var found := OfKind(kinds[k]);
        CollectKind(entities, arena, kinds, k, ofType, ends, found);
        ofType := ofType + found;
        ends := ends + [|ofType|];
      }
      assert kinds[..|kinds|] == kinds;
      forall g | g in entities && arena[g].kind in kinds
        ensures g in ofType
      {
        var i :| 0 <= i < |kinds| && kinds[i] == arena[g].kind;
        assert g in ofType[..ends[i]];
      }
    }

    /**
     * Collects the live entities of the given kinds, kind by kind in the
     * order listed, and returns the first nearest one to `pos`: within a
     * kind the live set's iteration order decides a tie, across kinds the
     * kind listed first wins.
     */
    method FindNearest(pos: Point, kinds: seq<Kind>) returns (r: Option<Handle>)
      requires Valid()
      ensures r.None? <==> NoneOfKinds(kinds)
      ensures r.Some? ==> IsNearestOfKinds(pos, kinds, r.value)
      ensures r.Some? ==> EarlierKindsFarther(pos, kinds, r.value)
    {
      var ofType, ends := OfKinds(kinds);
      var records := arena;
      var positions := seq(|ofType|, i requires 0 <= i < |ofType| && ofType[i] in records => records[ofType[i]].position);
      var nearest := NearestEntity(positions, pos);
      if nearest.None? {
        return None;
      }
      NearestCollected(entities, arena, kinds, ofType, ends, positions, pos, nearest.value);
      return Some(ofType[nearest.value]);
    }
  }
}
