/**
 * Entity behaviour (Entity.java, Action.java): the next-position rules,
 * the move-toward-target helpers, the plant and dude transformations, the
 * per-kind activities, action dispatch and the scheduler's time-advance
 * loop, which runs the actions and so needs both the world and the queue.
 */
module Behaviour {
  import opened Common
  import opened Geometry
  import opened Entities
  import opened Actions
  import opened Scheduler
  import opened World

  /**
   * The simulation invariant: world and scheduler are each consistent, and
   * every queued event belongs to a live entity whose kind can run it, so
   * no dispatch ever hits an unsupported-operation exception.
   */
  ghost predicate Inv(w: WorldModel, s: EventScheduler)
    reads w, w.occupancy, s
  {
    && w.Valid() && s.Valid()
    && (forall ev :: ev in s.queue ==> ev.entity in w.entities && Dispatchable(ev.action, w.arena[ev.entity].kind))
  }

  /** Every random tree draw lies in the documented ranges. */
  ghost predicate DrawsInRange(rng: Handle -> TreeDraw) {
    forall n :: TreeDrawInRange(rng(n))
  }

  /** The stump left behind by a plant (id "stump_" + the plant's id, same cell). */
  function StumpOf(e: Entity): Entity {
    CreateStump(StumpKey + "_" + e.id, e.position)
  }

  /** The tree a sapling grows into (id "tree_" + the sapling's id, same cell, drawn parameters). */
  function GrownTree(e: Entity, d: TreeDraw): Entity {
    CreateTree(TreeKey + "_" + e.id, e.position, d.actionPeriod, d.animationPeriod, d.health)
  }

  /** The sapling a fairy plants where a stump stood (id "sapling_" + the stump's id, the stump's cell). */
  function SaplingFor(stump: Entity): Entity {
    CreateSapling(SaplingKey + "_" + stump.id, stump.position, 0)
  }

  /** The full dude a not-full dude turns into (same id, cell, periods and limit). */
  function FullDudeOf(e: Entity): Entity {
    CreateDudeFull(e.id, e.position, e.actionPeriod, e.animationPeriod, e.resourceLimit)
  }

  /** The empty dude a full dude turns into at its house (same id, cell, periods and limit). */
  function EmptyDudeOf(e: Entity): Entity {
    CreateDudeNotFull(e.id, e.position, e.actionPeriod, e.animationPeriod, e.resourceLimit)
  }

  /** The queue with the events of a destroyed entity, if any, cancelled. */
  function Cancelled(q: seq<Event>, victim: Option<Handle>): seq<Event> {
    match victim
    case None => q
    case Some(v) => DropEntity(q, v)
  }

  /**
   * Entity `h` was destroyed (parked off the grid) and `e` added as the new
   * live entity `n`; every other record is as before.
   */
  ghost predicate Replaced(e0: set<Handle>, a0: map<Handle, Entity>, e1: set<Handle>, a1: map<Handle, Entity>,
                           h: Handle, n: Handle, e: Entity)
  {
    && h in a0 && n !in a0
    && e1 == e0 - {h} + {n}
    && a1.Keys == a0.Keys + {n}
    && a1[n] == e
    && a1[h] == a0[h].(position := Offgrid)
    && (forall g :: g in a0 && g != h ==> a1[g] == a0[g])
  }

  /** The arena after dude `h` takes one unit from plant `t`: its load goes up and the plant's health down. */
  function Harvested(a: map<Handle, Entity>, h: Handle, t: Handle): (r: map<Handle, Entity>)
    requires h in a && t in a
    ensures r.Keys == a.Keys
  {
    a[h := a[h].(resourceCount := a[h].resourceCount + 1)][t := a[t].(health := a[t].health - 1)]
  }

  /**
   * Entity `h` stepped to `next`; `victim`, if any, stood there and was
   * destroyed; every other record is as before.
   */
  ghost predicate SteppedTo(e0: set<Handle>, a0: map<Handle, Entity>, e1: set<Handle>, a1: map<Handle, Entity>,
                            h: Handle, next: Point, victim: Option<Handle>)
    requires h in a0
  {
    match victim
    case None =>
      e1 == e0 && a1 == a0[h := a0[h].(position := next)]
    case Some(v) =>
      && v in a0 && v != h && a0[v].position == next
      && e1 == e0 - {v}
      && a1 == a0[v := a0[v].(position := Offgrid)][h := a0[h].(position := next)]
  }

  /**
   * The bookkeeping of one action, from live set e0, arena handles k0, queue
   * q0 and serial counter n0 to live set e1, arena handles k1 and queue q1:
   * no handle is ever freed, a destroyed entity never comes back, every
   * event now queued was queued before or issued during the action, and an
   * event leaves the queue only because its entity was destroyed.
   */
  ghost predicate Bookkept(e0: set<Handle>, k0: set<Handle>, q0: seq<Event>, n0: nat,
                           e1: set<Handle>, k1: set<Handle>, q1: seq<Event>)
  {
    && k0 <= k1
    && (forall g :: g in e1 ==> g in e0 || g !in k0)
    && (forall ev :: ev in q1 ==> ev in q0 || ev.serial >= n0)
    && (forall ev :: ev in q0 && ev !in q1 ==> ev.entity !in e1)
  }

  /** An action that only queues freshly issued events keeps the books. */
  lemma AppendBookkept(e0: set<Handle>, k0: set<Handle>, q0: seq<Event>, n0: nat, issued: seq<Event>)
    requires forall ev :: ev in issued ==> ev.serial >= n0
    ensures Bookkept(e0, k0, q0, n0, e0, k0, q0 + issued)
  {
  }

  /** Replacing `h` by a new entity, cancelling `h`'s events and queueing issued ones keeps the books. */
  lemma ReplacedBookkept(e0: set<Handle>, a0: map<Handle, Entity>, q0: seq<Event>, n0: nat,
                         e1: set<Handle>, a1: map<Handle, Entity>, q1: seq<Event>,
                         h: Handle, n: Handle, e: Entity, issued: seq<Event>)
    requires Replaced(e0, a0, e1, a1, h, n, e)
    requires q1 == DropEntity(q0, h) + issued && forall ev :: ev in issued ==> ev.serial >= n0
    ensures Bookkept(e0, a0.Keys, q0, n0, e1, a1.Keys, q1)
  {
  }

  /** A step that tramples `victim`, cancelling its events, then queues issued ones keeps the books. */
  lemma SteppedBookkept(e0: set<Handle>, a0: map<Handle, Entity>, q0: seq<Event>, n0: nat,
                        e1: set<Handle>, a1: map<Handle, Entity>, q1: seq<Event>,
                        h: Handle, next: Point, victim: Option<Handle>, issued: seq<Event>)
    requires h in a0 && SteppedTo(e0, a0, e1, a1, h, next, victim)
    requires q1 == Cancelled(q0, victim) + issued && forall ev :: ev in issued ==> ev.serial >= n0
    ensures Bookkept(e0, a0.Keys, q0, n0, e1, a1.Keys, q1)
  {
  }

  /**
   * nextPositionFairy: one step toward `dest`, along x when that cell is
   * free, else along y when that cell is free, else stay.
   */
  function NextPositionFairy(w: WorldModel, p: Point, dest: Point): (r: Point)
    reads w.occupancy
    requires w.Shaped()
    ensures r == p || r == StepX(p, dest) || r == StepY(p, dest)
    ensures r != p ==> Adjacent(p, r) && DistanceSquared(r, dest) < DistanceSquared(p, dest) && !w.IsOccupied(r)
    ensures p.x != dest.x && !w.IsOccupied(StepX(p, dest)) ==> r == StepX(p, dest)
    ensures r == p ==> && (p.x == dest.x || w.IsOccupied(StepX(p, dest)))
                       && (p.y == dest.y || w.IsOccupied(StepY(p, dest)))
    ensures w.WithinBounds(p) && w.WithinBounds(dest) ==> w.WithinBounds(r)
  {
    var horiz := Signum(dest.x - p.x);
    var stepX := Point(p.x + horiz, p.y);
    if horiz == 0 || w.IsOccupied(stepX) then
      var vert := Signum(dest.y - p.y);
      var stepY := Point(p.x, p.y + vert);
      if vert == 0 || w.IsOccupied(stepY) then p
      else StepTowardIsCloser(p, dest, stepY); stepY
    else StepTowardIsCloser(p, dest, stepX); stepX
  }

  /** A cell that stops a dude: occupied by anything but a stump. */
  predicate BlocksDude(w: WorldModel, q: Point)
    reads w, w.occupancy
    requires w.WellFormed()
  {
    w.IsOccupied(q) && w.arena[w.GetOccupancyCell(q).value].kind != Stump
  }

  /**
   * nextPositionDude: as for the fairy, but a dude may step onto a stump
   * (which the move then destroys).
   */
  function NextPositionDude(w: WorldModel, p: Point, dest: Point): (r: Point)
    reads w, w.occupancy
    requires w.WellFormed()
    ensures r == p || r == StepX(p, dest) || r == StepY(p, dest)
    ensures r != p ==> Adjacent(p, r) && DistanceSquared(r, dest) < DistanceSquared(p, dest) && !BlocksDude(w, r)
    ensures p.x != dest.x && !BlocksDude(w, StepX(p, dest)) ==> r == StepX(p, dest)
    ensures r == p ==> && (p.x == dest.x || BlocksDude(w, StepX(p, dest)))
                       && (p.y == dest.y || BlocksDude(w, StepY(p, dest)))
    ensures w.WithinBounds(p) && w.WithinBounds(dest) ==> w.WithinBounds(r)
  {
    var horiz := Signum(dest.x - p.x);
    var stepX := Point(p.x + horiz, p.y);
    if horiz == 0 || BlocksDude(w, stepX) then
      var vert := Signum(dest.y - p.y);
      var stepY := Point(p.x, p.y + vert);
      if vert == 0 || BlocksDude(w, stepY) then p
      else StepTowardIsCloser(p, dest, stepY); stepY
    else StepTowardIsCloser(p, dest, stepX); stepX
  }

  /**
   * moveToFairy: next to the target stump, destroy it and report arrival;
   * otherwise step toward it (never onto an occupied cell).
   */
  method MoveToFairy(w: WorldModel, s: EventScheduler, h: Handle, t: Handle) returns (arrived: bool)
    requires Inv(w, s) && h in w.entities && t in w.entities
    modifies w, w.occupancy, s
    ensures Inv(w, s) && w.nextHandle == old(w.nextHandle)
    ensures s.currentTime == old(s.currentTime) && s.nextSerial == old(s.nextSerial)
    ensures arrived <==> Adjacent(old(w.arena[h].position), old(w.arena[t].position))
    ensures arrived ==> && w.entities == old(w.entities) - {t}
                        && w.arena == old(w.arena)[t := old(w.arena[t]).(position := Offgrid)]
                        && s.queue == DropEntity(old(s.queue), t)
                        && w.WithinBounds(old(w.arena[t].position)) && !w.IsOccupied(old(w.arena[t].position))
    ensures !arrived ==>
              var next := old(NextPositionFairy(w, w.arena[h].position, w.arena[t].position));
              && SteppedTo(old(w.entities), old(w.arena), w.entities, w.arena, h, next, None)
              && s.queue == old(s.queue)
  {
    var p := w.arena[h].position;
    var tp := w.arena[t].position;
    if Adjacent(p, tp) {
      w.RemoveEntity(s, t);
      return true;
    }
    var next := NextPositionFairy(w, p, tp);
    if p != next {
      w.MoveEntity(s, h, next);
    } else {
      assert w.arena == w.arena[h := w.arena[h].(position := next)];
    }
    return false;
  }

  /** The entity a dude stepping from `p` to `next` would trample: the occupant of `next`, if it moves at all. */
  function Trampled(w: WorldModel, p: Point, next: Point): Option<Handle>
    reads w, w.occupancy
    requires w.Shaped()
  {
    if next == p then None else w.GetOccupant(next)
  }

  /**
   * Shared step of moveToNotFull and moveToFull when the target is not yet
   * adjacent: compute the dude's next position and move there, destroying
   * a stump that stands on it.
   */
  method StepDude(w: WorldModel, s: EventScheduler, h: Handle, dest: Point)
    requires Inv(w, s) && h in w.entities && w.WithinBounds(dest)
    modifies w, w.occupancy, s
    ensures Inv(w, s) && h in w.entities && w.nextHandle == old(w.nextHandle)
    ensures s.currentTime == old(s.currentTime) && s.nextSerial == old(s.nextSerial)
    ensures var p := old(w.arena[h].position);
            var next := old(NextPositionDude(w, p, dest));
            var victim := old(Trampled(w, p, next));
            && SteppedTo(old(w.entities), old(w.arena), w.entities, w.arena, h, next, victim)
            && (victim.Some? ==> old(w.arena[victim.value].kind) == Stump)
            && s.queue == Cancelled(old(s.queue), victim)
  {
    var p := w.arena[h].position;
    var next := NextPositionDude(w, p, dest);
    if p != next {
      w.MoveEntity(s, h, next);
    } else {
      assert w.arena == w.arena[h := w.arena[h].(position := next)];
    }
  }

  /** The harvest itself: the dude takes one unit and the plant loses one health. */
  method Harvest(w: WorldModel, s: EventScheduler, h: Handle, t: Handle)
    requires Inv(w, s) && h in w.entities && t in w.entities && h != t
    modifies w
    ensures Inv(w, s) && w.nextHandle == old(w.nextHandle)
    ensures w.entities == old(w.entities) && w.arena == Harvested(old(w.arena), h, t)
  {
    var dude := w.arena[h];
    w.UpdateEntity(h, dude.(resourceCount := dude.resourceCount + 1));
    var plant := w.arena[t];
    w.UpdateEntity(t, plant.(health := plant.health - 1));
  }

  /**
   * moveToNotFull: next to the target plant, take one unit from it (the
   * dude's count goes up, the plant's health down) and report arrival;
   * otherwise step toward it.
   */
  method MoveToNotFull(w: WorldModel, s: EventScheduler, h: Handle, t: Handle) returns (arrived: bool)
    requires Inv(w, s) && h in w.entities && t in w.entities
    modifies w, w.occupancy, s
    ensures Inv(w, s) && h in w.entities && w.nextHandle == old(w.nextHandle)
    ensures s.currentTime == old(s.currentTime) && s.nextSerial == old(s.nextSerial)
    ensures arrived <==> Adjacent(old(w.arena[h].position), old(w.arena[t].position))
    ensures arrived ==> && w.entities == old(w.entities)
                        && w.arena == Harvested(old(w.arena), h, t)
                        && s.queue == old(s.queue)
    ensures !arrived ==>
              var p := old(w.arena[h].position);
              var next := old(NextPositionDude(w, p, w.arena[t].position));
              var victim := old(Trampled(w, p, next));
              && SteppedTo(old(w.entities), old(w.arena), w.entities, w.arena, h, next, victim)
              && (victim.Some? ==> old(w.arena[victim.value].kind) == Stump)
              && s.queue == Cancelled(old(s.queue), victim)
  {
    var p := w.arena[h].position;
    var tp := w.arena[t].position;
    if Adjacent(p, tp) {
      Harvest(w, s, h, t);
      return true;
    }
    StepDude(w, s, h, tp);
    return false;
  }

  /** moveToFull: report arrival next to the target house, otherwise step toward it. */
  method MoveToFull(w: WorldModel, s: EventScheduler, h: Handle, t: Handle) returns (arrived: bool)
    requires Inv(w, s) && h in w.entities && t in w.entities
    modifies w, w.occupancy, s
    ensures Inv(w, s) && h in w.entities && w.nextHandle == old(w.nextHandle)
    ensures s.currentTime == old(s.currentTime) && s.nextSerial == old(s.nextSerial)
    ensures arrived <==> Adjacent(old(w.arena[h].position), old(w.arena[t].position))
    ensures arrived ==> w.entities == old(w.entities) && w.arena == old(w.arena) && s.queue == old(s.queue)
    ensures !arrived ==>
              var p := old(w.arena[h].position);
              var next := old(NextPositionDude(w, p, w.arena[t].position));
              var victim := old(Trampled(w, p, next));
              && SteppedTo(old(w.entities), old(w.arena), w.entities, w.arena, h, next, victim)
              && (victim.Some? ==> old(w.arena[victim.value].kind) == Stump)
              && s.queue == Cancelled(old(s.queue), victim)
  {
    var p := w.arena[h].position;
    var tp := w.arena[t].position;
    if Adjacent(p, tp) {
      return true;
    }
    StepDude(w, s, h, tp);
    return false;
  }

  /**
   * The addEntity-then-scheduleActions pair every transformation ends with:
   * the new entity takes the free cell under a issued handle and is armed.
   */
  method AddAndArm(w: WorldModel, s: EventScheduler, e: Entity) returns (n: Handle)
    requires Inv(w, s)
    requires w.WithinBounds(e.position) && !w.IsOccupied(e.position)
    requires 0.0 <= e.actionPeriod && 0.0 <= e.animationPeriod
    modifies w, w.occupancy, s
    ensures Inv(w, s) && s.currentTime == old(s.currentTime)
    ensures n == old(w.nextHandle) && n !in old(w.arena)
    ensures w.entities == old(w.entities) + {n} && w.arena == old(w.arena)[n := e]
    ensures s.queue == old(s.queue) + Arming(old(s.nextSerial), old(s.currentTime), n, e)
    ensures s.nextSerial == old(s.nextSerial) + |Arming(old(s.nextSerial), old(s.currentTime), n, e)|
  {
    n := w.AddEntity(e);
    s.ScheduleActions(n, e);
  }

  /**
   * removeEntity of a live entity under the simulation invariant: it
   * leaves the grid, its events are cancelled and its cell is free.
   */
  method Retire(w: WorldModel, s: EventScheduler, h: Handle)
    requires Inv(w, s) && h in w.entities
    modifies w, w.occupancy, s
    ensures Inv(w, s) && w.nextHandle == old(w.nextHandle)
    ensures s.currentTime == old(s.currentTime) && s.nextSerial == old(s.nextSerial)
    ensures w.entities == old(w.entities) - {h} && w.arena == old(w.arena)[h := old(w.arena[h]).(position := Offgrid)]
    ensures s.queue == DropEntity(old(s.queue), h)
    ensures w.WithinBounds(old(w.arena[h].position)) && !w.IsOccupied(old(w.arena[h].position))
  {
    w.RemoveEntity(s, h);
  }

  /**
   * transformNotFull's removal: removeEntity followed by an explicit
   * unscheduleAllEvents, which finds nothing left to cancel.
   */
  method RetireTwice(w: WorldModel, s: EventScheduler, h: Handle)
    requires Inv(w, s) && h in w.entities
    modifies w, w.occupancy, s
    ensures Inv(w, s) && w.nextHandle == old(w.nextHandle)
    ensures s.currentTime == old(s.currentTime) && s.nextSerial == old(s.nextSerial)
    ensures w.entities == old(w.entities) - {h} && w.arena == old(w.arena)[h := old(w.arena[h]).(position := Offgrid)]
    ensures s.queue == DropEntity(old(s.queue), h)
    ensures w.WithinBounds(old(w.arena[h].position)) && !w.IsOccupied(old(w.arena[h].position))
  {
    Retire(w, s, h);
    DropAbsentEntity(s.queue, h);
    s.UnscheduleAllEvents(h);
  }

  /**
   * The removeEntity-then-addEntity pair that leaves a stump where plant
   * `h` stood; a stump is never armed.
   */
  method BecomeStump(w: WorldModel, s: EventScheduler, h: Handle)
    requires Inv(w, s) && h in w.entities
    modifies w, w.occupancy, s
    ensures Inv(w, s) && s.currentTime == old(s.currentTime) && s.nextSerial == old(s.nextSerial)
    ensures && Replaced(old(w.entities), old(w.arena), w.entities, w.arena, h, old(w.nextHandle), StumpOf(old(w.arena[h])))
            && s.queue == DropEntity(old(s.queue), h)
  {
    var stump := StumpOf(w.arena[h]);
    Retire(w, s, h);
    var n := w.AddEntity(stump);
  }

  /**
   * The removeEntity-then-addEntity-then-scheduleActions sequence of a
   * transformation into an acting kind: `e` takes over the cell of `h`
   * under a issued handle and is armed.
   */
  method ReplaceAndArm(w: WorldModel, s: EventScheduler, h: Handle, e: Entity)
    requires Inv(w, s) && h in w.entities
    requires e.position == w.arena[h].position && 0.0 <= e.actionPeriod && 0.0 <= e.animationPeriod
    modifies w, w.occupancy, s
    ensures Inv(w, s) && s.currentTime == old(s.currentTime)
    ensures old(s.nextSerial) <= s.nextSerial
    ensures && Replaced(old(w.entities), old(w.arena), w.entities, w.arena, h, old(w.nextHandle), e)
            && s.queue == DropEntity(old(s.queue), h) + Arming(old(s.nextSerial), old(s.currentTime), old(w.nextHandle), e)
  {
    Retire(w, s, h);
    var n := AddAndArm(w, s, e);
  }

  /** transformTree: a tree with no health left becomes a stump in its cell. */
  method TransformTree(w: WorldModel, s: EventScheduler, h: Handle) returns (transformed: bool)
    requires Inv(w, s) && h in w.entities
    modifies w, w.occupancy, s
    ensures Inv(w, s) && s.currentTime == old(s.currentTime)
    ensures transformed <==> TreeFate(old(w.arena[h].health)) == ToStump
    ensures transformed ==>
              && Replaced(old(w.entities), old(w.arena), w.entities, w.arena, h, old(w.nextHandle), StumpOf(old(w.arena[h])))
              && s.queue == DropEntity(old(s.queue), h) && s.nextSerial == old(s.nextSerial)
    ensures !transformed ==> unchanged(w, w.occupancy, s)
  {
    if w.arena[h].health <= 0 {
      BecomeStump(w, s, h);
      return true;
    }
    return false;
  }

  /**
   * transformSapling: a sapling with no health left becomes a stump; one
   * that reached its health limit becomes a tree with drawn parameters,
   * armed like any new tree.
   */
  method TransformSapling(w: WorldModel, s: EventScheduler, h: Handle, rng: Handle -> TreeDraw) returns (transformed: bool)
    requires Inv(w, s) && h in w.entities && DrawsInRange(rng)
    modifies w, w.occupancy, s
    ensures Inv(w, s) && s.currentTime == old(s.currentTime)
    ensures old(s.nextSerial) <= s.nextSerial
    ensures var e := old(w.arena[h]);
            var fate := SaplingFate(e.health, e.healthLimit);
            var n := old(w.nextHandle);
            && (transformed <==> fate != Unchanged)
            && (fate == ToStump ==>
                  && Replaced(old(w.entities), old(w.arena), w.entities, w.arena, h, n, StumpOf(e))
                  && s.queue == DropEntity(old(s.queue), h))
            && (fate == ToTree ==>
                  && Replaced(old(w.entities), old(w.arena), w.entities, w.arena, h, n, GrownTree(e, rng(n)))
                  && s.queue == DropEntity(old(s.queue), h) + Arming(old(s.nextSerial), old(s.currentTime), n, GrownTree(e, rng(n))))
    ensures !transformed ==> unchanged(w, w.occupancy, s)
  {
    var e := w.arena[h];
    if e.health <= 0 {
      BecomeStump(w, s, h);
      return true;
    } else if e.health >= e.healthLimit {
      ReplaceAndArm(w, s, h, GrownTree(e, rng(w.nextHandle)));
      return true;
    }
    return false;
  }

  /** The transformation rule of a plant: a tree's or a sapling's. */
  function PlantFateOf(e: Entity): PlantFate {
    if e.kind == Tree then TreeFate(e.health) else SaplingFate(e.health, e.healthLimit)
  }

  /**
   * transformPlant: the tree or sapling rule by kind; any other kind is an
   * unsupported operation and changes nothing.
   */
  method TransformPlant(w: WorldModel, s: EventScheduler, h: Handle, rng: Handle -> TreeDraw) returns (r: Result<bool>)
    requires Inv(w, s) && h in w.entities && DrawsInRange(rng)
    modifies w, w.occupancy, s
    ensures Inv(w, s) && s.currentTime == old(s.currentTime)
    ensures old(s.nextSerial) <= s.nextSerial
    ensures r.Err? <==> old(w.arena[h].kind) !in {Tree, Sapling}
    ensures r.Err? ==> r.error == UnsupportedOperation && unchanged(w, w.occupancy, s)
    ensures r.Ok? ==>
              var e := old(w.arena[h]);
              var fate := PlantFateOf(e);
              var n := old(w.nextHandle);
              && (r.value <==> fate != Unchanged)
              && (fate == Unchanged ==> unchanged(w, w.occupancy, s))
              && (fate == ToStump ==>
                    && Replaced(old(w.entities), old(w.arena), w.entities, w.arena, h, n, StumpOf(e))
                    && s.queue == DropEntity(old(s.queue), h))
              && (fate == ToTree ==>
                    && Replaced(old(w.entities), old(w.arena), w.entities, w.arena, h, n, GrownTree(e, rng(n)))
                    && s.queue == DropEntity(old(s.queue), h) + Arming(old(s.nextSerial), old(s.currentTime), n, GrownTree(e, rng(n))))
  {
    var kind := w.arena[h].kind;
    if kind == Tree {
      var transformed := TransformTree(w, s, h);
      return Ok(transformed);
    } else if kind == Sapling {
      var transformed := TransformSapling(w, s, h, rng);
      return Ok(transformed);
    }
    return Err(UnsupportedOperation);
  }

  /**
   * transformNotFull: a dude whose count reached its limit is replaced by a
   * full dude (same id, cell, periods and limit; count 0), armed anew. Its
   * events are cancelled twice, the second time to no effect.
   */
  method TransformNotFull(w: WorldModel, s: EventScheduler, h: Handle) returns (transformed: bool)
    requires Inv(w, s) && h in w.entities
    modifies w, w.occupancy, s
    ensures Inv(w, s) && s.currentTime == old(s.currentTime)
    ensures old(s.nextSerial) <= s.nextSerial
    ensures var e := old(w.arena[h]);
            transformed <==> IsFull(e.resourceCount, e.resourceLimit)
    ensures transformed ==>
              var e := old(w.arena[h]);
              var n := old(w.nextHandle);
              var dude := FullDudeOf(e);
              && Replaced(old(w.entities), old(w.arena), w.entities, w.arena, h, n, dude)
              && s.queue == DropEntity(old(s.queue), h) + Arming(old(s.nextSerial), old(s.currentTime), n, dude)
    ensures !transformed ==> unchanged(w, w.occupancy, s)
  {
    var e := w.arena[h];
    if e.resourceCount >= e.resourceLimit {
      var dude := FullDudeOf(e);
      RetireTwice(w, s, h);
      var n := AddAndArm(w, s, dude);
      return true;
    }
    return false;
  }

  /**
   * transformFull: a full dude at its house is replaced by an empty one
   * (same id, cell, periods and limit), armed anew.
   */
  method TransformFull(w: WorldModel, s: EventScheduler, h: Handle)
    requires Inv(w, s) && h in w.entities
    modifies w, w.occupancy, s
    ensures Inv(w, s) && s.currentTime == old(s.currentTime)
    ensures old(s.nextSerial) <= s.nextSerial
    ensures var e := old(w.arena[h]);
            var n := old(w.nextHandle);
            var dude := EmptyDudeOf(e);
            && Replaced(old(w.entities), old(w.arena), w.entities, w.arena, h, n, dude)
            && s.queue == DropEntity(old(s.queue), h) + Arming(old(s.nextSerial), old(s.currentTime), n, dude)
  {
    ReplaceAndArm(w, s, h, EmptyDudeOf(w.arena[h]));
  }

  /** The line every activity ends with when the entity carries on: its next activity, one action period on. */
  method ScheduleNextActivity(w: WorldModel, s: EventScheduler, h: Handle)
    requires Inv(w, s) && h in w.entities && HasActivity(w.arena[h].kind)
    modifies s
    ensures Inv(w, s) && s.currentTime == old(s.currentTime) && s.nextSerial == old(s.nextSerial) + 1
    ensures s.queue == old(s.queue) + [Event(old(s.nextSerial), old(s.currentTime) + old(w.arena[h].actionPeriod), h, Activity)]
  {
    s.ScheduleEvent(h, CreateActivityAction(), w.arena[h].actionPeriod);
  }

  /**
   * What sapling `h` does on its activity, from world (e0, a0) and queue q0
   * to world (e1, a1) and queue q1, with serial counter `serial`, clock
   * `now`, issued handle `n` and tree draws `rng`: it gains one health, then
   * the sapling rule decides between staying (and scheduling its next
   * activity), dying into a stump and growing into an armed tree.
   */
  ghost predicate SaplingOutcome(h: Handle, n: Handle, serial: nat, now: real, rng: Handle -> TreeDraw,
                                 e0: set<Handle>, a0: map<Handle, Entity>, q0: seq<Event>,
                                 e1: set<Handle>, a1: map<Handle, Entity>, q1: seq<Event>)
    requires h in a0
  {
    var e := a0[h].(health := a0[h].health + 1);
    var grown := a0[h := e];
    match SaplingFate(e.health, e.healthLimit)
    case Unchanged =>
      e1 == e0 && a1 == grown && q1 == q0 + [Event(serial, now + e.actionPeriod, h, Activity)]
    case ToStump =>
      Replaced(e0, grown, e1, a1, h, n, StumpOf(e)) && q1 == DropEntity(q0, h)
    case ToTree =>
      && Replaced(e0, grown, e1, a1, h, n, GrownTree(e, rng(n)))
      && q1 == DropEntity(q0, h) + Arming(serial, now, n, GrownTree(e, rng(n)))
  }

  /** Whatever the sapling rule decides, SaplingOutcome keeps the books. */
  lemma SaplingBookkept(h: Handle, n: Handle, serial: nat, now: real, rng: Handle -> TreeDraw,
                        e0: set<Handle>, a0: map<Handle, Entity>, q0: seq<Event>,
                        e1: set<Handle>, a1: map<Handle, Entity>, q1: seq<Event>)
    requires h in a0 && SaplingOutcome(h, n, serial, now, rng, e0, a0, q0, e1, a1, q1)
    ensures Bookkept(e0, a0.Keys, q0, serial, e1, a1.Keys, q1)
  {
    var e := a0[h].(health := a0[h].health + 1);
    var grown := a0[h := e];
    match SaplingFate(e.health, e.healthLimit)
    case Unchanged =>
      AppendBookkept(e0, a0.Keys, q0, serial, [Event(serial, now + e.actionPeriod, h, Activity)]);
    case ToStump =>
      ReplacedBookkept(e0, grown, q0, serial, e1, a1, q1, h, n, StumpOf(e), []);
    case ToTree =>
      ReplacedBookkept(e0, grown, q0, serial, e1, a1, q1, h, n, GrownTree(e, rng(n)), Arming(serial, now, n, GrownTree(e, rng(n))));
  }

  /**
   * One firing of the sapling activity is the first step of GrowFor: while
   * GrowFor is still growing the sapling stays live with the health it
   * gives; once GrowFor says it became something, the sapling is gone and
   * the new entity is a tree or a stump accordingly.
   */
  lemma SaplingStepIsGrowth(h: Handle, n: Handle, serial: nat, now: real, rng: Handle -> TreeDraw,
                            e0: set<Handle>, a0: map<Handle, Entity>, q0: seq<Event>,
                            e1: set<Handle>, a1: map<Handle, Entity>, q1: seq<Event>)
    requires h in a0 && h in e0 && SaplingOutcome(h, n, serial, now, rng, e0, a0, q0, e1, a1, q1)
    ensures GrowFor(a0[h].health, a0[h].healthLimit, 1).Growing? ==>
              h in e1 && h in a1 && a1[h] == a0[h].(health := GrowFor(a0[h].health, a0[h].healthLimit, 1).health)
    ensures GrowFor(a0[h].health, a0[h].healthLimit, 1).Became? ==>
              && h !in e1 && n in e1 && n in a1
              && a1[n].kind == (if GrowFor(a0[h].health, a0[h].healthLimit, 1).fate == ToTree then Tree else Stump)
  {
    var e := a0[h];
    assert GrowFor(e.health + 1, e.healthLimit, 0) == Growing(e.health + 1);
  }

  /** The rest of executeSaplingActivity once the sapling (recorded as a0[h]) has gained its health. */
  method SaplingCarryOn(w: WorldModel, s: EventScheduler, h: Handle, rng: Handle -> TreeDraw,
                        ghost e0: set<Handle>, ghost a0: map<Handle, Entity>, ghost q0: seq<Event>)
    requires Inv(w, s) && h in w.entities && w.arena[h].kind == Sapling && DrawsInRange(rng)
    requires h in a0 && w.entities == e0 && w.arena == a0[h := a0[h].(health := a0[h].health + 1)] && s.queue == q0
    modifies w, w.occupancy, s
    ensures Inv(w, s) && s.currentTime == old(s.currentTime)
    ensures old(s.nextSerial) <= s.nextSerial
    ensures SaplingOutcome(h, old(w.nextHandle), old(s.nextSerial), old(s.currentTime), rng, e0, a0, q0, w.entities, w.arena, s.queue)
  {
    var r := TransformPlant(w, s, h, rng);
    if r.Ok? && !r.value {
      ScheduleNextActivity(w, s, h);
    }
  }

  /**
   * executeSaplingActivity: the sapling gains one health, then the sapling
   * rule decides; if it stays a sapling its next activity is scheduled.
   */
  method ExecuteSaplingActivity(w: WorldModel, s: EventScheduler, h: Handle, rng: Handle -> TreeDraw)
    requires Inv(w, s) && h in w.entities && w.arena[h].kind == Sapling && DrawsInRange(rng)
    modifies w, w.occupancy, s
    ensures Inv(w, s) && s.currentTime == old(s.currentTime)
    ensures old(s.nextSerial) <= s.nextSerial
    ensures Bookkept(old(w.entities), old(w.arena).Keys, old(s.queue), old(s.nextSerial), w.entities, w.arena.Keys, s.queue)
    ensures SaplingOutcome(h, old(w.nextHandle), old(s.nextSerial), old(s.currentTime), rng,
                           old(w.entities), old(w.arena), old(s.queue), w.entities, w.arena, s.queue)
  {
    var e := w.arena[h];
    w.UpdateEntity(h, e.(health := e.health + 1));
    SaplingCarryOn(w, s, h, rng, old(w.entities), old(w.arena), old(s.queue));
    SaplingBookkept(h, old(w.nextHandle), old(s.nextSerial), old(s.currentTime), rng,
                    old(w.entities), old(w.arena), old(s.queue), w.entities, w.arena, s.queue);
  }

  /**
   * Entity `h` only re-armed its activity: the world is as it was and one
   * activity, numbered `serial`, is queued one action period after `now`.
   */
  ghost predicate ReArmed(h: Handle, serial: nat, now: real,
                          e0: set<Handle>, a0: map<Handle, Entity>, q0: seq<Event>,
                          e1: set<Handle>, a1: map<Handle, Entity>, q1: seq<Event>)
    requires h in a0
  {
    e1 == e0 && a1 == a0 && q1 == q0 + [Event(serial, now + a0[h].actionPeriod, h, Activity)]
  }

  /**
   * What tree `h` does, from world (e0, a0) and queue q0 to world (e1, a1)
   * and queue q1: with health <= 0 it is replaced by an unarmed stump, new
   * entity `n`, its events cancelled; otherwise it only re-arms.
   */
  ghost predicate TreeOutcome(h: Handle, n: Handle, serial: nat, now: real,
                              e0: set<Handle>, a0: map<Handle, Entity>, q0: seq<Event>,
                              e1: set<Handle>, a1: map<Handle, Entity>, q1: seq<Event>)
    requires h in a0
  {
    if TreeFate(a0[h].health) == Unchanged then ReArmed(h, serial, now, e0, a0, q0, e1, a1, q1)
    else Replaced(e0, a0, e1, a1, h, n, StumpOf(a0[h])) && q1 == DropEntity(q0, h)
  }

  /** executeTreeActivity: the tree rule decides; if it stays a tree its next activity is scheduled. */
  method ExecuteTreeActivity(w: WorldModel, s: EventScheduler, h: Handle, rng: Handle -> TreeDraw)
    requires Inv(w, s) && h in w.entities && w.arena[h].kind == Tree && DrawsInRange(rng)
    modifies w, w.occupancy, s
    ensures Inv(w, s) && s.currentTime == old(s.currentTime)
    ensures old(s.nextSerial) <= s.nextSerial
    ensures Bookkept(old(w.entities), old(w.arena).Keys, old(s.queue), old(s.nextSerial), w.entities, w.arena.Keys, s.queue)
    ensures TreeOutcome(h, old(w.nextHandle), old(s.nextSerial), old(s.currentTime),
                        old(w.entities), old(w.arena), old(s.queue), w.entities, w.arena, s.queue)
  {
    var r := TransformPlant(w, s, h, rng);
    if r.Ok? && !r.value {
      ScheduleNextActivity(w, s, h);
    }
    ghost var e := old(w.arena[h]);
    if TreeFate(e.health) == Unchanged {
      AppendBookkept(old(w.entities), old(w.arena).Keys, old(s.queue), old(s.nextSerial),
                     [Event(old(s.nextSerial), old(s.currentTime) + e.actionPeriod, h, Activity)]);
    } else {
      ReplacedBookkept(old(w.entities), old(w.arena), old(s.queue), old(s.nextSerial), w.entities, w.arena, s.queue,
                       h, old(w.nextHandle), StumpOf(e), []);
    }
  }

  /**
   * What fairy `h` does once it has chosen stump `t`, from world (e0, a0)
   * and queue q0 to world (e1, a1) and queue q1, with serial counter
   * `serial`, clock `now` and issued handle `n`: next to the stump it
   * destroys it and plants an armed sapling in its cell; otherwise it steps
   * to `next` (never onto an occupied cell). Either way it schedules its
   * next activity, after the sapling's two events when it planted.
   */
  ghost predicate PlantingOutcome(h: Handle, t: Handle, n: Handle, serial: nat, now: real, next: Point,
                                  e0: set<Handle>, a0: map<Handle, Entity>, q0: seq<Event>,
                                  e1: set<Handle>, a1: map<Handle, Entity>, q1: seq<Event>)
    requires h in a0 && t in a0
  {
    var e := a0[h];
    if Adjacent(e.position, a0[t].position) then
      var sapling := SaplingFor(a0[t]);
      && Replaced(e0, a0, e1, a1, t, n, sapling)
      && q1 == DropEntity(q0, t) + Arming(serial, now, n, sapling) + [Event(serial + 2, now + e.actionPeriod, h, Activity)]
    else
      && SteppedTo(e0, a0, e1, a1, h, next, None)
      && q1 == q0 + [Event(serial, now + e.actionPeriod, h, Activity)]
  }

  /** Planting and stepping alike, PlantingOutcome keeps the books. */
  lemma PlantingBookkept(h: Handle, t: Handle, n: Handle, serial: nat, now: real, next: Point,
                         e0: set<Handle>, a0: map<Handle, Entity>, q0: seq<Event>,
                         e1: set<Handle>, a1: map<Handle, Entity>, q1: seq<Event>)
    requires h in a0 && t in a0 && PlantingOutcome(h, t, n, serial, now, next, e0, a0, q0, e1, a1, q1)
    ensures Bookkept(e0, a0.Keys, q0, serial, e1, a1.Keys, q1)
    ensures e0 - {t} <= e1
  {
    var e := a0[h];
    var again := Event(serial, now + e.actionPeriod, h, Activity);
    if Adjacent(e.position, a0[t].position) {
      var sapling := SaplingFor(a0[t]);
      var issued := Arming(serial, now, n, sapling) + [Event(serial + 2, now + e.actionPeriod, h, Activity)];
      assert q1 == DropEntity(q0, t) + issued;
      ReplacedBookkept(e0, a0, q0, serial, e1, a1, q1, t, n, sapling, issued);
    } else {
      SteppedBookkept(e0, a0, q0, serial, e1, a1, q1, h, next, None, [again]);
    }
  }

  /**
   * The fairy's arrival at a stump (already destroyed): plant the sapling
   * in the stump's cell, arm it, then schedule the fairy's next activity.
   */
  method PlantThenCarryOn(w: WorldModel, s: EventScheduler, h: Handle, t: Handle, stump: Entity, ghost next: Point,
                          ghost e0: set<Handle>, ghost a0: map<Handle, Entity>, ghost q0: seq<Event>)
    requires Inv(w, s) && h in w.entities && HasActivity(w.arena[h].kind)
    requires w.WithinBounds(stump.position) && !w.IsOccupied(stump.position)
    requires h in a0 && t in a0 && h != t && w.nextHandle !in a0 && Adjacent(a0[h].position, a0[t].position)
    requires stump == a0[t]
    requires w.entities == e0 - {t} && w.arena == a0[t := a0[t].(position := Offgrid)] && s.queue == DropEntity(q0, t)
    modifies w, w.occupancy, s
    ensures Inv(w, s) && h in w.entities && s.currentTime == old(s.currentTime)
    ensures old(s.nextSerial) <= s.nextSerial
    ensures PlantingOutcome(h, t, old(w.nextHandle), old(s.nextSerial), old(s.currentTime), next,
                            e0, a0, q0, w.entities, w.arena, s.queue)
  {
    var n := AddAndArm(w, s, SaplingFor(stump));
    label Armed:
    ScheduleNextActivity(w, s, h);
    PlantingOnArrival(h, t, n, old(s.nextSerial), old(s.currentTime), next, e0, a0, q0,
                      old(w.entities), old(w.arena), old(s.queue), w.entities, w.arena,
                      old@Armed(s.queue), old@Armed(s.nextSerial), s.queue);
  }

  /** PlantingOutcome on arrival: the stump's removal, then the planting and the fairy's next activity. */
  lemma PlantingOnArrival(h: Handle, t: Handle, n: Handle, serial: nat, now: real, next: Point,
                          e0: set<Handle>, a0: map<Handle, Entity>, q0: seq<Event>,
                          e1: set<Handle>, a1: map<Handle, Entity>, q1: seq<Event>,
                          e2: set<Handle>, a2: map<Handle, Entity>, qm: seq<Event>, sm: nat, q2: seq<Event>)
    requires h in a0 && t in a0 && h != t && n !in a0 && Adjacent(a0[h].position, a0[t].position)
    requires e1 == e0 - {t} && a1 == a0[t := a0[t].(position := Offgrid)] && q1 == DropEntity(q0, t)
    requires e2 == e1 + {n} && a2 == a1[n := SaplingFor(a0[t])]
    requires qm == q1 + Arming(serial, now, n, SaplingFor(a0[t]))
    requires sm == serial + |Arming(serial, now, n, SaplingFor(a0[t]))|
    requires h in a2 && q2 == qm + [Event(sm, now + a2[h].actionPeriod, h, Activity)]
    ensures PlantingOutcome(h, t, n, serial, now, next, e0, a0, q0, e2, a2, q2)
  {
  }

  /** PlantingOutcome short of the stump: the step, then the fairy's next activity. */
  lemma PlantingOnStep(h: Handle, t: Handle, n: Handle, serial: nat, now: real, next: Point,
                       e0: set<Handle>, a0: map<Handle, Entity>, q0: seq<Event>,
                       e1: set<Handle>, a1: map<Handle, Entity>, q1: seq<Event>, q2: seq<Event>)
    requires h in a0 && t in a0 && !Adjacent(a0[h].position, a0[t].position)
    requires SteppedTo(e0, a0, e1, a1, h, next, None) && q1 == q0
    requires h in a1
    requires q2 == q1 + [Event(serial, now + a1[h].actionPeriod, h, Activity)]
    ensures PlantingOutcome(h, t, n, serial, now, next, e0, a0, q0, e1, a1, q2)
  {
  }

  /** The fairy's step short of the stump, then its next activity. */
  method FairyStepThenCarryOn(w: WorldModel, s: EventScheduler, h: Handle, t: Handle, ghost next: Point,
                         ghost e0: set<Handle>, ghost a0: map<Handle, Entity>, ghost q0: seq<Event>)
    requires Inv(w, s) && h in w.entities && HasActivity(w.arena[h].kind)
    requires h in a0 && t in a0 && !Adjacent(a0[h].position, a0[t].position)
    requires SteppedTo(e0, a0, w.entities, w.arena, h, next, None) && s.queue == q0
    modifies s
    ensures Inv(w, s) && h in w.entities && s.currentTime == old(s.currentTime)
    ensures old(s.nextSerial) <= s.nextSerial
    ensures PlantingOutcome(h, t, w.nextHandle, old(s.nextSerial), old(s.currentTime), next,
                            e0, a0, q0, w.entities, w.arena, s.queue)
  {
    ScheduleNextActivity(w, s, h);
    PlantingOnStep(h, t, w.nextHandle, old(s.nextSerial), old(s.currentTime), next, e0, a0, q0,
                   w.entities, w.arena, old(s.queue), s.queue);
  }

  /**
   * The body of executeFairyActivity once a stump is found: move toward it,
   * on reaching it plant a sapling in its cell and arm the sapling, then
   * schedule the fairy's next activity.
   */
  method VisitStump(w: WorldModel, s: EventScheduler, h: Handle, t: Handle)
    requires Inv(w, s) && h in w.entities && t in w.entities && t != h && HasActivity(w.arena[h].kind)
    modifies w, w.occupancy, s
    ensures Inv(w, s) && h in w.entities && s.currentTime == old(s.currentTime)
    ensures old(s.nextSerial) <= s.nextSerial
    ensures PlantingOutcome(h, t, old(w.nextHandle), old(s.nextSerial), old(s.currentTime),
                            old(NextPositionFairy(w, w.arena[h].position, w.arena[t].position)),
                            old(w.entities), old(w.arena), old(s.queue), w.entities, w.arena, s.queue)
  {
    var stump := w.arena[t];
    var planted := MoveToFairy(w, s, h, t);
    if planted {
      PlantThenCarryOn(w, s, h, t, stump, old(NextPositionFairy(w, w.arena[h].position, w.arena[t].position)),
                       old(w.entities), old(w.arena), old(s.queue));
    } else {
      FairyStepThenCarryOn(w, s, h, t, old(NextPositionFairy(w, w.arena[h].position, w.arena[t].position)),
                      old(w.entities), old(w.arena), old(s.queue));
    }
  }

  /**
   * executeFairyActivity: head for the nearest stump and act on it as
   * PlantingOutcome describes; with no stump left, only schedule the next
   * activity.
   */
  method ExecuteFairyActivity(w: WorldModel, s: EventScheduler, h: Handle) returns (ghost target: Option<Handle>)
    requires Inv(w, s) && h in w.entities && w.arena[h].kind == Fairy
    modifies w, w.occupancy, s
    ensures Inv(w, s) && s.currentTime == old(s.currentTime) && h in w.entities
    ensures old(s.nextSerial) <= s.nextSerial
    ensures Bookkept(old(w.entities), old(w.arena).Keys, old(s.queue), old(s.nextSerial), w.entities, w.arena.Keys, s.queue)
    ensures target.None? <==> old(w.NoneOfKinds([Stump]))
    ensures target.Some? ==> old(w.IsNearestOfKinds(w.arena[h].position, [Stump], target.value))
    ensures target.Some? ==> old(w.EarlierKindsFarther(w.arena[h].position, [Stump], target.value))
    ensures target.None? ==>
              && w.entities == old(w.entities) && w.arena == old(w.arena)
              && s.queue == old(s.queue) + [Event(old(s.nextSerial), old(s.currentTime) + old(w.arena[h].actionPeriod), h, Activity)]
    ensures target.Some? ==>
              PlantingOutcome(h, target.value, old(w.nextHandle), old(s.nextSerial), old(s.currentTime),
                              old(NextPositionFairy(w, w.arena[h].position, w.arena[target.value].position)),
                              old(w.entities), old(w.arena), old(s.queue), w.entities, w.arena, s.queue)
  {
    var e := w.arena[h];
    var found := w.FindNearest(e.position, [Stump]);
    target := found;
    if found.Some? {
      assert w.arena[found.value].kind == Stump;
      VisitStump(w, s, h, found.value);
      PlantingBookkept(h, found.value, old(w.nextHandle), old(s.nextSerial), old(s.currentTime),
                       old(NextPositionFairy(w, w.arena[h].position, w.arena[found.value].position)),
                       old(w.entities), old(w.arena), old(s.queue), w.entities, w.arena, s.queue);
    } else {
      ScheduleNextActivity(w, s, h);
    }
  }

  /**
   * What a not-full dude `h` does once it has chosen plant `t`, from world
   * (e0, a0) and queue q0 to world (e1, a1) and queue q1, with serial
   * counter `serial`, clock `now` and issued handle `n`: next to the plant it
   * takes one unit (its count up, the plant's health down) and, if that
   * makes it full, is replaced by a full dude armed anew; otherwise it steps
   * to `next`, trampling `victim` (a stump) if one stood there. Unless
   * replaced it schedules its next activity.
   */
  ghost predicate HarvestOutcome(h: Handle, t: Handle, n: Handle, serial: nat, now: real,
                                 next: Point, victim: Option<Handle>,
                                 e0: set<Handle>, a0: map<Handle, Entity>, q0: seq<Event>,
                                 e1: set<Handle>, a1: map<Handle, Entity>, q1: seq<Event>)
    requires h in a0 && t in a0
  {
    var e := a0[h];
    var again := Event(serial, now + e.actionPeriod, h, Activity);
    if Adjacent(e.position, a0[t].position) then
      var loaded := e.(resourceCount := e.resourceCount + 1);
      var harvested := Harvested(a0, h, t);
      if IsFull(loaded.resourceCount, loaded.resourceLimit) then
        var full := FullDudeOf(loaded);
        && Replaced(e0, harvested, e1, a1, h, n, full)
        && q1 == DropEntity(q0, h) + Arming(serial, now, n, full)
      else
        e1 == e0 && a1 == harvested && q1 == q0 + [again]
    else
      && SteppedTo(e0, a0, e1, a1, h, next, victim)
      && (victim.Some? ==> a0[victim.value].kind == Stump)
      && q1 == Cancelled(q0, victim) + [again]
  }

  /** Harvesting, turning full and stepping alike, HarvestOutcome keeps the books. */
  lemma HarvestBookkept(h: Handle, t: Handle, n: Handle, serial: nat, now: real,
                        next: Point, victim: Option<Handle>,
                        e0: set<Handle>, a0: map<Handle, Entity>, q0: seq<Event>,
                        e1: set<Handle>, a1: map<Handle, Entity>, q1: seq<Event>)
    requires h in a0 && t in a0 && HarvestOutcome(h, t, n, serial, now, next, victim, e0, a0, q0, e1, a1, q1)
    ensures Bookkept(e0, a0.Keys, q0, serial, e1, a1.Keys, q1)
    ensures e0 - {h} - (if victim.Some? then {victim.value} else {}) <= e1
  {
    var e := a0[h];
    var again := Event(serial, now + e.actionPeriod, h, Activity);
    if Adjacent(e.position, a0[t].position) {
      var loaded := e.(resourceCount := e.resourceCount + 1);
      var harvested := Harvested(a0, h, t);
      if IsFull(loaded.resourceCount, loaded.resourceLimit) {
        var full := FullDudeOf(loaded);
        ReplacedBookkept(e0, harvested, q0, serial, e1, a1, q1, h, n, full, Arming(serial, now, n, full));
      } else {
        AppendBookkept(e0, a0.Keys, q0, serial, [again]);
      }
    } else {
      SteppedBookkept(e0, a0, q0, serial, e1, a1, q1, h, next, victim, [again]);
    }
  }

  /**
   * One harvest next to the plant is the first step of HarvestFor: while
   * HarvestFor is still carrying, the dude stays live with the count it
   * gives; once it says full, the dude is gone and a full dude replaces it.
   */
  lemma HarvestStepIsLoad(h: Handle, t: Handle, n: Handle, serial: nat, now: real,
                          next: Point, victim: Option<Handle>,
                          e0: set<Handle>, a0: map<Handle, Entity>, q0: seq<Event>,
                          e1: set<Handle>, a1: map<Handle, Entity>, q1: seq<Event>)
    requires h in a0 && t in a0 && h in e0 && Adjacent(a0[h].position, a0[t].position)
    requires HarvestOutcome(h, t, n, serial, now, next, victim, e0, a0, q0, e1, a1, q1)
    ensures HarvestFor(a0[h].resourceCount, a0[h].resourceLimit, 1).Carrying? ==>
              h in e1 && h in a1 && a1[h] == a0[h].(resourceCount := HarvestFor(a0[h].resourceCount, a0[h].resourceLimit, 1).count)
    ensures HarvestFor(a0[h].resourceCount, a0[h].resourceLimit, 1).FullAfter? ==>
              h !in e1 && n in e1 && n in a1 && a1[n].kind == DudeFull
  {
    var e := a0[h];
    assert HarvestFor(e.resourceCount + 1, e.resourceLimit, 0) == Carrying(e.resourceCount + 1);
    AdjacentSymmetricIrreflexive(a0[h].position, a0[t].position);
  }

  /**
   * The end of executeDudeNotFullActivity after a harvest: a dude now at
   * its limit turns into a full dude; otherwise it schedules its next activity.
   */
  method FinishHarvest(w: WorldModel, s: EventScheduler, h: Handle, t: Handle, ghost next: Point, ghost victim: Option<Handle>,
                       ghost e0: set<Handle>, ghost a0: map<Handle, Entity>, ghost q0: seq<Event>)
    requires Inv(w, s) && h in w.entities && HasActivity(w.arena[h].kind)
    requires h in a0 && t in a0 && Adjacent(a0[h].position, a0[t].position)
    requires && w.entities == e0
             && w.arena == Harvested(a0, h, t)
             && s.queue == q0
    modifies w, w.occupancy, s
    ensures Inv(w, s) && s.currentTime == old(s.currentTime)
    ensures old(s.nextSerial) <= s.nextSerial
    ensures HarvestOutcome(h, t, old(w.nextHandle), old(s.nextSerial), old(s.currentTime), next, victim,
                           e0, a0, q0, w.entities, w.arena, s.queue)
  {
    var transformed := TransformNotFull(w, s, h);
    if !transformed {
      ScheduleNextActivity(w, s, h);
    }
  }

  /**
   * The step case of HarvestOutcome and HomecomingOutcome: short of its
   * target `t`, having stepped to `next` from world (e0, a0) and queue q0
   * and trampled `victim` if any, the dude schedules its next activity.
   */
  method DudeStepThenCarryOn(w: WorldModel, s: EventScheduler, h: Handle, t: Handle, ghost next: Point, ghost victim: Option<Handle>,
                             ghost e0: set<Handle>, ghost a0: map<Handle, Entity>, ghost q0: seq<Event>)
    requires Inv(w, s) && h in w.entities && HasActivity(w.arena[h].kind)
    requires h in a0 && t in a0 && !Adjacent(a0[h].position, a0[t].position)
    requires SteppedTo(e0, a0, w.entities, w.arena, h, next, victim) && (victim.Some? ==> a0[victim.value].kind == Stump)
    requires s.queue == Cancelled(q0, victim)
    modifies s
    ensures Inv(w, s) && s.currentTime == old(s.currentTime)
    ensures old(s.nextSerial) <= s.nextSerial
    ensures HarvestOutcome(h, t, w.nextHandle, old(s.nextSerial), old(s.currentTime), next, victim,
                           e0, a0, q0, w.entities, w.arena, s.queue)
    ensures HomecomingOutcome(h, t, w.nextHandle, old(s.nextSerial), old(s.currentTime), next, victim,
                              e0, a0, q0, w.entities, w.arena, s.queue)
  {
    ScheduleNextActivity(w, s, h);
  }

  /**
   * The body of executeDudeNotFullActivity once a plant is found: move
   * toward it, or harvest it and, if now full, turn into a full dude;
   * unless transformed, schedule the next activity.
   */
  method VisitPlant(w: WorldModel, s: EventScheduler, h: Handle, t: Handle)
    requires Inv(w, s) && h in w.entities && t in w.entities && HasActivity(w.arena[h].kind)
    modifies w, w.occupancy, s
    ensures Inv(w, s) && s.currentTime == old(s.currentTime)
    ensures old(s.nextSerial) <= s.nextSerial
    ensures Bookkept(old(w.entities), old(w.arena).Keys, old(s.queue), old(s.nextSerial), w.entities, w.arena.Keys, s.queue)
    ensures var p := old(w.arena[h].position);
            var next := old(NextPositionDude(w, p, w.arena[t].position));
            HarvestOutcome(h, t, old(w.nextHandle), old(s.nextSerial), old(s.currentTime), next, old(Trampled(w, p, next)),
                           old(w.entities), old(w.arena), old(s.queue), w.entities, w.arena, s.queue)
  {
    var arrived := MoveToNotFull(w, s, h, t);
    if arrived {
      FinishHarvest(w, s, h, t, old(NextPositionDude(w, w.arena[h].position, w.arena[t].position)),
                    old(Trampled(w, w.arena[h].position, NextPositionDude(w, w.arena[h].position, w.arena[t].position))),
                    old(w.entities), old(w.arena), old(s.queue));
    } else {
      DudeStepThenCarryOn(w, s, h, t, old(NextPositionDude(w, w.arena[h].position, w.arena[t].position)),
                          old(Trampled(w, w.arena[h].position, NextPositionDude(w, w.arena[h].position, w.arena[t].position))),
                          old(w.entities), old(w.arena), old(s.queue));
    }
    HarvestBookkept(h, t, old(w.nextHandle), old(s.nextSerial), old(s.currentTime),
                    old(NextPositionDude(w, w.arena[h].position, w.arena[t].position)),
                    old(Trampled(w, w.arena[h].position, NextPositionDude(w, w.arena[h].position, w.arena[t].position))),
                    old(w.entities), old(w.arena), old(s.queue), w.entities, w.arena, s.queue);
  }

  /**
   * executeDudeNotFullActivity: head for the nearest tree or sapling and
   * act on it as HarvestOutcome describes; with no plant left, only
   * schedule the next activity.
   */
  method ExecuteDudeNotFullActivity(w: WorldModel, s: EventScheduler, h: Handle) returns (ghost target: Option<Handle>)
    requires Inv(w, s) && h in w.entities && w.arena[h].kind == DudeNotFull
    modifies w, w.occupancy, s
    ensures Inv(w, s) && s.currentTime == old(s.currentTime)
    ensures old(s.nextSerial) <= s.nextSerial
    ensures Bookkept(old(w.entities), old(w.arena).Keys, old(s.queue), old(s.nextSerial), w.entities, w.arena.Keys, s.queue)
    ensures target.None? <==> old(w.NoneOfKinds([Tree, Sapling]))
    ensures target.Some? ==> old(w.IsNearestOfKinds(w.arena[h].position, [Tree, Sapling], target.value))
    ensures target.Some? ==> old(w.EarlierKindsFarther(w.arena[h].position, [Tree, Sapling], target.value))
    ensures target.None? ==>
              && w.entities == old(w.entities) && w.arena == old(w.arena)
              && s.queue == old(s.queue) + [Event(old(s.nextSerial), old(s.currentTime) + old(w.arena[h].actionPeriod), h, Activity)]
    ensures target.Some? ==>
              var p := old(w.arena[h].position);
              var next := old(NextPositionDude(w, p, w.arena[target.value].position));
              HarvestOutcome(h, target.value, old(w.nextHandle), old(s.nextSerial), old(s.currentTime), next, old(Trampled(w, p, next)),
                             old(w.entities), old(w.arena), old(s.queue), w.entities, w.arena, s.queue)
  {
    var e := w.arena[h];
    var found := w.FindNearest(e.position, [Tree, Sapling]);
    target := found;
    if found.None? {
      ScheduleNextActivity(w, s, h);
      return;
    }
    var tp := w.arena[found.value].position;
    assert NextPositionDude(w, e.position, tp) == old(NextPositionDude(w, e.position, tp));
    assert Trampled(w, e.position, NextPositionDude(w, e.position, tp)) == old(Trampled(w, e.position, NextPositionDude(w, e.position, tp)));
    VisitPlant(w, s, h, found.value);
  }

  /**
   * What a full dude `h` does once it has chosen house `t`, from world
   * (e0, a0) and queue q0 to world (e1, a1) and queue q1, with serial
   * counter `serial`, clock `now` and issued handle `n`: next to the house
   * it is replaced by an empty dude armed anew; otherwise it steps to
   * `next`, trampling `victim` (a stump) if one stood there, and schedules
   * its next activity.
   */
  ghost predicate HomecomingOutcome(h: Handle, t: Handle, n: Handle, serial: nat, now: real,
                                    next: Point, victim: Option<Handle>,
                                    e0: set<Handle>, a0: map<Handle, Entity>, q0: seq<Event>,
                                    e1: set<Handle>, a1: map<Handle, Entity>, q1: seq<Event>)
    requires h in a0 && t in a0
  {
    var e := a0[h];
    if Adjacent(e.position, a0[t].position) then
      && Replaced(e0, a0, e1, a1, h, n, EmptyDudeOf(e))
      && q1 == DropEntity(q0, h) + Arming(serial, now, n, EmptyDudeOf(e))
    else
      && SteppedTo(e0, a0, e1, a1, h, next, victim)
      && (victim.Some? ==> a0[victim.value].kind == Stump)
      && q1 == Cancelled(q0, victim) + [Event(serial, now + e.actionPeriod, h, Activity)]
  }

  /** Turning empty and stepping alike, HomecomingOutcome keeps the books. */
  lemma HomecomingBookkept(h: Handle, t: Handle, n: Handle, serial: nat, now: real,
                           next: Point, victim: Option<Handle>,
                           e0: set<Handle>, a0: map<Handle, Entity>, q0: seq<Event>,
                           e1: set<Handle>, a1: map<Handle, Entity>, q1: seq<Event>)
    requires h in a0 && t in a0 && HomecomingOutcome(h, t, n, serial, now, next, victim, e0, a0, q0, e1, a1, q1)
    ensures Bookkept(e0, a0.Keys, q0, serial, e1, a1.Keys, q1)
    ensures e0 - {h} - (if victim.Some? then {victim.value} else {}) <= e1
  {
    var e := a0[h];
    if Adjacent(e.position, a0[t].position) {
      ReplacedBookkept(e0, a0, q0, serial, e1, a1, q1, h, n, EmptyDudeOf(e), Arming(serial, now, n, EmptyDudeOf(e)));
    } else {
      SteppedBookkept(e0, a0, q0, serial, e1, a1, q1, h, next, victim, [Event(serial, now + e.actionPeriod, h, Activity)]);
    }
  }

  /**
   * The body of executeDudeFullActivity once a house is found: move toward
   * it and, on reaching it, turn into an empty dude; otherwise schedule the
   * next activity.
   */
  method VisitHouse(w: WorldModel, s: EventScheduler, h: Handle, t: Handle)
    requires Inv(w, s) && h in w.entities && t in w.entities && HasActivity(w.arena[h].kind)
    modifies w, w.occupancy, s
    ensures Inv(w, s) && s.currentTime == old(s.currentTime)
    ensures old(s.nextSerial) <= s.nextSerial
    ensures Bookkept(old(w.entities), old(w.arena).Keys, old(s.queue), old(s.nextSerial), w.entities, w.arena.Keys, s.queue)
    ensures var p := old(w.arena[h].position);
            var next := old(NextPositionDude(w, p, w.arena[t].position));
            HomecomingOutcome(h, t, old(w.nextHandle), old(s.nextSerial), old(s.currentTime), next, old(Trampled(w, p, next)),
                              old(w.entities), old(w.arena), old(s.queue), w.entities, w.arena, s.queue)
  {
    var arrived := MoveToFull(w, s, h, t);
    if arrived {
      TransformFull(w, s, h);
    } else {
      DudeStepThenCarryOn(w, s, h, t, old(NextPositionDude(w, w.arena[h].position, w.arena[t].position)),
                          old(Trampled(w, w.arena[h].position, NextPositionDude(w, w.arena[h].position, w.arena[t].position))),
                          old(w.entities), old(w.arena), old(s.queue));
    }
    HomecomingBookkept(h, t, old(w.nextHandle), old(s.nextSerial), old(s.currentTime),
                       old(NextPositionDude(w, w.arena[h].position, w.arena[t].position)),
                       old(Trampled(w, w.arena[h].position, NextPositionDude(w, w.arena[h].position, w.arena[t].position))),
                       old(w.entities), old(w.arena), old(s.queue), w.entities, w.arena, s.queue);
  }

  /**
   * executeDudeFullActivity: head for the nearest house and act on it as
   * HomecomingOutcome describes; with no house left, only schedule the
   * next activity.
   */
  method ExecuteDudeFullActivity(w: WorldModel, s: EventScheduler, h: Handle) returns (ghost target: Option<Handle>)
    requires Inv(w, s) && h in w.entities && w.arena[h].kind == DudeFull
    modifies w, w.occupancy, s
    ensures Inv(w, s) && s.currentTime == old(s.currentTime)
    ensures old(s.nextSerial) <= s.nextSerial
    ensures Bookkept(old(w.entities), old(w.arena).Keys, old(s.queue), old(s.nextSerial), w.entities, w.arena.Keys, s.queue)
    ensures target.None? <==> old(w.NoneOfKinds([House]))
    ensures target.Some? ==> old(w.IsNearestOfKinds(w.arena[h].position, [House], target.value))
    ensures target.Some? ==> old(w.EarlierKindsFarther(w.arena[h].position, [House], target.value))
    ensures target.None? ==>
              && w.entities == old(w.entities) && w.arena == old(w.arena)
              && s.queue == old(s.queue) + [Event(old(s.nextSerial), old(s.currentTime) + old(w.arena[h].actionPeriod), h, Activity)]
    ensures target.Some? ==>
              var p := old(w.arena[h].position);
              var next := old(NextPositionDude(w, p, w.arena[target.value].position));
              HomecomingOutcome(h, target.value, old(w.nextHandle), old(s.nextSerial), old(s.currentTime), next, old(Trampled(w, p, next)),
                                old(w.entities), old(w.arena), old(s.queue), w.entities, w.arena, s.queue)
  {
    var e := w.arena[h];
    var found := w.FindNearest(e.position, [House]);
    target := found;
    if found.Some? {
      var tp := w.arena[found.value].position;
      assert NextPositionDude(w, e.position, tp) == old(NextPositionDude(w, e.position, tp));
      assert Trampled(w, e.position, NextPositionDude(w, e.position, tp)) == old(Trampled(w, e.position, NextPositionDude(w, e.position, tp)));
      VisitHouse(w, s, h, found.value);
    } else {
      ScheduleNextActivity(w, s, h);
    }
  }

  /**
   * What executeAnimationAction does to entity `h` with count `rc`, from
   * world (e0, a0) and queue q0 to world (e1, a1) and queue q1: its image
   * advances and, unless this was the last frame (count 1) or the kind has
   * no animation period, the next animation is queued, numbered `serial`,
   * one animation period after `now`.
   */
  ghost predicate AnimationOutcome(h: Handle, rc: int, serial: nat, now: real,
                                   e0: set<Handle>, a0: map<Handle, Entity>, q0: seq<Event>,
                                   e1: set<Handle>, a1: map<Handle, Entity>, q1: seq<Event>)
    requires h in a0
  {
    && e1 == e0 && a1 == a0[h := NextImage(a0[h])]
    && q1 == if rc != 1 && Animated(a0[h].kind)
             then q0 + [Event(serial, now + a0[h].animationPeriod, h, NextAnimation(rc).value)]
             else q0
  }

  /**
   * What running `action` for entity `h` does, from world (e0, a0) and
   * queue q0 to world (e1, a1) and queue q1, with serial counter `serial`,
   * clock `now`, issued handle `n` and tree draws `rng`. An animation step
   * is AnimationOutcome. An activity follows the rule of h's kind: the
   * plants' rules, or, for the fairy and the dudes, the outcome on the
   * target `c` heads for, or only a re-arm when `c` is Idle. A kind without an activity rule
   * changes nothing.
   */
  ghost predicate Acted(h: Handle, action: Action, c: Heading,
                        n: Handle, serial: nat, now: real, rng: Handle -> TreeDraw,
                        e0: set<Handle>, a0: map<Handle, Entity>, q0: seq<Event>,
                        e1: set<Handle>, a1: map<Handle, Entity>, q1: seq<Event>)
  {
    h in a0 &&
    match action
    case Animation(rc) => AnimationOutcome(h, rc, serial, now, e0, a0, q0, e1, a1, q1)
    case Activity =>
      match a0[h].kind
      case Sapling => SaplingOutcome(h, n, serial, now, rng, e0, a0, q0, e1, a1, q1)
      case Tree => TreeOutcome(h, n, serial, now, e0, a0, q0, e1, a1, q1)
      case Fairy =>
        if c.Idle? then ReArmed(h, serial, now, e0, a0, q0, e1, a1, q1)
        else c.target in a0 && PlantingOutcome(h, c.target, n, serial, now, c.next, e0, a0, q0, e1, a1, q1)
      case DudeNotFull =>
        if c.Idle? then ReArmed(h, serial, now, e0, a0, q0, e1, a1, q1)
        else c.target in a0 && HarvestOutcome(h, c.target, n, serial, now, c.next, c.victim, e0, a0, q0, e1, a1, q1)
      case DudeFull =>
        if c.Idle? then ReArmed(h, serial, now, e0, a0, q0, e1, a1, q1)
        else c.target in a0 && HomecomingOutcome(h, c.target, n, serial, now, c.next, c.victim, e0, a0, q0, e1, a1, q1)
      case _ => e1 == e0 && a1 == a0 && q1 == q0
  }

  /** The kinds an entity of kind `k` heads for on its activity: none for the kinds that do not move. */
  function Quarry(k: Kind): seq<Kind> {
    match k
    case Fairy => [Stump]
    case DudeNotFull => [Tree, Sapling]
    case DudeFull => [House]
    case _ => []
  }

  /** The next position of a mover of kind `k`: the fairy's rule for a fairy, the dude's otherwise. */
  function NextPositionFor(w: WorldModel, k: Kind, p: Point, dest: Point): Point
    reads w, w.occupancy
    requires w.WellFormed()
  {
    if k == Fairy then NextPositionFairy(w, p, dest) else NextPositionDude(w, p, dest)
  }

  /**
   * Where an action takes its entity: nowhere, or toward `target`, stepping
   * to `next` (unless already adjacent) and trampling `victim` there.
   */
  datatype Heading = Idle | Toward(target: Handle, next: Point, victim: Option<Handle>)

  /**
   * In world `w`, before the action, `c` is where running `action` takes
   * `h`: for an activity, toward the nearest live entity of a kind h heads
   * for (Idle if there is no such entity or h does not move), with the cell
   * h steps to toward it and the stump a dude would trample there.
   */
  ghost predicate Chose(w: WorldModel, h: Handle, action: Action, c: Heading)
    reads w, w.occupancy
    requires w.WellFormed() && h in w.arena
  {
    var e := w.arena[h];
    var kinds := if action.Activity? then Quarry(e.kind) else [];
    && (c.Idle? <==> w.NoneOfKinds(kinds))
    && (c.Toward? ==>
          && w.IsNearestOfKinds(e.position, kinds, c.target)
          && w.EarlierKindsFarther(e.position, kinds, c.target)
          && c.next == NextPositionFor(w, e.kind, e.position, w.arena[c.target].position)
          && c.victim == if e.kind == Fairy then None else Trampled(w, e.position, c.next))
  }

  /** The delay after which `action` comes round again for entity `e`: its action or its animation period. */
  function PeriodOf(action: Action, e: Entity): real {
    if action.Activity? then e.actionPeriod else e.animationPeriod
  }

  /**
   * Every event in q1 that was not in q0 belongs to an entity of arena a1
   * and is due one period of that entity after `now`.
   */
  ghost predicate DueOnePeriodOn(now: real, q0: seq<Event>, a1: map<Handle, Entity>, q1: seq<Event>) {
    forall ev :: ev in q1 && ev !in q0 ==> ev.entity in a1 && ev.time == now + PeriodOf(ev.action, a1[ev.entity])
  }

  /** Arming entity `n` as `e` of arena a1 queues its events one period after `now`. */
  lemma ArmingDue(serial: nat, now: real, n: Handle, e: Entity, q: seq<Event>, a1: map<Handle, Entity>)
    requires n in a1 && a1[n] == e
    ensures DueOnePeriodOn(now, q, a1, q + Arming(serial, now, n, e))
  {
    forall ev | ev in q + Arming(serial, now, n, e) && ev !in q
      ensures ev.entity in a1 && ev.time == now + PeriodOf(ev.action, a1[ev.entity])
    {
      assert ev in Arming(serial, now, n, e);
    }
  }

  /** The sapling's outcome queues only events due one period on. */
  lemma SaplingDue(h: Handle, n: Handle, serial: nat, now: real, rng: Handle -> TreeDraw,
                   e0: set<Handle>, a0: map<Handle, Entity>, q0: seq<Event>,
                   e1: set<Handle>, a1: map<Handle, Entity>, q1: seq<Event>)
    requires h in a0 && SaplingOutcome(h, n, serial, now, rng, e0, a0, q0, e1, a1, q1)
    ensures DueOnePeriodOn(now, q0, a1, q1)
  {
    var grown := a0[h].(health := a0[h].health + 1);
    if SaplingFate(grown.health, grown.healthLimit) == ToTree {
      ArmingDue(serial, now, n, GrownTree(grown, rng(n)), DropEntity(q0, h), a1);
    }
  }

  /** The fairy's outcome queues only events due one period on; planting leaves the fairy's own record as it was. */
  lemma PlantingDue(h: Handle, t: Handle, n: Handle, serial: nat, now: real, next: Point,
                    e0: set<Handle>, a0: map<Handle, Entity>, q0: seq<Event>,
                    e1: set<Handle>, a1: map<Handle, Entity>, q1: seq<Event>)
    requires h in a0 && t in a0 && PlantingOutcome(h, t, n, serial, now, next, e0, a0, q0, e1, a1, q1)
    ensures DueOnePeriodOn(now, q0, a1, q1)
  {
    var e := a0[h];
    if Adjacent(e.position, a0[t].position) {
      var sapling := SaplingFor(a0[t]);
      AdjacentSymmetricIrreflexive(e.position, a0[t].position);
      ArmingDue(serial, now, n, sapling, DropEntity(q0, t), a1);
      assert q1 == DropEntity(q0, t) + Arming(serial, now, n, sapling) + [Event(serial + 2, now + e.actionPeriod, h, Activity)];
    }
  }

  /** The not-full dude's outcome queues only events due one period on. */
  lemma HarvestDue(h: Handle, t: Handle, n: Handle, serial: nat, now: real,
                   next: Point, victim: Option<Handle>,
                   e0: set<Handle>, a0: map<Handle, Entity>, q0: seq<Event>,
                   e1: set<Handle>, a1: map<Handle, Entity>, q1: seq<Event>)
    requires h in a0 && t in a0 && HarvestOutcome(h, t, n, serial, now, next, victim, e0, a0, q0, e1, a1, q1)
    ensures DueOnePeriodOn(now, q0, a1, q1)
  {
    var e := a0[h];
    var again := [Event(serial, now + e.actionPeriod, h, Activity)];
    if Adjacent(e.position, a0[t].position) {
      var loaded := e.(resourceCount := e.resourceCount + 1);
      AdjacentSymmetricIrreflexive(e.position, a0[t].position);
      if IsFull(loaded.resourceCount, loaded.resourceLimit) {
        ArmingDue(serial, now, n, FullDudeOf(loaded), DropEntity(q0, h), a1);
      }
    } else {
      assert q1 == Cancelled(q0, victim) + again;
    }
  }

  /** The full dude's outcome queues only events due one period on. */
  lemma HomecomingDue(h: Handle, t: Handle, n: Handle, serial: nat, now: real,
                      next: Point, victim: Option<Handle>,
                      e0: set<Handle>, a0: map<Handle, Entity>, q0: seq<Event>,
                      e1: set<Handle>, a1: map<Handle, Entity>, q1: seq<Event>)
    requires h in a0 && t in a0 && HomecomingOutcome(h, t, n, serial, now, next, victim, e0, a0, q0, e1, a1, q1)
    ensures DueOnePeriodOn(now, q0, a1, q1)
  {
    var e := a0[h];
    if Adjacent(e.position, a0[t].position) {
      ArmingDue(serial, now, n, EmptyDudeOf(e), DropEntity(q0, h), a1);
    } else {
      assert q1 == Cancelled(q0, victim) + [Event(serial, now + e.actionPeriod, h, Activity)];
    }
  }

  /**
   * Whatever the action, every event it queues is due one period of its
   * entity after the clock at which it ran: each re-arm and each arming of
   * a new entity uses that entity's period as it stands afterwards.
   */
  lemma ActedDue(h: Handle, action: Action, c: Heading,
                 n: Handle, serial: nat, now: real, rng: Handle -> TreeDraw,
                 e0: set<Handle>, a0: map<Handle, Entity>, q0: seq<Event>,
                 e1: set<Handle>, a1: map<Handle, Entity>, q1: seq<Event>)
    requires Acted(h, action, c, n, serial, now, rng, e0, a0, q0, e1, a1, q1)
    ensures DueOnePeriodOn(now, q0, a1, q1)
  {
    if action.Activity? {
      match a0[h].kind {
        case Sapling => SaplingDue(h, n, serial, now, rng, e0, a0, q0, e1, a1, q1);
        case Fairy =>
          if c.Toward? {
            PlantingDue(h, c.target, n, serial, now, c.next, e0, a0, q0, e1, a1, q1);
          }
        case DudeNotFull =>
          if c.Toward? {
            HarvestDue(h, c.target, n, serial, now, c.next, c.victim, e0, a0, q0, e1, a1, q1);
          }
        case DudeFull =>
          if c.Toward? {
            HomecomingDue(h, c.target, n, serial, now, c.next, c.victim, e0, a0, q0, e1, a1, q1);
          }
        case _ =>
      }
    }
  }

  /**
   * executeActivityAction: run the activity rule of the entity's kind. A
   * kind without one throws UnsupportedOperationException, modelled as
   * `ok` false with nothing changed.
   */
  method ExecuteActivityAction(w: WorldModel, s: EventScheduler, h: Handle, rng: Handle -> TreeDraw)
      returns (ok: bool, ghost c: Heading)
    requires Inv(w, s) && h in w.entities && DrawsInRange(rng)
    modifies w, w.occupancy, s
    ensures Inv(w, s) && s.currentTime == old(s.currentTime)
    ensures old(s.nextSerial) <= s.nextSerial
    ensures Bookkept(old(w.entities), old(w.arena).Keys, old(s.queue), old(s.nextSerial), w.entities, w.arena.Keys, s.queue)
    ensures ok <==> HasActivity(old(w.arena[h].kind))
    ensures !ok ==> unchanged(w, w.occupancy, s)
    ensures old(Chose(w, h, Activity, c))
    ensures Acted(h, Activity, c, old(w.nextHandle), old(s.nextSerial), old(s.currentTime), rng,
                  old(w.entities), old(w.arena), old(s.queue), w.entities, w.arena, s.queue)
  {
    ok, c := true, Idle;
    ghost var target: Option<Handle> := None;
    match w.arena[h].kind {
      case Sapling => ExecuteSaplingActivity(w, s, h, rng);
      case Tree => ExecuteTreeActivity(w, s, h, rng);
      case Fairy =>
        target := ExecuteFairyActivity(w, s, h);
        if target.Some? {
          var t := target.value;
          c := Toward(t, old(NextPositionFairy(w, w.arena[h].position, w.arena[t].position)), None);
        }
      case DudeNotFull =>
        target := ExecuteDudeNotFullActivity(w, s, h);
        if target.Some? {
          var t := target.value;
          ghost var next := old(NextPositionDude(w, w.arena[h].position, w.arena[t].position));
          c := Toward(t, next, old(Trampled(w, w.arena[h].position, next)));
        }
      case DudeFull =>
        target := ExecuteDudeFullActivity(w, s, h);
        if target.Some? {
          var t := target.value;
          ghost var next := old(NextPositionDude(w, w.arena[h].position, w.arena[t].position));
          c := Toward(t, next, old(Trampled(w, w.arena[h].position, next)));
        }
      case _ => ok := false;
    }
  }

  /**
   * executeAnimationAction: advance the entity's image, then, unless this
   * was the last frame (count 1), re-arm the animation with count
   * max(count - 1, 0) one animation period on. On a static kind
   * getAnimationPeriod throws after the image has advanced: `ok` false.
   */
  method ExecuteAnimationAction(w: WorldModel, s: EventScheduler, h: Handle, repeatCount: int) returns (ok: bool)
    requires Inv(w, s) && h in w.entities
    modifies w, s
    ensures Inv(w, s) && s.currentTime == old(s.currentTime)
    ensures old(s.nextSerial) <= s.nextSerial
    ensures Bookkept(old(w.entities), old(w.arena).Keys, old(s.queue), old(s.nextSerial), w.entities, w.arena.Keys, s.queue)
    ensures ok <==> Supported(Animation(repeatCount), old(w.arena[h].kind))
    ensures w.entities == old(w.entities) && w.arena == old(w.arena)[h := NextImage(old(w.arena[h]))]
    ensures ok && repeatCount != 1 ==>
              s.queue == old(s.queue) + [Event(old(s.nextSerial), old(s.currentTime) + old(w.arena[h].animationPeriod), h,
                                               NextAnimation(repeatCount).value)]
    ensures !ok || repeatCount == 1 ==> s.queue == old(s.queue)
    ensures AnimationOutcome(h, repeatCount, old(s.nextSerial), old(s.currentTime),
                             old(w.entities), old(w.arena), old(s.queue), w.entities, w.arena, s.queue)
  {
    var e := w.arena[h];
    w.UpdateEntity(h, NextImage(e));
    var next := NextAnimation(repeatCount);
    if next.Some? {
      var period := AnimationPeriod(w.arena[h]);
      if period.Err? {
        return false;
      }
      s.ScheduleEvent(h, next.value, period.value);
    }
    return true;
  }

  /** executeAction: an activity or an animation step for the event's entity. */
  method ExecuteAction(w: WorldModel, s: EventScheduler, ev: Event, rng: Handle -> TreeDraw)
      returns (ok: bool, ghost c: Heading)
    requires Inv(w, s) && ev.entity in w.entities && DrawsInRange(rng)
    modifies w, w.occupancy, s
    ensures Inv(w, s) && s.currentTime == old(s.currentTime)
    ensures old(s.nextSerial) <= s.nextSerial
    ensures Bookkept(old(w.entities), old(w.arena).Keys, old(s.queue), old(s.nextSerial), w.entities, w.arena.Keys, s.queue)
    ensures ok <==> Supported(ev.action, old(w.arena[ev.entity].kind))
    ensures old(Chose(w, ev.entity, ev.action, c))
    ensures Acted(ev.entity, ev.action, c, old(w.nextHandle), old(s.nextSerial), old(s.currentTime), rng,
                  old(w.entities), old(w.arena), old(s.queue), w.entities, w.arena, s.queue)
    ensures forall e :: e in s.queue && e !in old(s.queue) ==>
              e.entity in w.arena && e.time == old(s.currentTime) + PeriodOf(e.action, w.arena[e.entity])
  {
    match ev.action {
      case Activity =>
        ok, c := ExecuteActivityAction(w, s, ev.entity, rng);
      case Animation(repeatCount) =>
        ok := ExecuteAnimationAction(w, s, ev.entity, repeatCount);
        c := Idle;
    }
    ActedDue(ev.entity, ev.action, c, old(w.nextHandle), old(s.nextSerial), old(s.currentTime), rng,
             old(w.entities), old(w.arena), old(s.queue), w.entities, w.arena, s.queue);
  }

  /** The scheduler's half of a round: poll the earliest event, drop it from its pending list, move the clock to its time. */
  method TakeNext(s: EventScheduler) returns (ev: Event)
    requires s.Valid() && s.queue != []
    modifies s
    ensures s.Valid() && ev == old(s.queue[EarliestDue(s.queue)]) && old(s.currentTime) <= ev.time
    ensures s.queue == Without(old(s.queue), ev) && s.pending == Unlist(old(s.pending), ev)
    ensures s.currentTime == ev.time && s.nextSerial == old(s.nextSerial)
  {
    PollKeepsConsistent(s.queue, s.pending, s.nextSerial);
    ev := s.Poll();
    s.RemovePendingEvent(ev);
    s.currentTime := ev.time;
  }

  /**
   * One round of updateOnTime's loop: poll the earliest event, drop it from
   * its entity's pending list, move the clock to its time and run it. The
   * invariant guarantees the run does not throw.
   */
  method FireNext(w: WorldModel, s: EventScheduler, rng: Handle -> TreeDraw)
      returns (ev: Event, ghost c: Heading)
    requires Inv(w, s) && s.queue != [] && DrawsInRange(rng)
    modifies w, w.occupancy, s
    ensures ev == old(s.queue[EarliestDue(s.queue)])
    ensures Inv(w, s) && old(s.currentTime) <= ev.time && s.currentTime == ev.time
    ensures ev.entity in old(w.entities) && ev.serial < old(s.nextSerial) <= s.nextSerial
    ensures ev !in s.queue && (ev.entity in s.pending ==> ev !in s.pending[ev.entity])
    ensures Bookkept(old(w.entities), old(w.arena).Keys, Without(old(s.queue), ev), old(s.nextSerial),
                     w.entities, w.arena.Keys, s.queue)
    ensures old(Chose(w, ev.entity, ev.action, c))
    ensures Acted(ev.entity, ev.action, c, old(w.nextHandle), old(s.nextSerial), ev.time, rng,
                  old(w.entities), old(w.arena), Without(old(s.queue), ev), w.entities, w.arena, s.queue)
    ensures forall e :: e in s.queue && e !in old(s.queue) ==>
              e.entity in w.arena && e.time == ev.time + PeriodOf(e.action, w.arena[e.entity])
  {
    ev := TakeNext(s);
    assert forall c' :: old(Chose(w, ev.entity, ev.action, c')) == Chose(w, ev.entity, ev.action, c');
    var ok;
    ok, c := ExecuteAction(w, s, ev, rng);
    assert ok;
  }

  /** Events fired in due-time order, each due within [from, to]. */
  ghost predicate FiredInOrder(fired: seq<Event>, from: real, to: real) {
    && (forall i :: 0 <= i < |fired| ==> from <= fired[i].time <= to)
    && (forall i, j :: 0 <= i < j < |fired| ==> fired[i].time <= fired[j].time)
  }

  /** The clock after firing `fired` from clock `start`: the last fired event's time. */
  function ClockAfter(fired: seq<Event>, start: real): real {
    if fired == [] then start else fired[|fired| - 1].time
  }

  /** Firing one more event, due no earlier than the clock and by `to`, keeps the order. */
  lemma FiredInOrderExtends(fired: seq<Event>, ev: Event, from: real, to: real)
    requires FiredInOrder(fired, from, to) && from <= ClockAfter(fired, from) <= ev.time <= to
    ensures FiredInOrder(fired + [ev], from, to) && ClockAfter(fired + [ev], from) == ev.time
  {
  }

  /**
   * What updateOnTime has done so far, from live set e0, arena handles k0,
   * queue q0 and serial counter n0 at its start, having fired `fired`, to
   * live set e, arena handles k, queue q and serial counter n: the books
   * are kept as by one action; each fired event was queued at the start or
   * issued since, fired once and is gone from the queue; an event of the
   * start queue that is gone was fired or belongs to a destroyed entity;
   * and each fired event's entity was live at the start or created since.
   */
  ghost predicate Drained(e0: set<Handle>, k0: set<Handle>, q0: seq<Event>, n0: nat, fired: seq<Event>,
                          e: set<Handle>, k: set<Handle>, q: seq<Event>, n: nat)
  {
    && n0 <= n && k0 <= k
    && (forall g :: g in e ==> g in e0 || g !in k0)
    && (forall ev :: ev in q ==> ev in q0 || ev.serial >= n0)
    && (forall ev :: ev in fired ==> ev !in q && ev.serial < n)
    && (forall ev :: ev in fired ==> ev in q0 || ev.serial >= n0)
    && (forall ev :: ev in q0 && ev !in q ==> ev in fired || ev.entity !in e)
    && (forall ev :: ev in fired ==> ev.entity in e0 || ev.entity !in k0)
    && (forall i, j :: 0 <= i < j < |fired| ==> fired[i] != fired[j])
  }

  /**
   * Firing one more queued event `ev` of a live entity, which leaves the
   * queue and whose action keeps the books, extends Drained.
   */
  lemma DrainStep(e0: set<Handle>, k0: set<Handle>, q0: seq<Event>, n0: nat, fired: seq<Event>,
                     e: set<Handle>, k: set<Handle>, q: seq<Event>, n: nat, ev: Event,
                     e1: set<Handle>, k1: set<Handle>, q1: seq<Event>, n1: nat)
    requires Drained(e0, k0, q0, n0, fired, e, k, q, n)
    requires forall x :: x in q0 ==> x.entity in k0
    requires ev in q && ev.entity in e && ev.serial < n <= n1 && ev !in q1
    requires Bookkept(e, k, Without(q, ev), n, e1, k1, q1)
    ensures Drained(e0, k0, q0, n0, fired + [ev], e1, k1, q1, n1)
  {
    var fired' := fired + [ev];
    forall x | x in q0 && x !in q1
      ensures x in fired' || x.entity !in e1
    {
      if x !in q {
        assert x.entity !in e || x in fired;
        assert x.entity in k;
      } else if x != ev {
        assert x in Without(q, ev);
      }
    }
    forall i, j | 0 <= i < j < |fired'|
      ensures fired'[i] != fired'[j]
    {
      if j == |fired| {
        assert fired[i] in fired;
      } else {
        assert fired'[i] == fired[i] && fired'[j] == fired[j];
      }
    }
  }

  /** FireNext, accounted for in Drained. */
  method DrainOne(w: WorldModel, s: EventScheduler, rng: Handle -> TreeDraw,
                  ghost e0: set<Handle>, ghost k0: set<Handle>, ghost q0: seq<Event>, ghost n0: nat, ghost fired: seq<Event>)
      returns (ev: Event)
    requires Inv(w, s) && s.queue != [] && DrawsInRange(rng)
    requires forall x :: x in q0 ==> x.entity in k0
    requires Drained(e0, k0, q0, n0, fired, w.entities, w.arena.Keys, s.queue, s.nextSerial)
    modifies w, w.occupancy, s
    ensures ev == old(s.queue[EarliestDue(s.queue)])
    ensures Inv(w, s) && old(s.currentTime) <= ev.time && s.currentTime == ev.time
    ensures Drained(e0, k0, q0, n0, fired + [ev], w.entities, w.arena.Keys, s.queue, s.nextSerial)
  {
    ghost var c;
    ev, c := FireNext(w, s, rng);
    DrainStep(e0, k0, q0, n0, fired, old(w.entities), old(w.arena).Keys, old(s.queue), old(s.nextSerial), ev,
              w.entities, w.arena.Keys, s.queue, s.nextSerial);
  }

  /**
   * The loop of updateOnTime: while the fuel lasts, fire the earliest
   * event as long as it is due by `stopTime`.
   */
  method DrainDue(w: WorldModel, s: EventScheduler, stopTime: real, fuel: nat, rng: Handle -> TreeDraw)
      returns (ghost fired: seq<Event>)
    requires Inv(w, s) && DrawsInRange(rng)
    modifies w, w.occupancy, s
    ensures Inv(w, s) && |fired| <= fuel
    ensures FiredInOrder(fired, old(s.currentTime), stopTime) && s.currentTime == ClockAfter(fired, old(s.currentTime))
    ensures |fired| < fuel ==> s.queue == [] || stopTime < s.queue[EarliestDue(s.queue)].time
    ensures Drained(old(w.entities), old(w.arena).Keys, old(s.queue), old(s.nextSerial), fired,
                    w.entities, w.arena.Keys, s.queue, s.nextSerial)
  {
    ghost var e0, k0, q0, n0 := w.entities, w.arena.Keys, s.queue, s.nextSerial;
    assert forall x :: x in q0 ==> x.entity in k0;
    fired := [];
    var n := 0;
    while n < fuel && s.queue != [] && s.queue[EarliestDue(s.queue)].time <= stopTime
      invariant Inv(w, s) && n == |fired| <= fuel
      invariant FiredInOrder(fired, old(s.currentTime), stopTime)
      invariant s.currentTime == ClockAfter(fired, old(s.currentTime))
      invariant Drained(e0, k0, q0, n0, fired, w.entities, w.arena.Keys, s.queue, s.nextSerial)
      decreases fuel - n
    {
      var ev := DrainOne(w, s, rng, e0, k0, q0, n0, fired);
      FiredInOrderExtends(fired, ev, old(s.currentTime), stopTime);
      fired := fired + [ev];
      n := n + 1;
    }
  }

  /**
   * updateOnTime: fire, in due-time order, every event due by the stop
   * time (the clock plus `time`), including events that firing schedules
   * within that window, then set the clock to the stop time. `fuel` bounds
   * the number of firings: with zero periods the source loop need not
   * end. `complete` is false when the fuel ran out first; `fired` lists the
   * events fired. No event is lost or fired twice: a fired event has left
   * the queue, and an event queued at the start that is gone was fired or
   * belonged to an entity that was destroyed.
   */
  method UpdateOnTime(w: WorldModel, s: EventScheduler, time: real, fuel: nat, rng: Handle -> TreeDraw)
      returns (complete: bool, ghost fired: seq<Event>)
    requires Inv(w, s) && DrawsInRange(rng)
    modifies w, w.occupancy, s
    ensures Inv(w, s) && |fired| <= fuel
    ensures FiredInOrder(fired, old(s.currentTime), old(s.currentTime) + time)
    ensures complete ==> && s.currentTime == old(s.currentTime) + time
                         && forall ev :: ev in s.queue ==> s.currentTime < ev.time
    ensures !complete ==> |fired| == fuel && s.currentTime == ClockAfter(fired, old(s.currentTime))
    ensures old(s.nextSerial) <= s.nextSerial && old(w.arena).Keys <= w.arena.Keys
    ensures forall g :: g in w.entities ==> g in old(w.entities) || g !in old(w.arena)
    ensures forall e :: e in s.queue ==> e in old(s.queue) || e.serial >= old(s.nextSerial)
    ensures forall e :: e in fired ==> e !in s.queue
    ensures forall e :: e in fired ==> e in old(s.queue) || e.serial >= old(s.nextSerial)
    ensures forall e :: e in old(s.queue) && e !in s.queue ==> e in fired || e.entity !in w.entities
    ensures forall e :: e in fired ==> e.entity in old(w.entities) || e.entity !in old(w.arena)
    ensures forall i, j :: 0 <= i < j < |fired| ==> fired[i] != fired[j]
  {
    var stopTime := s.currentTime + time;
    fired := DrainDue(w, s, stopTime, fuel, rng);
    if s.queue != [] && s.queue[EarliestDue(s.queue)].time <= stopTime {
      return false, fired;
    }
    s.currentTime := stopTime;
    complete := true;
  }
}
