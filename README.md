# Grid-world simulation kernel

A Dafny model of the simulation kernel of a small Java grid world. The
world holds houses, obstacles, trees, stumps, saplings, fairies and dudes.
Its kernel has three parts:

- **The event scheduler** (`Scheduler`, class `EventScheduler`). It keeps
  a virtual clock, a priority queue of (time, entity, action) events and a
  per-entity index of pending events.
- **The world** (`World`, class `WorldModel`). It keeps a 2-D occupancy
  grid and the set of live entities, and moves, adds and removes entities
  so that the two stay in step. The geometry helpers are in `Geometry`:
  adjacency, squared distance, clamping and the nearest-point search.
- **The behaviour of entities** (`Entities`, `Actions`, `Behaviour`).
  - Each kind has its own activity rule: a sapling grows into a tree or
    dies into a stump; a tree dies into a stump; a fairy replants stumps; a
    dude harvests plants and carries the load home.
  - An animation rule advances the image and re-arms itself according to
    a repeat count.
  - A dispatcher runs either rule for an event's entity.
  - The scheduler's time-advance loop fires due events through that
    dispatcher.

Entities live in an arena: a map from handles (natural numbers) to entity
records. A handle stands for the identity of one Java `Entity` object. A
kind change destroys the old entity and adds a new one under a fresh
handle. A destroyed entity stays in the arena, parked at (-1, -1), and is
no longer live. Each event carries a serial number that stands for the
identity of the Java `Event` object. The queue is a sequence kept in
insertion order. Polling takes its first event of least due time, so
events due at the same time fire in the order they were scheduled.

The invariants that are proved to hold:

- **`WorldModel.Valid`** (the occupancy invariant). An entity is live
  exactly when its position lies on the grid. A live entity's cell holds
  it. A non-empty cell holds a live entity standing at that cell.
- **`EventScheduler.Valid`**. Every queued event is listed under its
  entity in the pending index. Every listed event is queued. Nothing queued
  is due before the clock.
- **`Behaviour.Inv`** (the simulation invariant). Both of the above hold,
  and every queued event belongs to a live entity whose kind supports the
  event's action. So the time-advance loop never hits an
  `UnsupportedOperationException`.

Each action also keeps the books (`Behaviour.Bookkept`). No handle is
freed. A destroyed entity never comes back. Every new event is freshly
numbered. An event leaves the queue only because its entity was
destroyed. Over the time-advance loop this means that an event queued at
the start is either fired or cancelled along with its destroyed entity,
and that no event fires twice.

What one action does is `Behaviour.Acted`. An animation step is
`AnimationOutcome`. An activity is the outcome of its entity's kind:
`SaplingOutcome`, `TreeOutcome`, or, for the fairy and the dudes,
`PlantingOutcome`, `HarvestOutcome` or `HomecomingOutcome` on the chosen
target, or only a re-arm (`ReArmed`) when there is no target. The ghost
`Heading` records that target, the cell stepped to and the stump
trampled there, and `Chose` ties them to the world before the action.
Every event an action queues is due one period of its entity after the
clock at which it ran (`ActedDue`).

## Model

| member | source | states |
|---|---|---|
| Geometry.DistanceSquared | src/Functions.java:105-110 | the squared distance is non-negative and zero exactly when the two points are equal |
| Geometry.DistanceSquaredSymmetric | src/Functions.java:105-110 | the squared distance is symmetric |
| Geometry.Adjacent | src/Functions.java:70-72 | the adjacency relation: same column and one row apart, or same row and one column apart; it carries no contract of its own, and the two lemmas below state its properties |
| Geometry.AdjacentSymmetricIrreflexive | src/Functions.java:70-72 | adjacency is symmetric and no point is adjacent to itself |
| Geometry.AdjacentIffUnitDistance | src/Functions.java:70-72 | two points are adjacent exactly when their squared distance is 1 |
| Geometry.StepTowardIsCloser | src/Entity.java:85-99 | a unit step toward the target, along an axis where the offset is non-zero, lands on an adjacent cell strictly closer to the target |
| Geometry.Clamp | src/Functions.java:123-125 | the result is at most `high`; when `low <= high` it lies in [low, high], equals the value when the value is in range, and equals the nearer bound otherwise |
| Geometry.NearestEntity | src/Functions.java:85-103 | none exactly for an empty list; otherwise an index whose squared distance is at most every other's and strictly less than every earlier one's, so ties go to the first |
| Entities.CreateHouse | src/Entity.java:36-38 | a house with the given id and cell, at image 0; a static kind, so nothing is ever scheduled for it |
| Entities.CreateObstacle | src/Entity.java:40-42 | an obstacle with the given id, cell and animation period, at image 0; animated, with no activity |
| Entities.CreateTree | src/Entity.java:44-46 | a tree with the given id, cell, periods and health, at image 0; it acts and animates |
| Entities.CreateStump | src/Entity.java:48-50 | a stump with the given id and cell, at image 0; a static kind, so nothing is ever scheduled for it |
| Entities.CreateSapling | src/Entity.java:53-55 | a new sapling has health 0 whatever health is passed, the sapling health limit and both periods equal to the sapling period; it acts and animates |
| Entities.CreateFairy | src/Entity.java:57-59 | a fairy with the given id, cell and periods, at image 0; it acts and animates |
| Entities.CreateDudeNotFull | src/Entity.java:62-64 | a dude with the given id, cell, periods and limit that starts with count 0, at image 0; it acts and animates |
| Entities.CreateDudeFull | src/Entity.java:67-69 | a full dude with the given id, cell, periods and limit, its count recorded as 0, at image 0; it acts and animates |
| Entities.AnimationPeriod | src/Entity.java:231-243 | returns the animation period exactly for dudes, obstacles, fairies, saplings and trees; any other kind is an unsupported operation |
| Entities.NextImage | src/Entity.java:245-247 | the image index goes up by exactly one and nothing else changes |
| Entities.SaplingGrowsIntoTree | src/Entity.java:249-254 | a sapling of health h below its limit L, left to grow, is still growing at health h + n after n < L - h firings, and becomes a tree at exactly firing L - h |
| Entities.HarvestFillsAtLimit | src/Entity.java:215-229 | a dude carrying c below its limit R holds c + n after n < R - c harvests, and becomes full at exactly harvest R - c |
| Actions.CreateActivityAction | src/Action.java:23-25 | an activity action, which the dispatcher can run for exactly the kinds with an activity rule |
| Actions.CreateAnimationAction | src/Action.java:19-21 | an animation action carrying the given repeat count |
| Actions.NextAnimation | src/Action.java:64-66 | nothing is re-armed exactly when the count is 1; otherwise the re-armed animation has count max(count - 1, 0), so 0 and negative counts become 0 |
| Actions.AnimationRegimes | src/Action.java:61-67 | an animation chain started with count k >= 1 fires exactly k times (or as many as it is given chances); one started with k <= 0 fires at every chance |
| Scheduler.Without | src/EventScheduler.java:21 | removing an event keeps exactly the other events |
| Scheduler.DropEntity | src/EventScheduler.java:25-33 | the queue keeps exactly the events of other entities |
| Scheduler.EarliestDue | src/EventScheduler.java:85-86 | the polled index is in range, its time is least in the queue, and every earlier event is due strictly later |
| Scheduler.WithoutExtends | src/EventScheduler.java:29-31 | removing cancelled events one at a time, in list order, is removing the whole list at once |
| Scheduler.CancelledAreEntityEvents | src/EventScheduler.java:25-33 | when the cancelled list holds exactly the entity's queued events, removing it leaves exactly the other entities' events |
| Scheduler.DropAbsentEntity | src/EventScheduler.java:25-33 | cancelling an entity with no queued events leaves the queue as it is |
| Scheduler.WithoutNothing | src/EventScheduler.java:28-32 | removing no events leaves the queue as it is |
| Scheduler.ScheduleKeepsConsistent | src/EventScheduler.java:35-46 | appending a freshly numbered event to the queue and to its entity's list keeps queue and index in agreement |
| Scheduler.PollKeepsConsistent | src/EventScheduler.java:85-87 | polling the earliest event and unlisting it keeps queue and index in agreement |
| Scheduler.UnscheduleKeepsConsistent | src/EventScheduler.java:25-33 | dropping an entity's events and its index entry keeps queue and index in agreement |
| Scheduler.Arming | src/EventScheduler.java:48-81 | dudes, fairies, saplings and trees get an activity after their action period and a repeat-0 animation after their animation period; obstacles get only the animation; houses and stumps get nothing; all events belong to the entity, are supported by its kind and are numbered in order from the given serial number on |
| Scheduler.ArmingInOrder | src/EventScheduler.java:48-81 | the armed events are the activity then the animation (or the animation alone for an obstacle), for the queue and for the pending index |
| Scheduler.EventScheduler.constructor | src/EventScheduler.java:11-15 | clock 0, empty queue, empty index |
| Scheduler.EventScheduler.RemovePendingEvent | src/EventScheduler.java:17-23 | the event leaves its entity's pending list, if the entity has one; nothing else changes |
| Scheduler.EventScheduler.UnscheduleAllEvents | src/EventScheduler.java:25-33 | no queued event of the entity is left, the entity loses its index entry, other entities' events stay in order, and consistency is kept; a no-op on the queue when the entity has none |
| Scheduler.EventScheduler.ScheduleEvent | src/EventScheduler.java:35-46 | exactly one event, due at clock + period, is appended to the queue and to the entity's list; the clock is unchanged; consistency is kept for a non-negative period |
| Scheduler.EventScheduler.ScheduleActions | src/EventScheduler.java:48-81 | the queue and index grow by exactly the events `Arming` describes for the entity's kind |
| Scheduler.EventScheduler.Poll | src/EventScheduler.java:86 | removes and returns the first event of least due time |
| World.WorldModel.constructor | src/WorldModel.java:237-240 | the empty occupancy grid and live set of the given size that loading creates; the world is valid |
| World.WorldModel.WithinBounds | src/WorldModel.java:68-70 | whether the point is a cell of the grid; the parking point (-1, -1) never is |
| World.WorldModel.IsOccupied | src/WorldModel.java:72-74 | whether the point is a grid cell holding an entity; a point off the grid is never occupied, and its cell is not read |
| World.WorldModel.GetOccupancyCell | src/WorldModel.java:84-86 | the content of the cell at row y, column x; it carries no contract of its own, and `CellHoldsItsStander` states what the content means |
| World.WorldModel.CellHoldsItsStander | src/WorldModel.java:84-86 | in a valid world a cell holds a live entity, and it holds a given live entity exactly when that entity stands there |
| World.WorldModel.SetOccupancyCell | src/WorldModel.java:88-90 | sets exactly one cell |
| World.WorldModel.GetOccupant | src/WorldModel.java:76-82 | present exactly when the cell is occupied (hence within bounds), and then the live entity standing there |
| World.WorldModel.AddEntity | src/WorldModel.java:40-45 | a fresh handle records the entity; within bounds it takes its cell and becomes live, outside it stays off the live set; the occupancy invariant is kept |
| World.WorldModel.TryAddEntity | src/WorldModel.java:58-66 | fails with "position occupied", changing nothing, exactly when the cell is occupied; otherwise adds as `AddEntity` does |
| World.WorldModel.RemoveEntityAt | src/WorldModel.java:214-224 | the occupant of the cell, if any, is parked at (-1, -1) and leaves the live set; the cell is cleared; other cells are unchanged |
| World.WorldModel.RemoveEntity | src/WorldModel.java:209-212 | all the entity's events are cancelled; a live entity is parked at (-1, -1), leaves the live set and frees its cell; a second removal changes nothing in the world; the invariants are kept |
| World.WorldModel.MoveEntity | src/WorldModel.java:47-56 | a no-op off the grid or onto the entity's own cell; otherwise the old cell is freed, an occupant of the target is destroyed with its events cancelled, and the mover stands at the target; the invariants are kept |
| World.WorldModel.OfKind | src/WorldModel.java:22-26 | the candidates of one kind are exactly the live entities of that kind |
| World.WorldModel.OfKinds | src/WorldModel.java:20-27 | the candidates are exactly the live entities of the listed kinds, grouped kind by kind in the order the kinds are listed |
| World.CollectKind | src/WorldModel.java:21-27 | appending one kind's live entities after those of the kinds before it keeps the kind-by-kind grouping |
| World.NearestCollected | src/WorldModel.java:29 | the first nearest candidate of the grouped list is as near as any candidate, and strictly nearer than every live entity of a kind listed before its own |
| World.WorldModel.FindNearest | src/WorldModel.java:19-30 | none exactly when no live entity has one of the kinds; otherwise a live entity of one of the kinds at least as close as every other such entity, and strictly closer than every live entity of a kind listed before its own, so a tie across kinds goes to the kind listed first |
| Behaviour.NextPositionFairy | src/Entity.java:85-99 | stay, or one step toward the target along x, else along y, into a free cell strictly closer to the target; the x step is taken whenever the x offset is non-zero and that cell is free; staying means both steps are impossible |
| Behaviour.NextPositionDude | src/Entity.java:101-115 | as for the fairy, but a cell holding a stump counts as free, so the result never holds a non-stump entity |
| Behaviour.MoveToFairy | src/Entity.java:117-129 | arrives exactly when adjacent to the stump, which is then destroyed and its cell left free; otherwise steps to the next fairy position |
| Behaviour.Harvest | src/Entity.java:133-134 | the dude's count goes up by one and the plant's health down by one, with no floor |
| Behaviour.MoveToNotFull | src/Entity.java:131-144 | arrives exactly when adjacent to the plant and then harvests it; otherwise steps to the next dude position, destroying a stump standing there |
| Behaviour.MoveToFull | src/Entity.java:146-157 | arrives exactly when adjacent to the house, changing nothing; otherwise steps as a dude does |
| Behaviour.TransformTree | src/Entity.java:178-190 | exactly a tree with health <= 0 is replaced by an unarmed stump "stump_" + id in its cell, its events cancelled; otherwise nothing changes |
| Behaviour.TransformSapling | src/Entity.java:192-213 | health <= 0 gives a stump; health >= limit gives an armed tree with drawn parameters; either way in the same cell with the sapling's events cancelled; otherwise nothing changes |
| Behaviour.TransformPlant | src/Entity.java:168-176 | the tree rule for a tree, the sapling rule for a sapling; any other kind is an unsupported operation that changes nothing |
| Behaviour.TransformNotFull | src/Entity.java:215-229 | exactly a dude at its limit is replaced, in its cell, by an armed full dude with the same id, periods and limit and count 0; otherwise nothing changes |
| Behaviour.TransformFull | src/Entity.java:159-166 | the full dude is replaced, in its cell, by an armed empty dude with the same id, periods and limit |
| Behaviour.SaplingBookkept | src/Entity.java:249-254 | whatever the sapling rule decides, no handle is freed, no destroyed entity comes back, every new event is freshly numbered, and an event leaves the queue only with its destroyed entity |
| Behaviour.SaplingStepIsGrowth | src/Entity.java:249-254 | one sapling firing is the first step of `GrowFor`: still growing means the sapling stays live at the health `GrowFor` gives; otherwise it is gone and the new entity is a tree or a stump as `GrowFor` says |
| Behaviour.ExecuteSaplingActivity | src/Entity.java:249-254 | health rises by one; then the sapling re-arms exactly one activity, becomes a stump, or becomes an armed tree; a transformed sapling never re-arms itself; the serial counter never goes back and the books are kept as `SaplingBookkept` states |
| Behaviour.ExecuteTreeActivity | src/Entity.java:256-262 | health unchanged; as `TreeOutcome` states, a tree with health <= 0 becomes an unarmed stump with its events cancelled, and any other re-arms its activity one action period on and changes nothing else; the books are kept |
| Behaviour.PlantingBookkept | src/Entity.java:264-280 | planting and stepping alike keep the books: no handle is freed, no destroyed entity comes back, every new event is freshly numbered, and an event leaves the queue only with its destroyed entity; every entity live before except the stump is still live |
| Behaviour.ExecuteFairyActivity | src/Entity.java:264-280 | targets the nearest stump; next to it, destroys it and plants an armed sapling of health 0 in its cell, otherwise takes at most one step; in every case re-arms its own activity; the books are kept |
| Behaviour.HarvestBookkept | src/Entity.java:282-288 | harvesting, turning full and stepping alike keep the books: no handle is freed, no destroyed entity comes back, every new event is freshly numbered, and an event leaves the queue only with its destroyed entity; every entity live before except the dude itself and a trampled stump is still live |
| Behaviour.HarvestStepIsLoad | src/Entity.java:215-229 | one harvest next to the plant is the first step of `HarvestFor`: still carrying means the dude stays live with the count `HarvestFor` gives; full means a full dude replaces it |
| Behaviour.ExecuteDudeNotFullActivity | src/Entity.java:282-288 | targets the nearest tree or sapling, a tree winning over a sapling that is no nearer; next to it, harvests and, if now full, becomes an armed full dude, otherwise re-arms; short of it, steps and re-arms; the books are kept |
| Behaviour.HomecomingBookkept | src/Entity.java:290-298 | turning empty and stepping alike keep the books: no handle is freed, no destroyed entity comes back, every new event is freshly numbered, and an event leaves the queue only with its destroyed entity; every entity live before except the dude itself and a trampled stump is still live |
| Behaviour.ExecuteDudeFullActivity | src/Entity.java:290-298 | targets the nearest house; next to it, becomes an armed empty dude; with no house, or short of it, re-arms; the books are kept |
| Behaviour.ExecuteActivityAction | src/Action.java:39-59 | runs exactly for saplings, trees, fairies and both dudes; any other kind is an unsupported operation that changes nothing; the outcome is the rule of the kind (`Acted`): for a fairy or a dude, toward the nearest target of the kinds it seeks, earlier-listed kinds winning ties, with the step and trampled stump the move rules give (`Chose`), or only a re-arm when there is none; the simulation invariant and the books are kept (src/Activity.java:25-45 states the same dispatch) |
| Behaviour.ExecuteAnimationAction | src/Action.java:61-67 | the image index goes up by exactly one; a count of 1 re-arms nothing; otherwise exactly one animation with count max(count - 1, 0) is armed one animation period on, and a kind with no animation period fails after the image has advanced (`AnimationOutcome`); the books are kept (src/Animation.java:28-34 states the same step) |
| Behaviour.ArmingDue | src/EventScheduler.java:48-81 | arming an entity queues each of its events one period of that entity after the clock |
| Behaviour.SaplingDue | src/Entity.java:249-254 | every event the sapling rule queues is due one period of its entity after the clock |
| Behaviour.PlantingDue | src/Entity.java:264-280 | every event the fairy queues, its own and the new sapling's, is due one period of its entity after the clock |
| Behaviour.HarvestDue | src/Entity.java:282-288 | every event the not-full dude queues, its own or the new full dude's, is due one period of its entity after the clock |
| Behaviour.HomecomingDue | src/Entity.java:290-298 | every event the full dude queues, its own or the new empty dude's, is due one period of its entity after the clock |
| Behaviour.ActedDue | src/EventScheduler.java:35-38 | whatever action ran, every event it queued is due one period of its entity, action or animation as the event says, after the clock at which it ran |
| Behaviour.ExecuteAction | src/Action.java:27-37 | runs the activity rule for an activity and the animation rule for an animation, succeeding exactly when the entity's kind supports the action; the outcome is that rule's, as `Acted` and `Chose` state; every event it queues is due one period of its entity (action period for an activity, animation period for an animation) after the clock; the serial counter never goes back and the books are kept |
| Behaviour.FireNext | src/EventScheduler.java:85-89 | the event fired is the earliest due one, of a live entity; after it runs the clock equals its due time, which is not before the old clock; the event has left the queue and its entity's pending list; its action ran with the clock at the event's time on the queue without the event, as `Acted` and `Chose` state, so every event it queued is due one period of its entity after the event's time; the books are kept; the invariant is kept and so the action cannot fail |
| Behaviour.TakeNext | src/EventScheduler.java:86-88 | the polled event is the earliest due one; it leaves the queue and its entity's pending list; the clock moves to its time, which is not before the old clock; the scheduler stays consistent |
| Behaviour.FiredInOrderExtends | src/EventScheduler.java:85-88 | firing one more event, due no earlier than the clock, keeps the fired events in non-decreasing time order |
| Behaviour.DrainStep | src/EventScheduler.java:85-90 | one more firing of a queued event of a live entity, whose action keeps the books, extends the account of the loop: fired events are gone and distinct, and start events are gone only if fired or their entity destroyed |
| Behaviour.DrainDue | src/EventScheduler.java:85-90 | the loop fires events in due-time order within the window and stops, unless the fuel runs out, with nothing queued due by the stop time; it keeps that account |
| Behaviour.UpdateOnTime | src/EventScheduler.java:83-92 | fires only events due by clock + time, in non-decreasing due-time order, including events scheduled during the call; on completion the clock is old clock + time and nothing queued is due at or before it; each fired event was queued at the start or scheduled during the call, is fired once and has left the queue; an event queued at the start that is gone was fired or belongs to an entity destroyed during the call; each fired event's entity was live at the start or created during the call |

## Left out

- Save-file parsing and loading, the background layer, images, `log()` and the rendering helpers of `Functions`: they are I/O, string formatting and foreign rendering calls. A world is built by the constructor and `AddEntity`.
- The random draws of a grown tree's parameters are a parameter `rng` mapping the new tree's handle to its draw. It is required to lie in the documented ranges.
- Java `int` overflow in `distanceSquared` and in the counters is not modelled: coordinates and counts are unbounded integers.
- `double` periods and clock are exact reals, so rounding is not modelled. Periods are required to be non-negative.
- The `Event`, `EventComparator` and `Point` classes are not part of this model. Events due at the same time fire in insertion order.
- World.WorldModel.FindNearest: within one kind the candidates come in the `HashSet` iteration order, which Java leaves unspecified. So which of several equally near entities of the same kind it returns is not specified. Across kinds the order is the listed one, and the contract states that tie-break.
- Behaviour.UpdateOnTime: takes a `fuel` bound on the number of firings, because with zero periods the Java loop need not end. When the fuel runs out first it reports `complete` false, with the clock at the last fired event's time.
- Behaviour.UpdateOnTime: an entity "created during the call" is stated as one whose handle was not in the arena at the start. Every handle ever handed out stays in the arena, so this is the same as a handle handed out during the call.
- `Activity.java` and `Animation.java` duplicate the dispatch rules of `Action.java` and cannot compile beside it, since `Action` is a final class. One dispatch models all three, and their rules agree line for line.
- The per-kind activity and move methods require the entity to be live and of the kind the dispatcher chose for them. Java does not check this, but only the dispatcher calls them.
- The `UnsupportedOperationException`s are modelled as a `Result` error or an `ok` flag set to false, with the changes made before the throw kept. Under the simulation invariant they cannot happen.
- `removePendingEvent` and `unscheduleAllEvents` remove events by object identity. The model compares whole `Event` values instead. Every scheduled event takes the next serial number, so two separately scheduled events never compare equal.
