/**
 * Entities of the grid world (Entity.java): the kinds, the entity record,
 * the factories, the constants of Functions.java they use, and the pure
 * decision rules of the plant and dude state machines.
 */
module Entities {
  import opened Common
  import opened Geometry

  /** Stable identity of an entity: its index in the world's arena. */
  type Handle = nat

  datatype Kind = House | Obstacle | Tree | Stump | Sapling | Fairy | DudeFull | DudeNotFull

  /**
   * One entity. `kind` never changes: a kind change destroys the entity and
   * creates another. The image list is rendering data and is left out.
   */
  datatype Entity = Entity(
    kind: Kind,
    id: string,
    position: Point,
    imageIndex: int,
    resourceLimit: int,
    resourceCount: int,
    actionPeriod: real,
    animationPeriod: real,
    health: int,
    healthLimit: int)

  const SaplingActionAnimationPeriod: real := 1.0
  const SaplingHealthLimit: int := 5
  const TreeAnimationMax: real := 0.6
  const TreeAnimationMin: real := 0.05
  const TreeActionMax: real := 1.4
  const TreeActionMin: real := 1.0
  const TreeHealthMax: int := 3
  const TreeHealthMin: int := 1

  const StumpKey: string := "stump"
  const SaplingKey: string := "sapling"
  const TreeKey: string := "tree"

  /** Kinds that run an activity (the cases of executeActivityAction). */
  predicate HasActivity(k: Kind) {
    k in {Sapling, Tree, Fairy, DudeNotFull, DudeFull}
  }

  /** Kinds whose getAnimationPeriod does not throw. */
  predicate Animated(k: Kind) {
    k in {DudeFull, DudeNotFull, Obstacle, Fairy, Sapling, Tree}
  }

  function Make(kind: Kind, id: string, position: Point, resourceLimit: int, resourceCount: int,
                actionPeriod: real, animationPeriod: real, health: int, healthLimit: int): (e: Entity)
    ensures e.kind == kind && e.id == id && e.position == position && e.imageIndex == 0
  {
    Entity(kind, id, position, 0, resourceLimit, resourceCount, actionPeriod, animationPeriod, health, healthLimit)
  }

  /** A house: static, so neither an activity nor an animation is ever scheduled for it. */
  function CreateHouse(id: string, position: Point): (e: Entity)
    ensures e.kind == House && e.id == id && e.position == position && e.imageIndex == 0
    ensures !HasActivity(e.kind) && !Animated(e.kind)
  {
    Make(House, id, position, 0, 0, 0.0, 0.0, 0, 0)
  }

  /** An obstacle: animated at the given period, with no activity. */
  function CreateObstacle(id: string, position: Point, animationPeriod: real): (e: Entity)
    ensures e.kind == Obstacle && e.id == id && e.position == position && e.imageIndex == 0
    ensures e.animationPeriod == animationPeriod
    ensures !HasActivity(e.kind) && Animated(e.kind)
  {
    Make(Obstacle, id, position, 0, 0, 0.0, animationPeriod, 0, 0)
  }

  /** A tree with the given periods and health: it acts and animates. */
  function CreateTree(id: string, position: Point, actionPeriod: real, animationPeriod: real, health: int): (e: Entity)
    ensures e.kind == Tree && e.id == id && e.position == position && e.imageIndex == 0
    ensures e.actionPeriod == actionPeriod && e.animationPeriod == animationPeriod && e.health == health
    ensures HasActivity(e.kind) && Animated(e.kind)
  {
    Make(Tree, id, position, 0, 0, actionPeriod, animationPeriod, health, 0)
  }

  /** A stump: static, so neither an activity nor an animation is ever scheduled for it. */
  function CreateStump(id: string, position: Point): (e: Entity)
    ensures e.kind == Stump && e.id == id && e.position == position && e.imageIndex == 0
    ensures !HasActivity(e.kind) && !Animated(e.kind)
  {
    Make(Stump, id, position, 0, 0, 0.0, 0.0, 0, 0)
  }

  /** A new sapling always starts at health 0: the `health` argument is ignored. */
  function CreateSapling(id: string, position: Point, health: int): (e: Entity)
    ensures e.kind == Sapling && e.id == id && e.position == position && e.imageIndex == 0
    ensures e.health == 0 && e.healthLimit == SaplingHealthLimit
    ensures e.actionPeriod == SaplingActionAnimationPeriod && e.animationPeriod == SaplingActionAnimationPeriod
    ensures HasActivity(e.kind) && Animated(e.kind)
  {
    Make(Sapling, id, position, 0, 0, SaplingActionAnimationPeriod, SaplingActionAnimationPeriod, 0, SaplingHealthLimit)
  }

  /** A fairy with the given periods: it acts and animates. */
  function CreateFairy(id: string, position: Point, actionPeriod: real, animationPeriod: real): (e: Entity)
    ensures e.kind == Fairy && e.id == id && e.position == position && e.imageIndex == 0
    ensures e.actionPeriod == actionPeriod && e.animationPeriod == animationPeriod
    ensures HasActivity(e.kind) && Animated(e.kind)
  {
    Make(Fairy, id, position, 0, 0, actionPeriod, animationPeriod, 0, 0)
  }

  /** A dude that is not full: it starts empty, with the given limit and periods, and acts and animates. */
  function CreateDudeNotFull(id: string, position: Point, actionPeriod: real, animationPeriod: real,
                             resourceLimit: int): (e: Entity)
    ensures e.kind == DudeNotFull && e.id == id && e.position == position && e.imageIndex == 0
    ensures e.resourceCount == 0 && e.resourceLimit == resourceLimit
    ensures e.actionPeriod == actionPeriod && e.animationPeriod == animationPeriod
    ensures HasActivity(e.kind) && Animated(e.kind)
  {
    Make(DudeNotFull, id, position, resourceLimit, 0, actionPeriod, animationPeriod, 0, 0)
  }

  /**
   * A full dude, with the given limit and periods; its count is recorded as
   * 0, since only the kind says it is full. It acts and animates.
   */
  function CreateDudeFull(id: string, position: Point, actionPeriod: real, animationPeriod: real,
                          resourceLimit: int): (e: Entity)
    ensures e.kind == DudeFull && e.id == id && e.position == position && e.imageIndex == 0
    ensures e.resourceCount == 0 && e.resourceLimit == resourceLimit
    ensures e.actionPeriod == actionPeriod && e.animationPeriod == animationPeriod
    ensures HasActivity(e.kind) && Animated(e.kind)
  {
    Make(DudeFull, id, position, resourceLimit, 0, actionPeriod, animationPeriod, 0, 0)
  }

  /** The random parameters drawn for a tree grown from a sapling. */
  datatype TreeDraw = TreeDraw(actionPeriod: real, animationPeriod: real, health: int)

  /** getNumFromRange / getIntFromRange yield values in [min, max). */
  predicate TreeDrawInRange(d: TreeDraw) {
    && TreeActionMin <= d.actionPeriod < TreeActionMax
    && TreeAnimationMin <= d.animationPeriod < TreeAnimationMax
    && TreeHealthMin <= d.health < TreeHealthMax
  }

  /** getAnimationPeriod: the animation period, or an exception for static kinds. */
  function AnimationPeriod(e: Entity): (r: Result<real>)
    ensures r.Ok? <==> Animated(e.kind)
    ensures r.Ok? ==> r.value == e.animationPeriod
    ensures r.Err? ==> r.error == UnsupportedOperation
  {
    match e.kind
    case DudeFull | DudeNotFull | Obstacle | Fairy | Sapling | Tree => Ok(e.animationPeriod)
    case _ => Err(UnsupportedOperation)
  }

  /** nextImage */
  function NextImage(e: Entity): (r: Entity)
    ensures r.imageIndex == e.imageIndex + 1
    ensures r.(imageIndex := e.imageIndex) == e
  {
    e.(imageIndex := e.imageIndex + 1)
  }

  /** Outcome of a plant's transformation check. */
  datatype PlantFate = ToStump | ToTree | Unchanged

  /** transformSapling's decision, on the health after this firing's increment. */
  function SaplingFate(health: int, healthLimit: int): PlantFate {
    if health <= 0 then ToStump
    else if health >= healthLimit then ToTree
    else Unchanged
  }

  /** transformTree's decision. */
  function TreeFate(health: int): PlantFate {
    if health <= 0 then ToStump else Unchanged
  }

  /** transformNotFull's decision, on the count after this harvest. */
  predicate IsFull(resourceCount: int, resourceLimit: int) {
    resourceCount >= resourceLimit
  }

  /** A sapling's progress: still growing at some health, or transformed at the k-th firing. */
  datatype Growth = Growing(health: int) | Became(fate: PlantFate, firing: nat)

  /** The sapling activity fired `n` times with no harvesting in between. */
  function GrowFor(health: int, healthLimit: int, n: nat): Growth
    decreases n
  {
    if n == 0 then Growing(health)
    else
      var fate := SaplingFate(health + 1, healthLimit);
      if fate != Unchanged then Became(fate, 1)
      else match GrowFor(health + 1, healthLimit, n - 1)
        case Growing(h) => Growing(h)
        case Became(f, k) => Became(f, k + 1)
  }

  /**
   * A sapling of health h0 >= 0 below its limit grows one unit per firing and
   * becomes a tree at exactly firing healthLimit - h0, never earlier or later.
   */
  lemma {:induction false} SaplingGrowsIntoTree(health: int, healthLimit: int, n: nat)
    decreases n
    requires 0 <= health < healthLimit
    ensures n < healthLimit - health ==> GrowFor(health, healthLimit, n) == Growing(health + n)
    ensures n >= healthLimit - health ==> GrowFor(health, healthLimit, n) == Became(ToTree, healthLimit - health)
  {
    if n > 0 && health + 1 < healthLimit {
      SaplingGrowsIntoTree(health + 1, healthLimit, n - 1);
    }
  }

  /** A dude's load: still carrying some count, or full after the k-th harvest. */
  datatype Load = Carrying(count: int) | FullAfter(harvest: nat)

  /** `n` successful adjacent harvests, starting from `count`. */
  function HarvestFor(count: int, resourceLimit: int, n: nat): Load
    decreases n
  {
    if n == 0 then Carrying(count)
    else if IsFull(count + 1, resourceLimit) then FullAfter(1)
    else match HarvestFor(count + 1, resourceLimit, n - 1)
      case Carrying(c) => Carrying(c)
      case FullAfter(k) => FullAfter(k + 1)
  }

  /** A dude with resource limit R starting empty is full after exactly R harvests. */
  lemma {:induction false} HarvestFillsAtLimit(count: int, resourceLimit: int, n: nat)
    decreases n
    requires 0 <= count < resourceLimit
    ensures n < resourceLimit - count ==> HarvestFor(count, resourceLimit, n) == Carrying(count + n)
    ensures n >= resourceLimit - count ==> HarvestFor(count, resourceLimit, n) == FullAfter(resourceLimit - count)
  {
    if n > 0 && count + 1 < resourceLimit {
      HarvestFillsAtLimit(count + 1, resourceLimit, n - 1);
    }
  }
}
