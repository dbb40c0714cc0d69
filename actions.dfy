/**
 * Actions (Action.java, with its duplicates Activity.java and
 * Animation.java): an activity step or an animation step with a repeat
 * count. The acting entity is the event's entity; the world and image
 * store references are not needed in this model.
 */
module Actions {
  import opened Common
  import opened Entities

  datatype Action = Activity | Animation(repeatCount: int)

  /** An activity action: dispatchable for exactly the kinds that have an activity rule. */
  function CreateActivityAction(): (a: Action)
    ensures a.Activity?
    ensures forall k :: Dispatchable(a, k) <==> HasActivity(k)
  {
    Activity
  }

  function CreateAnimationAction(repeatCount: int): (a: Action)
    ensures a.Animation? && a.repeatCount == repeatCount
  {
    Animation(repeatCount)
  }

  /** An action the dispatcher can run for an entity of kind `k` without throwing. */
  predicate Dispatchable(a: Action, k: Kind) {
    match a
    case Activity => HasActivity(k)
    case Animation(_) => Animated(k)
  }

  /**
   * An action the dispatcher runs for an entity of kind `k` without throwing:
   * an activity needs an activity rule; an animation needs an animation
   * period unless it is the last frame (count 1), which re-arms nothing.
   */
  predicate Supported(a: Action, k: Kind) {
    match a
    case Activity => HasActivity(k)
    case Animation(repeatCount) => repeatCount == 1 || Animated(k)
  }

  /**
   * The animation that an animation step re-arms: none when the count is 1
   * (the last frame), else one with count max(count - 1, 0).
   */
  function NextAnimation(repeatCount: int): (r: Option<Action>)
    ensures r.None? <==> repeatCount == 1
    ensures r.Some? ==> r.value.Animation? && r.value.repeatCount >= 0
    ensures r.Some? && repeatCount <= 0 ==> r.value == Animation(0)
    ensures r.Some? && repeatCount > 1 ==> r.value == Animation(repeatCount - 1)
  {
    if repeatCount == 1 then None
    else Some(CreateAnimationAction(if repeatCount - 1 > 0 then repeatCount - 1 else 0))
  }

  /** How many times an animation chain started with `repeatCount` fires within `budget` firings. */
  function Firings(repeatCount: int, budget: nat): nat
    decreases budget
  {
    if budget == 0 then 0
    else match NextAnimation(repeatCount)
      case None => 1
      case Some(next) => 1 + Firings(next.repeatCount, budget - 1)
  }

  /**
   * The repeat-count regimes: a chain started with k >= 1 fires exactly k
   * times; one started with k <= 0 fires every time it is given the chance.
   */
  lemma {:induction false} AnimationRegimes(repeatCount: int, budget: nat)
    decreases budget
    ensures repeatCount >= 1 ==> Firings(repeatCount, budget) == if budget < repeatCount then budget else repeatCount
    ensures repeatCount <= 0 ==> Firings(repeatCount, budget) == budget
  {
    if budget > 0 && repeatCount != 1 {
      AnimationRegimes(if repeatCount - 1 > 0 then repeatCount - 1 else 0, budget - 1);
    }
  }
}
