/**
 * The discrete-event scheduler (EventScheduler.java): a virtual clock, a
 * priority queue of (time, entity, action) events and a per-entity index
 * of pending events used to cancel all of an entity's events at once.
 *
 * The queue is kept in insertion order and polled at its first event of
 * least due time, so events due at the same time fire in the order they
 * were scheduled. Each event carries a serial number that stands for the
 * identity of the Java Event object.
 */
module Scheduler {
  import opened Common
  import opened Entities
  import opened Actions

  datatype Event = Event(serial: nat, time: real, entity: Handle, action: Action)

  /** The queue with `ev` removed (PriorityQueue.remove, List.remove). */
  function Without(q: seq<Event>, ev: Event): (r: seq<Event>)
    ensures forall e :: e in r <==> e in q && e != ev
  {
    if q == [] then [] else (if q[0] == ev then [] else [q[0]]) + Without(q[1..], ev)
  }

  /** The queue with every event of `cancelled` removed, order kept. */
  function WithoutAll(q: seq<Event>, cancelled: seq<Event>): (r: seq<Event>)
    ensures forall e :: e in r <==> e in q && e !in cancelled
  {
    if q == [] then [] else (if q[0] in cancelled then [] else [q[0]]) + WithoutAll(q[1..], cancelled)
  }

  /** The queue with every event of entity `h` removed, order kept. */
  function DropEntity(q: seq<Event>, h: Handle): (r: seq<Event>)
    ensures forall e :: e in r <==> e in q && e.entity != h
  {
    if q == [] then [] else (if q[0].entity == h then [] else [q[0]]) + DropEntity(q[1..], h)
  }

  lemma {:induction false} WithoutExtends(q: seq<Event>, cancelled: seq<Event>, ev: Event)
    ensures Without(WithoutAll(q, cancelled), ev) == WithoutAll(q, cancelled + [ev])
  {
    if q != [] {
      WithoutExtends(q[1..], cancelled, ev);
      var rest := WithoutAll(q[1..], cancelled);
      if q[0] in cancelled {
        assert WithoutAll(q, cancelled) == rest;
      } else {
        assert WithoutAll(q, cancelled) == [q[0]] + rest;
        assert ([q[0]] + rest)[1..] == rest;
      }
    }
  }

  /** Cancelling exactly the events of `h` leaves the queue DropEntity describes. */
  lemma {:induction false} CancelledAreEntityEvents(q: seq<Event>, cancelled: seq<Event>, h: Handle)
    requires forall e :: e in q ==> (e in cancelled <==> e.entity == h)
    ensures WithoutAll(q, cancelled) == DropEntity(q, h)
  {
    if q != [] {
      CancelledAreEntityEvents(q[1..], cancelled, h);
    }
  }

  lemma {:induction false} DropAbsentEntity(q: seq<Event>, h: Handle)
    requires forall e :: e in q ==> e.entity != h
    ensures DropEntity(q, h) == q
  {
    if q != [] {
      DropAbsentEntity(q[1..], h);
      assert q == [q[0]] + q[1..];
    }
  }

  /** Index of the event PriorityQueue.poll returns: the first one of least due time. */
  function EarliestDue(q: seq<Event>): (i: nat)
    requires q != []
    ensures i < |q|
    ensures forall j :: 0 <= j < |q| ==> q[i].time <= q[j].time
    ensures forall j :: 0 <= j < i ==> q[i].time < q[j].time
  {
    if |q| == 1 then 0
    else
      var k := EarliestDue(q[1..]) + 1;
      if q[0].time <= q[k].time then 0 else k
  }

  /** The pending list of `h`, empty when the index has none (getOrDefault). */
  function PendingOf(pending: map<Handle, seq<Event>>, h: Handle): seq<Event> {
    if h in pending then pending[h] else []
  }

  /** scheduleEvent's index update: append the event to its entity's list. */
  function Enlist(pending: map<Handle, seq<Event>>, ev: Event): map<Handle, seq<Event>> {
    pending[ev.entity := PendingOf(pending, ev.entity) + [ev]]
  }

  function EnlistAll(pending: map<Handle, seq<Event>>, evs: seq<Event>): map<Handle, seq<Event>>
    decreases |evs|
  {
    if evs == [] then pending else EnlistAll(Enlist(pending, evs[0]), evs[1..])
  }

  /** removePendingEvent's index update. */
  function Unlist(pending: map<Handle, seq<Event>>, ev: Event): map<Handle, seq<Event>> {
    if ev.entity in pending then pending[ev.entity := Without(pending[ev.entity], ev)] else pending
  }

  /**
   * Queue and index agree: queued events carry serials already issued and
   * appear in their entity's pending list; every listed event is queued
   * and belongs to the entity it is listed under.
   */
  ghost predicate Consistent(queue: seq<Event>, pending: map<Handle, seq<Event>>, nextSerial: nat) {
    && (forall e :: e in queue ==> e.serial < nextSerial && e.entity in pending && e in pending[e.entity])
    && (forall h, e :: h in pending && e in pending[h] ==> e.entity == h && e in queue)
  }

  lemma ScheduleKeepsConsistent(queue: seq<Event>, pending: map<Handle, seq<Event>>, nextSerial: nat, ev: Event)
    requires Consistent(queue, pending, nextSerial)
    requires ev.serial == nextSerial
    ensures ev !in queue
    ensures Consistent(queue + [ev], Enlist(pending, ev), nextSerial + 1)
  {
  }

  /** Polling the earliest event and unlisting it keeps queue and index in agreement. */
  lemma PollKeepsConsistent(queue: seq<Event>, pending: map<Handle, seq<Event>>, nextSerial: nat)
    requires Consistent(queue, pending, nextSerial)
    requires queue != []
    ensures var ev := queue[EarliestDue(queue)];
            Consistent(Without(queue, ev), Unlist(pending, ev), nextSerial)
  {
    var ev := queue[EarliestDue(queue)];
    var rest, index := Without(queue, ev), Unlist(pending, ev);
    forall e: Event | e in rest
      ensures e.serial < nextSerial && e.entity in index && e in index[e.entity]
    {
      assert e in queue && e != ev;
    }
    forall h: Handle, e: Event | h in index && e in index[h]
      ensures e.entity == h && e in rest
    {
      assert h in pending && e in pending[h];
    }
  }

  lemma UnscheduleKeepsConsistent(queue: seq<Event>, pending: map<Handle, seq<Event>>, nextSerial: nat, h: Handle)
    requires Consistent(queue, pending, nextSerial)
    ensures Consistent(DropEntity(queue, h), pending - {h}, nextSerial)
  {
  }

  lemma {:induction false} WithoutNothing(q: seq<Event>)
    ensures WithoutAll(q, []) == q
  {
    if q != [] {
      WithoutNothing(q[1..]);
      assert q == [q[0]] + q[1..];
    }
  }

  /**
   * The events scheduleActions arms for a new entity of the given kind,
   * numbered from `serial`: moving and growing kinds get an activity after
   * the action period and a perpetual animation after the animation period;
   * an obstacle only the animation; a house or a stump nothing.
   */
  function Arming(serial: nat, now: real, h: Handle, e: Entity): (r: seq<Event>)
    ensures |r| == (if HasActivity(e.kind) then 1 else 0) + (if Animated(e.kind) then 1 else 0)
    ensures forall ev :: ev in r ==> ev.entity == h && Dispatchable(ev.action, e.kind)
    ensures forall k :: 0 <= k < |r| ==> r[k].serial == serial + k
    ensures forall ev :: ev in r ==> serial <= ev.serial
    ensures forall ev :: ev in r && ev.action == Activity ==> ev.time == now + e.actionPeriod
    ensures forall ev :: ev in r && ev.action != Activity ==> ev.action == Animation(0) && ev.time == now + e.animationPeriod
  {
    match e.kind
    case DudeFull | DudeNotFull | Fairy | Sapling | Tree =>
      [Event(serial, now + e.actionPeriod, h, CreateActivityAction()),
       Event(serial + 1, now + e.animationPeriod, h, CreateAnimationAction(0))]
    case Obstacle =>
      [Event(serial, now + e.animationPeriod, h, CreateAnimationAction(0))]
    case _ => []
  }

  /**
   * Arming spelled out event by event, in the order scheduleActions issues
   * them, for the queue and for the pending index.
   */
  lemma ArmingInOrder(q: seq<Event>, pending: map<Handle, seq<Event>>, serial: nat, now: real, h: Handle, e: Entity)
    ensures HasActivity(e.kind) ==>
              var a := Event(serial, now + e.actionPeriod, h, Activity);
              var b := Event(serial + 1, now + e.animationPeriod, h, Animation(0));
              && q + Arming(serial, now, h, e) == q + [a] + [b]
              && EnlistAll(pending, Arming(serial, now, h, e)) == Enlist(Enlist(pending, a), b)
    ensures e.kind == Obstacle ==>
              var c := Event(serial, now + e.animationPeriod, h, Animation(0));
              && q + Arming(serial, now, h, e) == q + [c]
              && EnlistAll(pending, Arming(serial, now, h, e)) == Enlist(pending, c)
    ensures !HasActivity(e.kind) && e.kind != Obstacle ==> Arming(serial, now, h, e) == []
  {
    var armed := Arming(serial, now, h, e);
    if HasActivity(e.kind) {
      var a := Event(serial, now + e.actionPeriod, h, Activity);
      var b := Event(serial + 1, now + e.animationPeriod, h, Animation(0));
      assert armed == [a, b];
      assert armed[1..] == [b] && armed[1..][1..] == [];
      assert q + armed == q + [a] + [b];
      assert EnlistAll(pending, armed) == EnlistAll(Enlist(pending, a), [b]);
      assert EnlistAll(Enlist(pending, a), [b]) == EnlistAll(Enlist(Enlist(pending, a), b), []);
    } else if e.kind == Obstacle {
      assert armed[1..] == [];
    }
  }

  class EventScheduler {
    var queue: seq<Event>
    var pending: map<Handle, seq<Event>>
    var currentTime: real
    var nextSerial: nat

    /** Queue and index agree, and nothing queued is due before the clock. */
    ghost predicate Valid()
      reads this
    {
      && Consistent(queue, pending, nextSerial)
      && (forall e :: e in queue ==> currentTime <= e.time)
    }

    constructor ()
      ensures Valid()
      ensures queue == [] && pending == map[] && currentTime == 0.0 && nextSerial == 0
    {
      queue := [];
      pending := map[];
      currentTime := 0.0;
      nextSerial := 0;
    }

    method RemovePendingEvent(ev: Event)
      modifies this
      ensures pending == Unlist(old(pending), ev)
      ensures queue == old(queue) && currentTime == old(currentTime) && nextSerial == old(nextSerial)
    {
      if ev.entity in pending {
        var list := pending[ev.entity];
        pending := pending[ev.entity := Without(list, ev)];
      }
    }

    /** Cancels every pending event of `h`; a no-op when it has none. */
    method UnscheduleAllEvents(h: Handle)
      requires Valid()
      modifies this
      ensures Valid()
      ensures queue == DropEntity(old(queue), h)
      ensures pending == old(pending) - {h}
      ensures currentTime == old(currentTime) && nextSerial == old(nextSerial)
    {
      ghost var q0, p0 := queue, pending;
      if h in pending {
        var list := pending[h];
        pending := pending - {h};
        ghost var q0 := queue;
        WithoutNothing(q0);
        var i := 0;
        while i < |list|
          invariant 0 <= i <= |list|
          invariant queue == WithoutAll(q0, list[..i])
          invariant pending == p0 - {h}
          invariant currentTime == old(currentTime) && nextSerial == old(nextSerial)
        {
          WithoutExtends(q0, list[..i], list[i]);
          assert list[..i + 1] == list[..i] + [list[i]];
          queue := Without(queue, list[i]);
          i := i + 1;
        }
        assert list[..|list|] == list;
        assert forall e :: e in q0 ==> (e in list <==> e.entity == h);
        CancelledAreEntityEvents(q0, list, h);
      } else {
        DropAbsentEntity(queue, h);
      }
      UnscheduleKeepsConsistent(q0, p0, nextSerial, h);
    }

    /** Adds one event due `afterPeriod` from now to the queue and to its entity's list. */
    method ScheduleEvent(h: Handle, action: Action, afterPeriod: real)
      modifies this
      ensures var ev := Event(old(nextSerial), old(currentTime) + afterPeriod, h, action);
              queue == old(queue) + [ev] && pending == Enlist(old(pending), ev)
      ensures currentTime == old(currentTime) && nextSerial == old(nextSerial) + 1
      ensures old(Valid()) && afterPeriod >= 0.0 ==> Valid()
    {
      var time := currentTime + afterPeriod;
      var event := Event(nextSerial, time, h, action);
      if Valid() {
        ScheduleKeepsConsistent(queue, pending, nextSerial, event);
      }
      nextSerial := nextSerial + 1;
      queue := queue + [event];
      var list := PendingOf(pending, h);
      pending := pending[h := list + [event]];
    }

    /** The pair of events every acting kind is armed with: its first activity, then its animation. */
    method ScheduleActivityAndAnimation(h: Handle, e: Entity)
      modifies this
      ensures var a := Event(old(nextSerial), old(currentTime) + e.actionPeriod, h, Activity);
              var b := Event(old(nextSerial) + 1, old(currentTime) + e.animationPeriod, h, Animation(0));
              && queue == old(queue) + [a] + [b]
              && pending == Enlist(Enlist(old(pending), a), b)
              && nextSerial == old(nextSerial) + 2
      ensures currentTime == old(currentTime)
      ensures old(Valid()) && 0.0 <= e.actionPeriod && 0.0 <= e.animationPeriod ==> Valid()
    {
      ScheduleEvent(h, CreateActivityAction(), e.actionPeriod);
      ScheduleEvent(h, CreateAnimationAction(0), e.animationPeriod);
    }

    /** Arms a newly created entity according to its kind. */
    method ScheduleActions(h: Handle, e: Entity)
      modifies this
      ensures var armed := Arming(old(nextSerial), old(currentTime), h, e);
              && queue == old(queue) + armed
              && pending == EnlistAll(old(pending), armed)
              && nextSerial == old(nextSerial) + |armed|
      ensures currentTime == old(currentTime)
      ensures old(Valid()) && 0.0 <= e.actionPeriod && 0.0 <= e.animationPeriod ==> Valid()
    {
      ArmingInOrder(queue, pending, nextSerial, currentTime, h, e);
      match e.kind {
        case DudeFull | DudeNotFull | Fairy | Sapling | Tree =>
          ScheduleActivityAndAnimation(h, e);
        case Obstacle =>
          ScheduleEvent(h, CreateAnimationAction(0), e.animationPeriod);
        case _ =>
      }
    }

    /** PriorityQueue.poll: removes and returns the first event of least due time. */
    method Poll() returns (ev: Event)
      requires queue != []
      modifies this
      ensures ev == old(queue)[EarliestDue(old(queue))]
      ensures queue == Without(old(queue), ev)
      ensures pending == old(pending) && currentTime == old(currentTime) && nextSerial == old(nextSerial)
    {
      ev := queue[EarliestDue(queue)];
      queue := Without(queue, ev);
    }
  }
}
