/**
 * The ring scheduler of src/hooks/useRingAnimation.ts.
 *
 * While motion is enabled the hook's effect schedules, for every arc, three
 * rings at the arc's start and three at its end; each ring is shown when its
 * timeout fires and removed 600 ms later by a second timeout. The whole
 * sequence is re-triggered by an interval. The hook keeps the handles of
 * its pending timeouts in `activeTimeouts` so that the effect's cleanup can
 * cancel them.
 *
 * Time is a logical clock in milliseconds. The browser's timer table is the
 * field `timers` (pending timeouts, each with its handle, due time and
 * callback) and `interval`; `Step` fires whichever pending event is due
 * first. A ring's object identity, by which the source filters it out
 * again, is its `id`.
 */
module RingAnimation {
  import opened Wrappers
  import opened Types
  import opened SeqFacts

  const RingPulseInterval: nat := 200
  const RingDuration: nat := 600
  const RingsBeforeArc: nat := 800
  const ArcTravelTime: nat := 3000
  const StaggerInterval: nat := 600

  /** `RingData`, with the identity of the ring object as `id`. */
  datatype RingData = RingData(id: nat, lat: real, lng: real, maxR: real, propagationSpeed: real, repeatPeriod: real)

  /** A `scheduleRing(lat, lng, delay, maxRadius)` call. */
  datatype ScheduledRing = ScheduledRing(lat: real, lng: real, delay: nat, maxR: real)

  /** The callback of a pending timeout: show a ring, or take ring `ringId` away again. */
  datatype Action = Spawn(lat: real, lng: real, maxR: real) | Remove(ringId: nat)

  datatype Timeout = Timeout(handle: nat, due: nat, action: Action)

  /** The repeating `setInterval(triggerSequence, period)`. */
  datatype Interval = Interval(period: nat, nextDue: nat)

  // ---------------------------------------------------------------------
  // The schedule of one sequence
  // ---------------------------------------------------------------------

  /** Ring `i` (0, 1 or 2) at one endpoint of an arc with the given order. */
  function Pulse(lat: real, lng: real, order: nat, i: nat): ScheduledRing {
    ScheduledRing(lat, lng, order * StaggerInterval + i * RingPulseInterval, 2.0 + (i as real) * 0.5)
  }

  /** One `for` loop: rings 0, 1 and 2 at one endpoint. */
  function EndpointRings(lat: real, lng: real, order: nat): (rs: seq<ScheduledRing>)
    ensures |rs| == 3
  {
    [Pulse(lat, lng, order, 0), Pulse(lat, lng, order, 1), Pulse(lat, lng, order, 2)]
  }

  /** The two `for` loops for one arc: three rings at the sender, then three at the receiver. */
  function ArcRings(arc: Arc): (rs: seq<ScheduledRing>)
    ensures |rs| == 6
  {
    EndpointRings(arc.startLat, arc.startLng, arc.order) + EndpointRings(arc.endLat, arc.endLng, arc.order)
  }

  /** `triggerSequence`: the rings of every arc, arc by arc. */
  function SequenceSchedule(arcs: seq<Arc>): seq<ScheduledRing> {
    if |arcs| == 0 then [] else SequenceSchedule(arcs[..|arcs| - 1]) + ArcRings(arcs[|arcs| - 1])
  }

  lemma {:induction false} SequenceScheduleLength(arcs: seq<Arc>)
    ensures |SequenceSchedule(arcs)| == 6 * |arcs|
  {
    if |arcs| > 0 {
      SequenceScheduleLength(arcs[..|arcs| - 1]);
    }
  }

  /**
   * Each sequence schedules six rings per arc: ring `i` at the sender is number
   * `6a + i` and ring `i` at the receiver number `6a + 3 + i`; both are due
   * `order * 600 + i * 200` ms after the trigger and grow to `2 + i * 0.5`.
   */
  lemma {:induction false} SequenceScheduleAt(arcs: seq<Arc>, a: nat, i: nat)
    requires a < |arcs| && i < 3
    ensures |SequenceSchedule(arcs)| == 6 * |arcs|
    ensures SequenceSchedule(arcs)[6 * a + i]
            == ScheduledRing(arcs[a].startLat, arcs[a].startLng, arcs[a].order * 600 + i * 200, 2.0 + (i as real) * 0.5)
    ensures SequenceSchedule(arcs)[6 * a + 3 + i]
            == ScheduledRing(arcs[a].endLat, arcs[a].endLng, arcs[a].order * 600 + i * 200, 2.0 + (i as real) * 0.5)
  {
    var front := arcs[..|arcs| - 1];
    SequenceScheduleLength(arcs);
    SequenceScheduleLength(front);
    if a < |arcs| - 1 {
      SequenceScheduleAt(front, a, i);
      assert front[a] == arcs[a];
    }
  }

  /** `Math.max(...arcs.map(a => a.order))` for a non-empty list. */
  function MaxOrder(arcs: seq<Arc>): (m: nat)
    requires |arcs| > 0
    ensures forall i :: 0 <= i < |arcs| ==> arcs[i].order <= m
    ensures exists i :: 0 <= i < |arcs| && arcs[i].order == m
  {
    var last := arcs[|arcs| - 1].order;
    if |arcs| == 1 then last
    else
      var m := MaxOrder(arcs[..|arcs| - 1]);
      assert forall i :: 0 <= i < |arcs| - 1 ==> arcs[i] == arcs[..|arcs| - 1][i];
      if m < last then last else m
  }

  /**
   * `arcTravelTime + maxOrder * staggerInterval + ringsBeforeArc`. With no arcs
   * `Math.max()` is -Infinity and the interval's delay is clamped to 0.
   */
  function CycleTime(arcs: seq<Arc>): (t: nat)
    ensures |arcs| == 0 ==> t == 0
    ensures forall i :: 0 <= i < |arcs| ==> arcs[i].order * StaggerInterval + ArcTravelTime + RingsBeforeArc <= t
    ensures |arcs| > 0 ==> exists i :: 0 <= i < |arcs| && t == arcs[i].order * StaggerInterval + ArcTravelTime + RingsBeforeArc
  {
    if |arcs| == 0 then 0 else ArcTravelTime + MaxOrder(arcs) * StaggerInterval + RingsBeforeArc
  }

  /**
   * Every ring of arc `a` has been shown and removed by `order * 600 + 1000` ms
   * after the trigger, which is 2800 ms before the next trigger.
   */
  lemma RingsGoneBeforeNextCycle(arcs: seq<Arc>, a: nat, k: nat)
    requires a < |arcs| && k < 6
    ensures |SequenceSchedule(arcs)| == 6 * |arcs|
    ensures SequenceSchedule(arcs)[6 * a + k].delay + RingDuration <= arcs[a].order * 600 + 1000
    ensures arcs[a].order * 600 + 1000 + 2800 <= CycleTime(arcs)
  {
    if k < 3 {
      SequenceScheduleAt(arcs, a, k);
    } else {
      SequenceScheduleAt(arcs, a, k - 3);
    }
    MulLe(arcs[a].order, MaxOrder(arcs), 600);
  }

  lemma MulLe(a: nat, b: nat, c: nat)
    requires a <= b
    ensures a * c <= b * c
  {
  }

  /** The timeouts `scheduleRing` creates for `rs`, with consecutive handles from `first`. */
  function Stamp(rs: seq<ScheduledRing>, first: nat, now: nat): (ts: seq<Timeout>)
    ensures |ts| == |rs|
  {
    seq(|rs|, i requires 0 <= i < |rs| => Timeout(first + i, now + rs[i].delay, Spawn(rs[i].lat, rs[i].lng, rs[i].maxR)))
  }

  lemma StampConcat(a: seq<ScheduledRing>, b: seq<ScheduledRing>, first: nat, now: nat)
    ensures Stamp(a + b, first, now) == Stamp(a, first, now) + Stamp(b, first + |a|, now)
  {
  }

  /** Scheduling the rings of arc `a` after those of the arcs before it gives the timeouts of the first `a + 1` arcs. */
  lemma ArcStep(prev: seq<Timeout>, cur: seq<Timeout>, t0: seq<Timeout>, arcs: seq<Arc>, a: nat, h0: nat, now: nat)
    requires a < |arcs|
    requires prev == t0 + Stamp(SequenceSchedule(arcs[..a]), h0, now)
    requires cur == prev + Stamp(ArcRings(arcs[a]), h0 + 6 * a, now)
    ensures cur == t0 + Stamp(SequenceSchedule(arcs[..a + 1]), h0, now)
  {
    var done := SequenceSchedule(arcs[..a]);
    SequenceScheduleLength(arcs[..a]);
    assert arcs[..a + 1][..a] == arcs[..a];
    assert SequenceSchedule(arcs[..a + 1]) == done + ArcRings(arcs[a]);
    StampConcat(done, ArcRings(arcs[a]), h0, now);
    AppendAssoc(t0, Stamp(done, h0, now), Stamp(ArcRings(arcs[a]), h0 + 6 * a, now));
  }

  lemma StampAppend(rs: seq<ScheduledRing>, r: ScheduledRing, first: nat, now: nat)
    ensures Stamp(rs + [r], first, now) == Stamp(rs, first, now) + [Timeout(first + |rs|, now + r.delay, Spawn(r.lat, r.lng, r.maxR))]
  {
    assert forall i :: 0 <= i < |rs| ==> (rs + [r])[i] == rs[i];
  }

  // ---------------------------------------------------------------------
  // Sets of handles and rings
  // ---------------------------------------------------------------------

  function Handles(ts: seq<Timeout>): set<nat> {
    set t | t in ts :: t.handle
  }

  /** The rings pending timeouts will remove. */
  function RemoveTargets(ts: seq<Timeout>): set<nat> {
    set t | t in ts && t.action.Remove? :: t.action.ringId
  }

  function RingIds(rings: seq<RingData>): set<nat> {
    set r | r in rings :: r.id
  }

  predicate DistinctHandles(ts: seq<Timeout>) {
    forall i, j :: 0 <= i < |ts| && 0 <= j < |ts| && i != j ==> ts[i].handle != ts[j].handle
  }

  /** No two pending timeouts remove the same ring. */
  predicate DistinctTargets(ts: seq<Timeout>) {
    forall i, j :: 0 <= i < |ts| && 0 <= j < |ts| && i != j && ts[i].action.Remove? && ts[j].action.Remove? ==>
      ts[i].action.ringId != ts[j].action.ringId
  }

  predicate DistinctIds(rings: seq<RingData>) {
    forall i, j :: 0 <= i < |rings| && 0 <= j < |rings| && i != j ==> rings[i].id != rings[j].id
  }

  /** `prev.filter(r => r !== ring)` for the ring with this id. */
  function Without(rings: seq<RingData>, id: nat): (r: seq<RingData>)
    ensures |r| <= |rings|
  {
    if |rings| == 0 then []
    else (if rings[0].id == id then [] else [rings[0]]) + Without(rings[1..], id)
  }

  /** The filter keeps exactly the rings with another id. */
  lemma {:induction false} WithoutMembers(rings: seq<RingData>, id: nat, x: RingData)
    ensures x in Without(rings, id) <==> x in rings && x.id != id
  {
    if |rings| > 0 {
      WithoutMembers(rings[1..], id, x);
      assert rings == [rings[0]] + rings[1..];
    }
  }

  /** A list without any ring of this id is left as it is. */
  lemma {:induction false} WithoutAbsent(rings: seq<RingData>, id: nat)
    requires id !in RingIds(rings)
    ensures Without(rings, id) == rings
  {
    if |rings| > 0 {
      assert rings[0] in rings;
      assert RingIds(rings[1..]) <= RingIds(rings) by {
        forall r | r in rings[1..] ensures r in rings { }
      }
      WithoutAbsent(rings[1..], id);
      assert rings == [rings[0]] + rings[1..];
    }
  }

  /** Removing a ring removes it alone and keeps the others in their order. */
  lemma {:induction false} WithoutSplice(a: seq<RingData>, r: RingData, b: seq<RingData>)
    requires r.id !in RingIds(a) && r.id !in RingIds(b)
    ensures Without(a + [r] + b, r.id) == a + b
  {
    if |a| == 0 {
      assert a + [r] + b == [r] + b && ([r] + b)[1..] == b;
      WithoutAbsent(b, r.id);
    } else {
      assert a[0] in a;
      assert RingIds(a[1..]) <= RingIds(a) by {
        forall x | x in a[1..] ensures x in a { }
      }
      WithoutSplice(a[1..], r, b);
      assert (a + [r] + b)[1..] == a[1..] + [r] + b;
      assert a + b == [a[0]] + (a[1..] + b);
    }
  }

  lemma HandlesAppend(ts: seq<Timeout>, t: Timeout)
    ensures Handles(ts + [t]) == Handles(ts) + {t.handle}
    ensures RemoveTargets(ts + [t]) == RemoveTargets(ts) + (if t.action.Remove? then {t.action.ringId} else {})
  {
    assert forall x :: x in ts + [t] <==> x in ts || x == t;
  }

  /** Deleting the timeout at `k` deletes its handle, and its target if it removes a ring. */
  lemma HandlesDelete(ts: seq<Timeout>, k: nat)
    requires k < |ts| && DistinctHandles(ts)
    ensures DistinctHandles(ts[..k] + ts[k + 1..])
    ensures Handles(ts[..k] + ts[k + 1..]) == Handles(ts) - {ts[k].handle}
    ensures ts[k].action.Spawn? ==> RemoveTargets(ts[..k] + ts[k + 1..]) == RemoveTargets(ts)
    ensures forall t :: t in ts[..k] + ts[k + 1..] ==> t in ts
  {
    var rest := ts[..k] + ts[k + 1..];
    assert forall i :: 0 <= i < |rest| ==> rest[i] == ts[if i < k then i else i + 1];
    assert forall t :: t in ts ==> t == ts[k] || t in rest by {
      forall t | t in ts ensures t == ts[k] || t in rest {
        var i :| 0 <= i < |ts| && ts[i] == t;
        if i < k { assert rest[i] == t; } else if i > k { assert rest[i - 1] == t; }
      }
    }
    assert ts[k].handle !in Handles(rest);
  }

  // ---------------------------------------------------------------------
  // The hook's state
  // ---------------------------------------------------------------------

  class RingScheduler {
    /** The arc list of arcs.json. */
    const arcs: seq<Arc>
    /** The hook's `motionEnabled` argument. */
    var motionEnabled: bool
    var mounted: bool
    var now: nat
    var activeRings: seq<RingData>
    var activeTimeouts: set<nat>
    var timers: seq<Timeout>
    var interval: Option<Interval>
    var nextHandle: nat
    var nextRingId: nat

    /**
     * `activeTimeouts` holds the handles of exactly the pending timeouts; each
     * shown ring has a pending removal; no timer runs while motion is off or
     * after unmounting.
     */
    predicate Valid()
      reads this
    {
      TimersValid() && RingsValid() && ModeValid()
    }

    /** The pending timeouts: their handles are `activeTimeouts`, all distinct, issued and not yet due. */
    predicate TimersValid()
      reads this
    {
      && Handles(timers) == activeTimeouts
      && DistinctHandles(timers)
      && (forall t :: t in timers ==> t.handle < nextHandle && now <= t.due)
      && DistinctTargets(timers)
    }

    /** The shown rings: distinct, issued, and each with exactly one pending removal. */
    predicate RingsValid()
      reads this
    {
      && DistinctIds(activeRings)
      && (forall r :: r in activeRings ==> r.id < nextRingId && r.propagationSpeed == 4.0 && r.repeatPeriod == 0.0)
      && RingIds(activeRings) == RemoveTargets(timers)
    }

    /** The interval runs with the cycle time, and nothing runs while motion is off or after unmounting. */
    predicate ModeValid()
      reads this
    {
      && (interval.Some? ==> now <= interval.value.nextDue && interval.value.period == CycleTime(arcs))
      && (!(mounted && motionEnabled) ==> timers == [] && interval.None? && activeRings == [])
    }

    /** Mounting the component runs the effect once. */
    constructor (arcs: seq<Arc>, motionEnabled: bool)
      ensures Valid() && mounted && this.arcs == arcs && this.motionEnabled == motionEnabled && now == 0
      ensures motionEnabled ==> timers == Stamp(SequenceSchedule(arcs), 0, 0)
                                && activeTimeouts == Handles(timers)
                                && interval == Some(Interval(CycleTime(arcs), CycleTime(arcs)))
      ensures !motionEnabled ==> timers == [] && interval.None?
      ensures activeRings == []
    {
      this.arcs := arcs;
      this.motionEnabled := motionEnabled;
      mounted := true;
      now := 0;
      activeRings := [];
      activeTimeouts := {};
      timers := [];
      interval := None;
      nextHandle := 0;
      nextRingId := 0;
      new;
      RunEffect();
    }

    /** The effect body: nothing but clearing the rings when motion is off, else the first sequence and the interval. */
    method RunEffect()
      requires Valid() && mounted && timers == [] && interval.None?
      modifies this
      ensures Valid() && mounted && motionEnabled == old(motionEnabled) && now == old(now)
      ensures activeRings == []
      ensures motionEnabled ==> timers == Stamp(SequenceSchedule(arcs), old(nextHandle), now)
                                && activeTimeouts == Handles(timers)
                                && interval == Some(Interval(CycleTime(arcs), now + CycleTime(arcs)))
      ensures !motionEnabled ==> timers == [] && interval.None?
    {
      if !motionEnabled {
        activeRings := [];
        return;
      }
      EmptyIds(activeRings);
      activeTimeouts := {};
      TriggerSequence();
      interval := Some(Interval(CycleTime(arcs), now + CycleTime(arcs)));
    }

    /** `scheduleRing(lat, lng, delay, maxRadius)`: one `setTimeout`, its handle added to `activeTimeouts`. */
    method ScheduleRing(lat: real, lng: real, delay: nat, maxRadius: real)
      requires Valid() && mounted && motionEnabled
      modifies this`timers, this`activeTimeouts, this`nextHandle
      ensures Valid()
      ensures timers == old(timers) + [Timeout(old(nextHandle), now + delay, Spawn(lat, lng, maxRadius))]
      ensures activeTimeouts == old(activeTimeouts) + {old(nextHandle)}
      ensures nextHandle == old(nextHandle) + 1
    {
      var t := Timeout(nextHandle, now + delay, Spawn(lat, lng, maxRadius));
      HandlesAppend(timers, t);
      assert t.handle !in Handles(timers);
      timers := timers + [t];
      activeTimeouts := activeTimeouts + {nextHandle};
      nextHandle := nextHandle + 1;
    }

    /** One of the two `for` loops: three rings at one endpoint, 200 ms apart. */
    method ScheduleEndpoint(lat: real, lng: real, order: nat)
      requires Valid() && mounted && motionEnabled
      modifies this`timers, this`activeTimeouts, this`nextHandle
      ensures Valid()
      ensures timers == old(timers) + Stamp(EndpointRings(lat, lng, order), old(nextHandle), now)
      ensures nextHandle == old(nextHandle) + 3
    {
      ghost var t0, h0 := timers, nextHandle;
      ghost var rs := EndpointRings(lat, lng, order);
      var sequenceStart := order * StaggerInterval;
      var i := 0;
      while i < 3
        invariant 0 <= i <= 3 && Valid()
        invariant timers == t0 + Stamp(rs[..i], h0, now)
        invariant nextHandle == h0 + i
      {
        StampAppend(rs[..i], rs[i], h0, now);
        assert rs[..i + 1] == rs[..i] + [rs[i]];
        ScheduleRing(lat, lng, sequenceStart + i * RingPulseInterval, 2.0 + (i as real) * 0.5);
        AppendAssoc(t0, Stamp(rs[..i], h0, now), [Timeout(h0 + i, now + rs[i].delay, Spawn(lat, lng, rs[i].maxR))]);
        i := i + 1;
      }
      assert rs[..3] == rs;
    }

    /** The `forEach` callback: the sender's three rings, then the receiver's. */
    method ScheduleArc(arc: Arc)
      requires Valid() && mounted && motionEnabled
      modifies this`timers, this`activeTimeouts, this`nextHandle
      ensures Valid()
      ensures timers == old(timers) + Stamp(ArcRings(arc), old(nextHandle), now)
      ensures nextHandle == old(nextHandle) + 6
    {
      ghost var t0, h0 := timers, nextHandle;
      ghost var s := EndpointRings(arc.startLat, arc.startLng, arc.order);
      ghost var e := EndpointRings(arc.endLat, arc.endLng, arc.order);
      ScheduleEndpoint(arc.startLat, arc.startLng, arc.order);
      ScheduleEndpoint(arc.endLat, arc.endLng, arc.order);
      StampConcat(s, e, h0, now);
      AppendAssoc(t0, Stamp(s, h0, now), Stamp(e, h0 + 3, now));
    }

    /** `triggerSequence`: schedules the rings of every arc, six per arc. */
    method TriggerSequence()
      requires Valid() && mounted && motionEnabled
      modifies this`timers, this`activeTimeouts, this`nextHandle
      ensures Valid()
      ensures timers == old(timers) + Stamp(SequenceSchedule(arcs), old(nextHandle), now)
      ensures nextHandle == old(nextHandle) + 6 * |arcs|
    {
      ghost var t0, h0 := timers, nextHandle;
      var a := 0;
      while a < |arcs|
        invariant 0 <= a <= |arcs| && Valid()
        invariant timers == t0 + Stamp(SequenceSchedule(arcs[..a]), h0, now)
        invariant nextHandle == h0 + 6 * a
      {
        ghost var prev := timers;
        ScheduleArc(arcs[a]);
        ArcStep(prev, timers, t0, arcs, a, h0, now);
        a := a + 1;
      }
      assert arcs[..a] == arcs;
    }

    /**
     * Fires the pending timeout at `k`, which must be due no later than any
     * other pending event. A spawn shows a new ring and schedules its removal
     * 600 ms later; a removal filters that one ring out.
     */
    method FireTimeout(k: nat)
      requires Valid() && k < |timers|
      requires forall t :: t in timers ==> timers[k].due <= t.due
      requires interval.Some? ==> timers[k].due <= interval.value.nextDue
      modifies this
      ensures Valid()
      ensures now == old(timers[k].due)
      ensures motionEnabled == old(motionEnabled) && mounted == old(mounted)
      ensures interval == old(interval)
      ensures old(timers[k].action).Spawn? ==>
        var s := old(timers[k].action);
        var ring := RingData(old(nextRingId), s.lat, s.lng, s.maxR, 4.0, 0.0);
        && activeRings == old(activeRings) + [ring]
        && timers == old(timers[..k] + timers[k + 1..]) + [Timeout(old(nextHandle), now + RingDuration, Remove(ring.id))]
        && activeTimeouts == old(activeTimeouts) - {old(timers[k].handle)} + {old(nextHandle)}
      ensures old(timers[k].action).Remove? ==>
        && activeRings == Without(old(activeRings), old(timers[k].action.ringId))
        && timers == old(timers[..k] + timers[k + 1..])
        && activeTimeouts == old(activeTimeouts) - {old(timers[k].handle)}
    {
      now := timers[k].due;
      if timers[k].action.Spawn? {
        FireSpawn(k);
      } else {
        FireRemove(k);
      }
    }

    /** The spawn branch of `FireTimeout`, once the clock has reached the timeout. */
    method FireSpawn(k: nat)
      requires Valid() && k < |timers| && timers[k].action.Spawn?
      modifies this`activeRings, this`nextRingId, this`timers, this`activeTimeouts, this`nextHandle
      ensures Valid()
      ensures
        var s := old(timers[k].action);
        var ring := RingData(old(nextRingId), s.lat, s.lng, s.maxR, 4.0, 0.0);
        && activeRings == old(activeRings) + [ring]
        && timers == old(timers[..k] + timers[k + 1..]) + [Timeout(old(nextHandle), now + RingDuration, Remove(ring.id))]
        && activeTimeouts == old(activeTimeouts) - {old(timers[k].handle)} + {old(nextHandle)}
    {
      var s := timers[k].action;
      DropSpawn(k);
      ShowRing(s.lat, s.lng, s.maxR);
    }

    /** The fired spawn timeout leaves the timer table, and its handle leaves `activeTimeouts`. */
    method DropSpawn(k: nat)
      requires Valid() && k < |timers| && timers[k].action.Spawn?
      modifies this`timers, this`activeTimeouts
      ensures Valid() && mounted && motionEnabled
      ensures timers == old(timers[..k] + timers[k + 1..])
      ensures activeTimeouts == old(activeTimeouts) - {old(timers[k].handle)}
    {
      var h := timers[k].handle;
      var rest := timers[..k] + timers[k + 1..];
      HandlesDelete(timers, k);
      TargetsDelete(timers, k);
      timers := rest;
      activeTimeouts := activeTimeouts - {h};
    }

    /** The callback: a new ring is shown and its removal scheduled `ringDuration` later. */
    method ShowRing(lat: real, lng: real, maxR: real)
      requires Valid() && mounted && motionEnabled
      modifies this`activeRings, this`nextRingId, this`timers, this`activeTimeouts, this`nextHandle
      ensures Valid()
      ensures activeRings == old(activeRings) + [RingData(old(nextRingId), lat, lng, maxR, 4.0, 0.0)]
      ensures timers == old(timers) + [Timeout(old(nextHandle), now + RingDuration, Remove(old(nextRingId)))]
      ensures activeTimeouts == old(activeTimeouts) + {old(nextHandle)}
      ensures nextRingId == old(nextRingId) + 1 && nextHandle == old(nextHandle) + 1
    {
      var ring := RingData(nextRingId, lat, lng, maxR, 4.0, 0.0);
      assert ring.id !in RingIds(activeRings);
      SpawnKeepsIds(activeRings, ring);
      var removeTimeout := Timeout(nextHandle, now + RingDuration, Remove(ring.id));
      HandlesAppend(timers, removeTimeout);
      TargetsAppend(timers, removeTimeout);
      activeRings := activeRings + [ring];
      nextRingId := nextRingId + 1;
      timers := timers + [removeTimeout];
      activeTimeouts := activeTimeouts + {nextHandle};
      nextHandle := nextHandle + 1;
    }

    /** The removal branch of `FireTimeout`, once the clock has reached the timeout. */
    method FireRemove(k: nat)
      requires Valid() && k < |timers| && timers[k].action.Remove?
      modifies this`activeRings, this`timers, this`activeTimeouts
      ensures Valid()
      ensures activeRings == Without(old(activeRings), old(timers[k].action.ringId))
      ensures timers == old(timers[..k] + timers[k + 1..])
      ensures activeTimeouts == old(activeTimeouts) - {old(timers[k].handle)}
    {
      var t := timers[k];
      var rest := timers[..k] + timers[k + 1..];
      HandlesDelete(timers, k);
      TargetsDelete(timers, k);
      RemoveKeepsIds(activeRings, t.action.ringId);
      activeRings := Without(activeRings, t.action.ringId);
      timers := rest;
      activeTimeouts := activeTimeouts - {t.handle};
    }

    /** The interval fires: a new sequence from now, and the next tick one period later. */
    method FireInterval()
      requires Valid() && interval.Some?
      requires forall t :: t in timers ==> interval.value.nextDue <= t.due
      modifies this
      ensures Valid() && motionEnabled == old(motionEnabled) && mounted == old(mounted)
      ensures now == old(interval.value.nextDue)
      ensures interval == Some(Interval(old(interval.value.period), now + old(interval.value.period)))
      ensures timers == old(timers) + Stamp(SequenceSchedule(arcs), old(nextHandle), now)
      ensures activeRings == old(activeRings)
    {
      now := interval.value.nextDue;
      interval := Some(Interval(interval.value.period, now + interval.value.period));
      TriggerSequence();
    }

    /** The pending timeout at `FirstDue(timers)` runs next: it is due no later than the interval's tick. */
    predicate TimeoutFirst()
      reads this
    {
      |timers| > 0 && (interval.None? || timers[FirstDue(timers)].due <= interval.value.nextDue)
    }

    /** The interval's tick runs next: no timeout is pending that is due at or before it. */
    predicate IntervalFirst()
      reads this
    {
      interval.Some? && (|timers| == 0 || interval.value.nextDue < timers[FirstDue(timers)].due)
    }

    /** The timeout branch of `Step`: the timeout at `FirstDue(timers)` fires. */
    method FireFirstTimeout()
      requires Valid() && TimeoutFirst()
      modifies this
      ensures Valid() && motionEnabled == old(motionEnabled) && mounted == old(mounted)
      ensures old(now) <= now
      ensures forall t :: t in old(timers) ==> now <= t.due
      ensures old(interval).Some? ==> now <= old(interval).value.nextDue
      ensures
        var k := old(FirstDue(timers));
        var t := old(timers[k]);
        && now == t.due && interval == old(interval)
        && (t.action.Spawn? ==>
              && activeRings == old(activeRings) + [RingData(old(nextRingId), t.action.lat, t.action.lng, t.action.maxR, 4.0, 0.0)]
              && timers == old(timers[..k] + timers[k + 1..]) + [Timeout(old(nextHandle), now + RingDuration, Remove(old(nextRingId)))]
              && activeTimeouts == old(activeTimeouts) - {t.handle} + {old(nextHandle)})
        && (t.action.Remove? ==>
              && activeRings == Without(old(activeRings), t.action.ringId)
              && timers == old(timers[..k] + timers[k + 1..])
              && activeTimeouts == old(activeTimeouts) - {t.handle})
    {
      var k := Earliest(timers);
      assert forall t :: t in timers ==> timers[k].due <= t.due;
      FireTimeout(k);
    }

    /**
     * Fires the earliest pending event, timeouts before the interval when both
     * are due at once; returns false, changing nothing, when nothing is pending.
     * The clock moves to the least pending due time.
     */
    method Step() returns (fired: bool)
      requires Valid()
      modifies this
      ensures Valid() && motionEnabled == old(motionEnabled) && mounted == old(mounted)
      ensures fired <==> old(|timers| > 0 || interval.Some?)
      ensures !fired ==> now == old(now) && activeRings == old(activeRings) && timers == old(timers) && interval == old(interval)
      ensures fired ==> old(now) <= now
                        && (forall t :: t in old(timers) ==> now <= t.due)
                        && (old(interval).Some? ==> now <= old(interval).value.nextDue)
      ensures old(TimeoutFirst()) ==>
        var k := old(FirstDue(timers));
        var t := old(timers[k]);
        && now == t.due && interval == old(interval)
        && (t.action.Spawn? ==>
              && activeRings == old(activeRings) + [RingData(old(nextRingId), t.action.lat, t.action.lng, t.action.maxR, 4.0, 0.0)]
              && timers == old(timers[..k] + timers[k + 1..]) + [Timeout(old(nextHandle), now + RingDuration, Remove(old(nextRingId)))]
              && activeTimeouts == old(activeTimeouts) - {t.handle} + {old(nextHandle)})
        && (t.action.Remove? ==>
              && activeRings == Without(old(activeRings), t.action.ringId)
              && timers == old(timers[..k] + timers[k + 1..])
              && activeTimeouts == old(activeTimeouts) - {t.handle})
      ensures old(IntervalFirst()) ==>
        && now == old(interval.value.nextDue)
        && interval == Some(Interval(old(interval.value.period), now + old(interval.value.period)))
        && timers == old(timers) + Stamp(SequenceSchedule(arcs), old(nextHandle), now)
        && activeRings == old(activeRings)
    {
      if TimeoutFirst() {
        FireFirstTimeout();
        return true;
      }
      if interval.Some? {
        assert forall t :: t in timers ==> interval.value.nextDue <= t.due;
        FireInterval();
        return true;
      }
      return false;
    }

    /**
     * The event loop running `n` events. Once the cleanup has run (motion off or
     * unmounted), nothing is pending, so no event fires and no ring appears,
     * however long the loop runs.
     */
    method RunSteps(n: nat) returns (count: nat)
      requires Valid()
      modifies this
      ensures Valid() && motionEnabled == old(motionEnabled) && mounted == old(mounted)
      ensures count <= n
      ensures old(!(mounted && motionEnabled)) ==>
        count == 0 && timers == [] && activeRings == [] && interval.None? && now == old(now)
    {
      count := 0;
      var i := 0;
      while i < n
        invariant 0 <= i <= n && count <= i
        invariant Valid() && motionEnabled == old(motionEnabled) && mounted == old(mounted)
        invariant old(!(mounted && motionEnabled)) ==> count == 0 && now == old(now)
      {
        var fired := Step();
        if fired {
          count := count + 1;
        }
        i := i + 1;
      }
    }

    /** The effect's cleanup: every pending timeout and the interval cancelled, the rings cleared. */
    method Cleanup()
      requires Valid() && mounted && motionEnabled
      modifies this
      ensures Valid()
      ensures timers == [] && activeTimeouts == {} && interval.None? && activeRings == []
      ensures now == old(now) && mounted && motionEnabled
    {
      var pending := activeTimeouts;
      while pending != {}
        invariant Handles(timers) == pending && DistinctHandles(timers)
        invariant RemoveTargets(timers) <= old(RemoveTargets(timers))
        invariant forall t :: t in timers ==> t in old(timers)
        invariant now == old(now) && activeTimeouts == old(activeTimeouts)
        invariant activeRings == old(activeRings) && mounted && motionEnabled
        invariant interval == old(interval) && nextHandle == old(nextHandle) && nextRingId == old(nextRingId)
        decreases |pending|
      {
        var h :| h in pending;
        ClearTimeout(h);
        pending := pending - {h};
      }
      NoHandlesNoTimers(timers);
      activeTimeouts := {};
      interval := None;
      activeRings := [];
    }

    /** `clearTimeout(h)`: the pending timeout with handle `h` is dropped. */
    method ClearTimeout(h: nat)
      requires DistinctHandles(timers) && h in Handles(timers)
      modifies this`timers
      ensures DistinctHandles(timers) && Handles(timers) == old(Handles(timers)) - {h}
      ensures RemoveTargets(timers) <= old(RemoveTargets(timers))
      ensures forall t :: t in timers ==> t in old(timers)
    {
      var k :| 0 <= k < |timers| && timers[k].handle == h;
      HandlesDelete(timers, k);
      RemoveTargetsShrink(timers, k);
      timers := timers[..k] + timers[k + 1..];
    }

    /** A change of `motionEnabled`: the old effect's cleanup (if it set one up), then the effect again. */
    method SetMotionEnabled(enabled: bool)
      requires Valid() && mounted
      modifies this
      ensures Valid() && mounted && motionEnabled == enabled
      ensures enabled == old(motionEnabled) ==> timers == old(timers) && activeRings == old(activeRings) && interval == old(interval)
      ensures !enabled ==> timers == [] && interval.None? && activeRings == []
      ensures enabled && !old(motionEnabled) ==>
        && activeRings == []
        && timers == Stamp(SequenceSchedule(arcs), old(nextHandle), now)
        && interval == Some(Interval(CycleTime(arcs), now + CycleTime(arcs)))
      ensures now == old(now)
    {
      if enabled == motionEnabled {
        return;
      }
      if motionEnabled {
        Cleanup();
      }
      motionEnabled := enabled;
      RunEffect();
    }

    /** Unmounting runs the cleanup; after it no spawn or removal can fire (see `RunSteps`). */
    method Unmount()
      requires Valid() && mounted
      modifies this
      ensures Valid() && !mounted
      ensures timers == [] && interval.None? && activeRings == []
    {
      if motionEnabled {
        Cleanup();
      }
      mounted := false;
    }
  }

  /**
   * A client of the hook: after motion is switched off, or after unmounting,
   * any number of event-loop steps leaves no ring shown and no timeout pending.
   */
  method QuietAfterCleanup(s: RingScheduler, switchOff: bool, n: nat)
    requires s.Valid() && s.mounted
    modifies s
    ensures s.Valid() && s.activeRings == [] && s.timers == [] && s.interval.None?
  {
    if switchOff {
      s.SetMotionEnabled(false);
    } else {
      s.Unmount();
    }
    var count := s.RunSteps(n);
    assert count == 0;
  }

  /**
   * The position of the timeout the event loop runs first: the earliest due
   * time, and among timeouts due at once the one scheduled first.
   */
  function FirstDue(timers: seq<Timeout>): (k: nat)
    requires |timers| > 0
    ensures k < |timers|
    ensures forall j :: 0 <= j < |timers| ==> timers[k].due <= timers[j].due
    ensures forall j :: 0 <= j < k ==> timers[k].due < timers[j].due
  {
    if |timers| == 1 then 0
    else
      var k := FirstDue(timers[..|timers| - 1]);
      if timers[|timers| - 1].due < timers[k].due then |timers| - 1 else k
  }

  /** The scan for the timeout due first. */
  method Earliest(timers: seq<Timeout>) returns (k: nat)
    requires |timers| > 0
    ensures k == FirstDue(timers)
  {
    k := 0;
    var i := 1;
    while i < |timers|
      invariant 0 < i <= |timers|
      invariant k == FirstDue(timers[..i])
    {
      assert timers[..i + 1][..i] == timers[..i];
      if timers[i].due < timers[k].due {
        k := i;
      }
      i := i + 1;
    }
    assert timers[..i] == timers;
  }


  lemma HandlesAppendAll(a: seq<Timeout>, b: seq<Timeout>)
    ensures Handles(a + b) == Handles(a) + Handles(b)
  {
    assert forall x :: x in a + b <==> x in a || x in b;
  }

  lemma NoHandlesNoTimers(ts: seq<Timeout>)
    ensures Handles(ts) == {} ==> ts == []
  {
    if |ts| > 0 {
      assert ts[0].handle in Handles(ts);
    }
  }

  lemma EmptyIds(rings: seq<RingData>)
    ensures RingIds(rings) == {} ==> rings == []
  {
    if |rings| > 0 {
      assert rings[0].id in RingIds(rings);
    }
  }

  lemma RemoveTargetsShrink(ts: seq<Timeout>, k: nat)
    requires k < |ts|
    ensures RemoveTargets(ts[..k] + ts[k + 1..]) <= RemoveTargets(ts)
  {
    var rest := ts[..k] + ts[k + 1..];
    assert forall t :: t in rest ==> t in ts by {
      forall t | t in rest ensures t in ts {
        var i :| 0 <= i < |rest| && rest[i] == t;
        if i < k { assert ts[i] == t; } else { assert ts[i + 1] == t; }
      }
    }
  }

  /** A ring with a fresh id keeps the ids distinct and adds its id. */
  lemma SpawnKeepsIds(rings: seq<RingData>, ring: RingData)
    requires DistinctIds(rings) && ring.id !in RingIds(rings)
    ensures DistinctIds(rings + [ring])
    ensures RingIds(rings + [ring]) == RingIds(rings) + {ring.id}
  {
    assert forall x :: x in rings + [ring] <==> x in rings || x == ring;
    forall i | 0 <= i < |rings| ensures rings[i].id != ring.id {
      assert rings[i] in rings;
    }
  }

  /** Filtering out one id keeps the others distinct and drops just that id. */
  lemma RemoveKeepsIds(rings: seq<RingData>, id: nat)
    requires DistinctIds(rings)
    ensures DistinctIds(Without(rings, id))
    ensures RingIds(Without(rings, id)) == RingIds(rings) - {id}
    ensures forall x :: x in Without(rings, id) ==> x in rings
  {
    forall x ensures x in Without(rings, id) <==> x in rings && x.id != id {
      WithoutMembers(rings, id, x);
    }
    WithoutDistinct(rings, id);
  }

  lemma {:induction false} WithoutDistinct(rings: seq<RingData>, id: nat)
    requires DistinctIds(rings)
    ensures DistinctIds(Without(rings, id))
  {
    if |rings| > 0 {
      var tail := rings[1..];
      assert DistinctIds(tail) by {
        forall i, j | 0 <= i < |tail| && 0 <= j < |tail| && i != j ensures tail[i].id != tail[j].id {
          assert tail[i] == rings[i + 1] && tail[j] == rings[j + 1];
        }
      }
      WithoutDistinct(tail, id);
      var w := Without(tail, id);
      forall x | x in w ensures x.id != rings[0].id {
        WithoutMembers(tail, id, x);
        var i :| 0 <= i < |tail| && tail[i] == x;
        assert rings[i + 1] == x;
      }
      var head := if rings[0].id == id then [] else [rings[0]];
      forall i, j | 0 <= i < |head + w| && 0 <= j < |head + w| && i != j
        ensures (head + w)[i].id != (head + w)[j].id
      {
        if |head| == 1 && i == 0 {
          assert (head + w)[j] == w[j - 1] && w[j - 1] in w;
        } else if |head| == 1 && j == 0 {
          assert (head + w)[i] == w[i - 1] && w[i - 1] in w;
        } else {
          assert (head + w)[i] == w[i - |head|] && (head + w)[j] == w[j - |head|];
        }
      }
    }
  }

  /** Each ring has at most one pending removal, so a firing removal takes its id out of the targets. */
  lemma TargetsDelete(ts: seq<Timeout>, k: nat)
    requires k < |ts| && DistinctTargets(ts)
    ensures DistinctTargets(ts[..k] + ts[k + 1..])
    ensures ts[k].action.Remove? ==> RemoveTargets(ts[..k] + ts[k + 1..]) == RemoveTargets(ts) - {ts[k].action.ringId}
  {
    var rest := ts[..k] + ts[k + 1..];
    assert forall i :: 0 <= i < |rest| ==> rest[i] == ts[if i < k then i else i + 1];
    assert forall t :: t in ts ==> t == ts[k] || t in rest by {
      forall t | t in ts ensures t == ts[k] || t in rest {
        var i :| 0 <= i < |ts| && ts[i] == t;
        if i < k { assert rest[i] == t; } else if i > k { assert rest[i - 1] == t; }
      }
    }
    assert forall t :: t in rest ==> t in ts by {
      forall t | t in rest ensures t in ts {
        var i :| 0 <= i < |rest| && rest[i] == t;
        assert ts[if i < k then i else i + 1] == t;
      }
    }
    if ts[k].action.Remove? {
      forall t | t in rest && t.action.Remove? ensures t.action.ringId != ts[k].action.ringId {
        var i :| 0 <= i < |rest| && rest[i] == t;
        assert ts[if i < k then i else i + 1] == t;
      }
    }
  }

  lemma TargetsAppend(ts: seq<Timeout>, t: Timeout)
    requires DistinctTargets(ts) && (t.action.Remove? ==> t.action.ringId !in RemoveTargets(ts))
    ensures DistinctTargets(ts + [t])
  {
    forall i | 0 <= i < |ts| && ts[i].action.Remove? && t.action.Remove? ensures ts[i].action.ringId != t.action.ringId {
      assert ts[i] in ts;
    }
  }

  lemma TargetsAppendAll(a: seq<Timeout>, b: seq<Timeout>)
    requires DistinctTargets(a) && forall t :: t in b ==> t.action.Spawn?
    ensures DistinctTargets(a + b) && RemoveTargets(a + b) == RemoveTargets(a)
  {
    assert forall x :: x in a + b <==> x in a || x in b;
    forall i, j | 0 <= i < |a + b| && 0 <= j < |a + b| && i != j && (a + b)[i].action.Remove? && (a + b)[j].action.Remove?
      ensures (a + b)[i].action.ringId != (a + b)[j].action.ringId
    {
      assert forall n :: |a| <= n < |a + b| ==> (a + b)[n] == b[n - |a|];
    }
  }
}
