/** `AdaptiveCheckpointer` (adaptive_checkpointer/core.py): the checkpoint
    scheduler with its adaptive levels, bounded rollback history, and the
    sorted checkpoint index next to the payload dictionary.

    The codec is a pair of function values handed to the constructor, so the
    model says nothing about what they compute; `S` is the type of the
    simulation state. */
module Core {
  import opened Common
  import opened CoreSpec

  class AdaptiveCheckpointer<S> {
    /** `efficient_serialize_state` / `efficient_deserialize_state`. */
    const encode: S -> Bytes
    const decode: Bytes -> S

    const baseInterval: int
    const decayFactor: real
    const maxLevels: nat
    const adaptationWindow: nat
    const adaptationTrigger: int

    /** `{event_id: serialized_bytes}` */
    var checkpoints: map<int, Bytes>
    /** The sorted list of saved event ids (duplicates kept). */
    var checkpointEvents: seq<int>
    /** `deque(maxlen=adaptation_window)`, oldest first. */
    var rollbackDepths: seq<int>
    var lastAdaptationEvent: int
    var currentLevels: seq<int>

    /** The object invariant.  Positive levels mean the modulo in
        `ShouldCheckpoint` never divides by zero; a non-empty level list means
        `max` in `OptimizeStorage` never fails. */
    ghost predicate Valid()
      reads this
    {
      && baseInterval > 0
      && maxLevels >= 1
      && adaptationTrigger == baseInterval * 10
      && |rollbackDepths| <= adaptationWindow
      && |currentLevels| == maxLevels
      && AllPositive(currentLevels)
      && StrictlyIncreasing(currentLevels)
      && Sorted(checkpointEvents)
      && Elems(checkpointEvents) == checkpoints.Keys
    }

    constructor (encode: S -> Bytes, decode: Bytes -> S,
                 baseInterval: int := 100, decayFactor: real := 0.9,
                 maxLevels: nat := 5, adaptationWindow: nat := 1000)
      requires baseInterval > 0 && maxLevels >= 1
      ensures Valid()
      ensures this.encode == encode && this.decode == decode
      ensures this.baseInterval == baseInterval && this.decayFactor == decayFactor
      ensures this.maxLevels == maxLevels && this.adaptationWindow == adaptationWindow
      ensures adaptationTrigger == baseInterval * 10
      ensures checkpoints == map[] && checkpointEvents == [] && rollbackDepths == []
      ensures lastAdaptationEvent == 0
      ensures currentLevels == Levels(baseInterval, maxLevels)
    {
      this.encode := encode;
      this.decode := decode;
      this.baseInterval := baseInterval;
      this.decayFactor := decayFactor;
      this.maxLevels := maxLevels;
      this.adaptationWindow := adaptationWindow;
      adaptationTrigger := baseInterval * 10;
      checkpoints := map[];
      checkpointEvents := [];
      rollbackDepths := [];
      lastAdaptationEvent := 0;
      currentLevels := Levels(baseInterval, maxLevels);
      new;
      LevelsShape(baseInterval, maxLevels);
    }

    /** `_dynamic_threshold` on the current history. */
    function DynamicThresholdNow(): (r: int)
      reads this
      requires Valid()
      ensures rollbackDepths == [] ==> r == baseInterval
      ensures 1 <= r <= 10 * baseInterval
    {
      DynamicThreshold(rollbackDepths, baseInterval, decayFactor)
    }

    /** Event 0 always checkpoints and touches nothing.  Otherwise the levels
        are rebuilt from the smoothed interval exactly when at least
        `adaptationTrigger` events have passed since the last rebuild, and the
        answer is whether the id is a multiple of some current level. */
    method ShouldCheckpoint(eventId: int) returns (b: bool)
      requires Valid()
      modifies this`currentLevels, this`lastAdaptationEvent
      ensures Valid()
      ensures eventId == 0 ==>
        b && currentLevels == old(currentLevels) && lastAdaptationEvent == old(lastAdaptationEvent)
      ensures eventId != 0 && eventId - old(lastAdaptationEvent) >= adaptationTrigger ==>
        currentLevels == Levels(DynamicThreshold(rollbackDepths, baseInterval, decayFactor), maxLevels)
        && lastAdaptationEvent == eventId
      ensures eventId != 0 && eventId - old(lastAdaptationEvent) < adaptationTrigger ==>
        currentLevels == old(currentLevels) && lastAdaptationEvent == old(lastAdaptationEvent)
      ensures eventId != 0 ==>
        (b <==> exists i :: 0 <= i < |currentLevels| && eventId % currentLevels[i] == 0)
    {
      if eventId == 0 {
        return true;
      }
      if eventId - lastAdaptationEvent >= adaptationTrigger {
        var di := DynamicThresholdNow();
        LevelsShape(di, maxLevels);
        currentLevels := Levels(di, maxLevels);
        lastAdaptationEvent := eventId;
      }
      b := DividesAny(eventId, currentLevels);
    }

    /** Stores the encoded state as the newest payload of `eventId` and
        inserts the id into the sorted list; a re-save adds a second copy of
        the id to the list. */
    method SaveCheckpoint(eventId: int, state: S)
      requires Valid()
      modifies this`checkpoints, this`checkpointEvents
      ensures Valid()
      ensures checkpoints == old(checkpoints)[eventId := encode(state)]
      ensures multiset(checkpointEvents) == multiset(old(checkpointEvents)) + multiset{eventId}
    {
      var serialized := encode(state);
      checkpoints := checkpoints[eventId := serialized];
      checkpointEvents := Insort(checkpointEvents, eventId);
      assert forall x :: x in checkpointEvents <==> x in multiset(checkpointEvents);
      assert Elems(checkpointEvents) == Elems(old(checkpointEvents)) + {eventId};
    }

    /** The floor lookup: the largest saved id `<= targetEvent` with its
        decoded latest payload, or `(-1, None)` when every saved id is larger. */
    method GetLastCheckpoint(targetEvent: int) returns (ev: int, state: Option<S>)
      requires Valid()
      ensures state == None <==> forall e :: e in checkpointEvents ==> e > targetEvent
      ensures state == None ==> ev == -1
      ensures state != None ==>
        IsFloor(checkpointEvents, targetEvent, ev) && ev in checkpoints
        && state == Some(decode(checkpoints[ev]))
    {
      var i := BisectRight(checkpointEvents, targetEvent);
      var idx := (i as int) - 1;
      if idx < 0 {
        return -1, None;
      }
      ev := checkpointEvents[idx];
      assert ev in Elems(checkpointEvents);
      var serialized := if ev in checkpoints then checkpoints[ev] else [];
      state := Some(decode(serialized));
      forall x | x in checkpointEvents && x <= targetEvent
        ensures x <= ev
      {
        var k :| 0 <= k < |checkpointEvents| && checkpointEvents[k] == x;
      }
    }

    /** Appends the depth as the newest history entry, evicting the oldest
        one when the window is full. */
    method RecordRollback(depth: int)
      requires Valid()
      modifies this`rollbackDepths
      ensures Valid()
      ensures rollbackDepths == BoundedAppend(old(rollbackDepths), depth, adaptationWindow)
    {
      rollbackDepths := BoundedAppend(rollbackDepths, depth, adaptationWindow);
    }

    /** The retention bound `current_event - 2 * max(current_levels)`: twice
        the coarsest level, which is the last one, behind the current event. */
    function KeepBound(currentEvent: int): (r: int)
      reads this
      requires Valid()
      ensures r < currentEvent
      ensures r == currentEvent - 2 * currentLevels[maxLevels - 1]
      ensures forall i :: 0 <= i < maxLevels ==> r <= currentEvent - 2 * currentLevels[i]
    {
      var m := MaxOf(currentLevels);
      assert forall i :: 0 <= i < maxLevels ==> currentLevels[i] <= currentLevels[maxLevels - 1];
      currentEvent - 2 * m
    }

    /** Drops every id below the retention bound from both the list and the
        dictionary; every id at or above it keeps its payload. */
    method OptimizeStorage(currentEvent: int)
      requires Valid()
      modifies this`checkpoints, this`checkpointEvents
      ensures Valid()
      ensures checkpointEvents == KeepFrom(old(checkpointEvents), KeepBound(currentEvent))
      ensures forall e :: e in checkpoints ==> e >= KeepBound(currentEvent)
      ensures forall e :: e in old(checkpoints) && e >= KeepBound(currentEvent) ==>
        e in checkpoints && checkpoints[e] == old(checkpoints)[e]
    {
      var keepFrom := KeepBound(currentEvent);
      KeepFromSorted(checkpointEvents, keepFrom);
      checkpointEvents := KeepFrom(checkpointEvents, keepFrom);
      assert forall e :: e in checkpointEvents ==> e in Elems(old(checkpointEvents));
      checkpoints := map e | e in checkpointEvents :: checkpoints[e];
      assert Elems(checkpointEvents) == checkpoints.Keys;
    }
  }

  /** After construction the levels are `base * 2^i`, one per level, strictly
      increasing. */
  method ConstructedLevels(base: int, maxLevels: nat) returns (levels: seq<int>)
    requires base > 0 && maxLevels >= 1
    ensures |levels| == maxLevels
    ensures forall i :: 0 <= i < maxLevels ==> levels[i] == base * Pow2(i)
    ensures StrictlyIncreasing(levels)
  {
    var c := new AdaptiveCheckpointer<int>(x => [], b => 0, base, 0.9, maxLevels, 1000);
    levels := c.currentLevels;
  }

  /** Scenario: base 100 with three levels and no earlier calls.  Event 0,
      100 and 200 checkpoint and 150 does not, because no adaptation happens
      before event 1000. */
  method SchedulingScenario() returns (at0: bool, at100: bool, at150: bool, at200: bool)
    ensures at0 && at100 && !at150 && at200
  {
    var c := new AdaptiveCheckpointer<int>(x => [], b => 0, 100, 0.9, 3, 1000);
    InitialLevelsExample();
    ghost var levels := [100, 200, 400];
    assert c.currentLevels == levels && c.lastAdaptationEvent == 0;
    at0 := c.ShouldCheckpoint(0);
    at100 := c.ShouldCheckpoint(100);
    assert c.currentLevels == levels && c.lastAdaptationEvent == 0;
    assert 100 % levels[0] == 0;
    at150 := c.ShouldCheckpoint(150);
    assert c.currentLevels == levels && c.lastAdaptationEvent == 0;
    assert forall i :: 0 <= i < 3 ==> 150 % levels[i] != 0;
    at200 := c.ShouldCheckpoint(200);
    assert 200 % levels[1] == 0;
  }

  /** Scenario: with checkpoints at 0, 100 and 200, the floor of 150 is 100
      with its payload, and no checkpoint lies at or before -1.  The states
      are payloads themselves, under the identity codec. */
  method FloorScenario(s0: Bytes, s100: Bytes, s200: Bytes)
    returns (ev150: int, st150: Option<Bytes>, evBefore: int, stBefore: Option<Bytes>)
    ensures ev150 == 100 && st150 == Some(s100)
    ensures evBefore == -1 && stBefore == None
  {
    var c := new AdaptiveCheckpointer<Bytes>(x => x, b => b, 100, 0.9, 3, 1000);
    c.SaveCheckpoint(0, s0);
    c.SaveCheckpoint(100, s100);
    c.SaveCheckpoint(200, s200);
    assert multiset(c.checkpointEvents) == multiset{0, 100, 200};
    assert 100 in c.checkpointEvents;
    ev150, st150 := c.GetLastCheckpoint(150);
    evBefore, stBefore := c.GetLastCheckpoint(-1);
  }
}
