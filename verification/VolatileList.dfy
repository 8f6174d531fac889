/**
  A list whose objects vanish unless they are touched in time.  A monitor scans the
  list and sleeps until the next object is due; with no object due it sleeps until
  one is touched.
 */
module VolatileLists {
  import opened Wrappers

  /** When an object dies; a resilient object never does. */
  datatype Death = Never | At(time: int)

  datatype Event<T> = Found(item: T) | Touched(item: T) | Lost(item: T)

  // ---------- Single operations ----------

  function IsResilent<T>(objects: map<T, Death>, obj: T): bool {
    obj in objects && objects[obj] == Never
  }

  /** The list after a touch, which does not shorten the life of a resilient object. */
  function AfterTouch<T>(objects: map<T, Death>, obj: T, death: int): map<T, Death> {
    if IsResilent(objects, obj) then objects else objects[obj := At(death)]
  }

  function TouchEvents<T>(objects: map<T, Death>, obj: T): seq<Event<T>> {
    (if obj in objects then [] else [Found(obj)]) + [Touched(obj)]
  }

  /** The clock is read anew for every object; the object is overdue at its reading. */
  predicate Overdue<T>(objects: map<T, Death>, readings: map<T, int>, obj: T)
    requires objects.Keys <= readings.Keys
  {
    obj in objects && objects[obj].At? && objects[obj].time <= readings[obj]
  }

  function Survivors<T>(objects: map<T, Death>, readings: map<T, int>): map<T, Death>
    requires objects.Keys <= readings.Keys
  {
    map obj | obj in objects && !Overdue(objects, readings, obj) :: objects[obj]
  }

  /** The time until the next surviving object is due, counted from the reading of that object; None for an unlimited wait. */
  ghost predicate IsWait<T>(objects: map<T, Death>, readings: map<T, int>, wait: Option<int>)
    requires objects.Keys <= readings.Keys
  {
    var survivors := Survivors(objects, readings);
    match wait
    case None => forall obj :: obj in survivors ==> survivors[obj].Never?
    case Some(w) =>
      && (forall obj :: obj in survivors && survivors[obj].At? ==> w <= survivors[obj].time - readings[obj])
      && exists obj :: obj in survivors && survivors[obj].At? && w == survivors[obj].time - readings[obj]
  }

  function LostEvents<T>(order: seq<T>): seq<Event<T>> {
    if order == [] then [] else LostEvents(order[..|order| - 1]) + [Lost(order[|order| - 1])]
  }

  /** Lists every element of the set once. */
  predicate Enumerates<T(==)>(order: seq<T>, s: set<T>) {
    && (forall i, j :: 0 <= i < j < |order| ==> order[i] != order[j])
    && (forall x :: x in s ==> x in order)
    && (forall i :: 0 <= i < |order| ==> order[i] in s)
  }

  class VolatileList<T(==, !new)> {
    const timespan: int
    var objects: map<T, Death>
    var touchedObject: bool
    var events: seq<Event<T>>

    constructor (timespan: int)
      ensures this.timespan == timespan && objects == map[] && !touchedObject && events == []
    {
      this.timespan, objects, touchedObject, events := timespan, map[], false, [];
    }

    method Touch(obj: T, now: int)
      modifies this
      ensures objects == AfterTouch(old(objects), obj, now + timespan)
      ensures events == old(events) + TouchEvents(old(objects), obj)
      ensures touchedObject
    {
      if obj !in objects {
        events := events + [Found(obj)];
      }
      if !IsResilent(objects, obj) {
        objects := objects[obj := At(now + timespan)];
      }
      events := events + [Touched(obj)];
      touchedObject := true;
    }

    method MakeResilent(obj: T)
      modifies `objects
      ensures objects == old(objects)[obj := Never]
    {
      objects := objects[obj := Never];
    }

    method MakeVolatile(obj: T, now: int)
      modifies `objects
      ensures objects == old(objects)[obj := At(now + timespan)]
    {
      objects := objects[obj := At(now + timespan)];
    }

    /** Announces all objects as lost, in the order in which the dictionary yields them. */
    method Clear(order: seq<T>)
      requires Enumerates(order, objects.Keys)
      modifies `objects, `events
      ensures objects == map[] && events == old(events) + LostEvents(order)
    {
      for i := 0 to |order|
        invariant events == old(events) + LostEvents(order[..i])
      {
        assert order[..i + 1][..i] == order[..i];
        events := events + [Lost(order[i])];
      }
      assert order[..|order|] == order;
      objects := map[];
    }

    /** One pass of the monitor over the dictionary, in the given order and with the given clock readings. */
    method Scan(order: seq<T>, readings: map<T, int>) returns (nextWaitTime: Option<int>, deprecated: seq<T>)
      requires Enumerates(order, objects.Keys) && objects.Keys <= readings.Keys
      modifies `objects, `events
      ensures objects == Survivors(old(objects), readings)
      ensures IsWait(old(objects), readings, nextWaitTime)
      ensures Enumerates(deprecated, set x | x in old(objects) && Overdue(old(objects), readings, x))
      ensures events == old(events) + LostEvents(deprecated)
    {
      nextWaitTime, deprecated := DetermineDeprecated(objects, order, readings);
      RemoveDeprecated(deprecated);
      assert objects == Survivors(old(objects), readings);
    }

    method RemoveDeprecated(deprecated: seq<T>)
      requires Enumerates(deprecated, set x | x in deprecated)
      modifies `objects, `events
      ensures objects == map x | x in old(objects) && x !in deprecated :: old(objects)[x]
      ensures events == old(events) + LostEvents(deprecated)
    {
      for i := 0 to |deprecated|
        invariant objects == map x | x in old(objects) && x !in deprecated[..i] :: old(objects)[x]
        invariant events == old(events) + LostEvents(deprecated[..i])
      {
        assert deprecated[..i + 1] == deprecated[..i] + [deprecated[i]];
        objects := objects - {deprecated[i]};
        events := events + [Lost(deprecated[i])];
      }
      assert deprecated[..|deprecated|] == deprecated;
    }
  }

  /** The object was seen among the given ones, is due later than its reading, and is due then at the earliest. */
  ghost predicate DueIn<T>(objects: map<T, Death>, readings: map<T, int>, obj: T, wait: int)
    requires objects.Keys <= readings.Keys
  {
    obj in objects && objects[obj].At? && !Overdue(objects, readings, obj) && wait == objects[obj].time - readings[obj]
  }

  /** The first loop of the monitor: which objects are overdue, and how long to wait for the next one. */
  method DetermineDeprecated<T(==, !new)>(objects: map<T, Death>, order: seq<T>, readings: map<T, int>)
    returns (nextWaitTime: Option<int>, deprecated: seq<T>)
    requires Enumerates(order, objects.Keys) && objects.Keys <= readings.Keys
    ensures IsWait(objects, readings, nextWaitTime)
    ensures Enumerates(deprecated, set x | x in objects && Overdue(objects, readings, x))
  {
    nextWaitTime, deprecated := None, [];
    for i := 0 to |order|
      invariant forall k, w :: 0 <= k < i && DueIn(objects, readings, order[k], w) ==> nextWaitTime.Some? && nextWaitTime.value <= w
      invariant nextWaitTime.Some? ==> exists k :: 0 <= k < i && DueIn(objects, readings, order[k], nextWaitTime.value)
      invariant forall k :: 0 <= k < i && Overdue(objects, readings, order[k]) ==> order[k] in deprecated
      invariant forall d :: d in deprecated ==> Overdue(objects, readings, d) && d in order[..i]
      invariant forall a, b :: 0 <= a < b < |deprecated| ==> deprecated[a] != deprecated[b]
    {
      var obj := order[i];
      assert obj !in order[..i];
      if objects[obj].At? {
        var now := readings[obj];
        if objects[obj].time <= now {
          deprecated := deprecated + [obj];
        } else if nextWaitTime.None? || objects[obj].time - now < nextWaitTime.value {
          nextWaitTime := Some(objects[obj].time - now);
          assert DueIn(objects, readings, order[i], nextWaitTime.value);
        }
      }
    }
    WaitOfLoop(objects, order, readings, nextWaitTime);
    forall x | x in objects && Overdue(objects, readings, x) ensures x in deprecated {
      var k :| 0 <= k < |order| && order[k] == x;
    }
    forall j | 0 <= j < |deprecated| ensures deprecated[j] in objects && Overdue(objects, readings, deprecated[j]) {
      assert deprecated[j] in deprecated;
    }
  }

  lemma WaitOfLoop<T(!new)>(objects: map<T, Death>, order: seq<T>, readings: map<T, int>, wait: Option<int>)
    requires Enumerates(order, objects.Keys) && objects.Keys <= readings.Keys
    requires forall k, w :: 0 <= k < |order| && DueIn(objects, readings, order[k], w) ==> wait.Some? && wait.value <= w
    requires wait.Some? ==> exists k :: 0 <= k < |order| && DueIn(objects, readings, order[k], wait.value)
    ensures IsWait(objects, readings, wait)
  {
    forall obj | obj in Survivors(objects, readings) && objects[obj].At?
      ensures wait.Some? && wait.value <= objects[obj].time - readings[obj]
    {
      var k :| 0 <= k < |order| && order[k] == obj;
      assert DueIn(objects, readings, order[k], objects[obj].time - readings[obj]);
    }
  }

  // ---------- Interleavings ----------

  /**
    AboutToScan: about to take the lock.  AboutToSleep: scanned from the given time
    on, not sleeping yet.  Sleeping: until the given time; the slack is how much time
    went by between the start of the scan and the start of the sleep.  Waiting: for a
    touch, without limit.
   */
  datatype Monitor =
    | AboutToScan
    | AboutToSleep(wait: Option<int>, scanned: int)
    | Sleeping(wakeTime: int, slack: int)
    | Waiting
    | Stopped

  /**
    owed: how many touches have left the lock but not set the event yet.  exempt:
    the objects made volatile since the last scan and not touched since then.
   */
  datatype State<T> = State(
    now: int, objects: map<T, Death>, touched: bool, owed: nat, monitor: Monitor, exempt: set<T>, events: seq<Event<T>>)

  datatype Step<T> =
    | Tick(elapsed: nat)
    | Touch(obj: T)
    | SetEvent
    | MakeResilent(obj: T)
    | MakeVolatile(obj: T)
    | Clear(order: seq<T>)
    | Scan(readings: map<T, int>, end: int, wait: Option<int>, deprecated: seq<T>)
    | Sleep
    | WakeUp
    | WakeByTouch
    | Cancel

  function Initial<T>(start: int): State<T> {
    State(start, map[], false, 0, AboutToScan, {}, [])
  }

  ghost predicate Enabled<T>(s: State<T>, step: Step<T>) {
    match step
    case SetEvent => s.owed > 0
    case Clear(order) => Enumerates(order, s.objects.Keys)
    case Scan(readings, end, wait, deprecated) =>
      && s.monitor == AboutToScan
      && s.now <= end
      && readings.Keys == s.objects.Keys
      && (forall obj :: obj in readings ==> s.now <= readings[obj] <= end)
      && IsWait(s.objects, readings, wait)
      && Enumerates(deprecated, set x | x in s.objects && Overdue(s.objects, readings, x))
    case Sleep => s.monitor.AboutToSleep?
    case WakeUp => s.monitor.Sleeping? && s.now >= s.monitor.wakeTime
    case WakeByTouch => s.monitor == Waiting && s.touched
    case Cancel => s.monitor.Sleeping? || s.monitor == Waiting
    case _ => true
  }

  ghost function Next<T>(timespan: nat, s: State<T>, step: Step<T>): State<T>
    requires Enabled(s, step)
  {
    match step
    case Tick(elapsed) => s.(now := s.now + elapsed)
    case Touch(obj) =>
      s.(objects := AfterTouch(s.objects, obj, s.now + timespan), owed := s.owed + 1, exempt := s.exempt - {obj},
         events := s.events + TouchEvents(s.objects, obj))
    case SetEvent => s.(touched := true, owed := s.owed - 1)
    case MakeResilent(obj) => s.(objects := s.objects[obj := Never])
    case MakeVolatile(obj) => s.(objects := s.objects[obj := At(s.now + timespan)], exempt := s.exempt + {obj})
    case Clear(order) => s.(objects := map[], events := s.events + LostEvents(order))
    case Scan(readings, end, wait, deprecated) =>
      s.(now := end, objects := Survivors(s.objects, readings), monitor := AboutToSleep(wait, s.now), exempt := {},
         events := s.events + LostEvents(deprecated))
    case Sleep =>
      if s.monitor.wait.None? then s.(monitor := Waiting)
      else s.(monitor := Sleeping(s.now + s.monitor.wait.value, s.now - s.monitor.scanned))
    case WakeUp => s.(monitor := AboutToScan)
    case WakeByTouch => s.(monitor := AboutToScan, touched := false)
    case Cancel => s.(monitor := Stopped)
  }

  // ---------- When objects are due ----------

  ghost predicate DueNoLaterThan<T>(objects: map<T, Death>, time: int) {
    forall obj :: obj in objects && objects[obj].At? ==> objects[obj].time <= time
  }

  ghost predicate DueNoEarlierThan<T>(objects: map<T, Death>, time: int) {
    forall obj :: obj in objects && objects[obj].At? ==> time <= objects[obj].time
  }

  /** Every object that is due has somebody who will wake the monitor, unless it was made volatile since the scan and not touched since. */
  ghost predicate WakeOwed<T>(s: State<T>) {
    forall obj :: obj in s.objects && s.objects[obj].At? && obj !in s.exempt ==> s.touched || s.owed > 0
  }

  ghost predicate Inv<T>(timespan: nat, s: State<T>) {
    && DueNoLaterThan(s.objects, s.now + timespan)
    && match s.monitor
       case AboutToSleep(wait, scanned) =>
         && scanned <= s.now
         && (wait.None? ==> WakeOwed(s))
         && (wait.Some? ==> wait.value <= timespan && DueNoEarlierThan(s.objects, scanned + wait.value))
       case Sleeping(wakeTime, slack) =>
         slack >= 0 && wakeTime <= s.now + timespan && DueNoEarlierThan(s.objects, wakeTime - slack)
       case Waiting => WakeOwed(s)
       case _ => true
  }

  lemma ScanKeepsInv<T>(timespan: nat, s: State<T>, step: Step<T>)
    requires Inv(timespan, s) && Enabled(s, step) && step.Scan?
    ensures Inv(timespan, Next(timespan, s, step))
  {
    var t := Next(timespan, s, step);
    forall obj | obj in t.objects && t.objects[obj].At?
      ensures t.objects[obj].time <= t.now + timespan
      ensures step.wait.Some? && step.wait.value <= timespan && s.now + step.wait.value <= t.objects[obj].time
    {
      assert s.objects[obj].time <= s.now + timespan;
    }
  }

  lemma StepKeepsInv<T>(timespan: nat, s: State<T>, step: Step<T>)
    requires Inv(timespan, s) && Enabled(s, step)
    ensures Inv(timespan, Next(timespan, s, step))
  {
    if step.Scan? {
      ScanKeepsInv(timespan, s, step);
    }
  }

  ghost predicate Legal<T>(timespan: nat, start: int, run: seq<Step<T>>)
    decreases |run|, 0
  {
    run == [] ||
    (Legal(timespan, start, run[..|run| - 1]) && Enabled(After(timespan, start, run[..|run| - 1]), run[|run| - 1]))
  }

  ghost function After<T>(timespan: nat, start: int, run: seq<Step<T>>): State<T>
    requires Legal(timespan, start, run)
    decreases |run|, 1
  {
    if run == [] then Initial(start) else Next(timespan, After(timespan, start, run[..|run| - 1]), run[|run| - 1])
  }

  /** The invariant holds after every interleaving. */
  lemma {:induction false} AlwaysInv<T>(timespan: nat, start: int, run: seq<Step<T>>)
    requires Legal(timespan, start, run)
    ensures Inv(timespan, After(timespan, start, run))
  {
    if run != [] {
      AlwaysInv(timespan, start, run[..|run| - 1]);
      StepKeepsInv(timespan, After(timespan, start, run[..|run| - 1]), run[|run| - 1]);
    }
  }

  // ---------- What callers rely on ----------

  /**
    A bounded sleep ends no later than any object in the list is due, whatever was
    touched meanwhile, plus the time that went by between scanning and falling asleep.
   */
  lemma {:induction false} NeverOversleeps<T>(timespan: nat, start: int, run: seq<Step<T>>, obj: T)
    requires Legal(timespan, start, run)
    requires var s := After(timespan, start, run); s.monitor.Sleeping? && obj in s.objects && s.objects[obj].At?
    ensures var s := After(timespan, start, run); s.monitor.wakeTime <= s.objects[obj].time + s.monitor.slack
  {
    AlwaysInv(timespan, start, run);
  }

  /** Whether the object was made volatile since the last scan, and not touched since then. */
  predicate VolatileSinceScan<T(==)>(run: seq<Step<T>>, obj: T) {
    run != [] &&
    var before := VolatileSinceScan(run[..|run| - 1], obj);
    match run[|run| - 1]
    case MakeVolatile(x) => x == obj || before
    case Touch(x) => x != obj && before
    case Scan(_, _, _, _) => false
    case _ => before
  }

  lemma {:induction false} ExemptExactly<T>(timespan: nat, start: int, run: seq<Step<T>>, obj: T)
    requires Legal(timespan, start, run)
    ensures obj in After(timespan, start, run).exempt <==> VolatileSinceScan(run, obj)
  {
    if run != [] {
      ExemptExactly(timespan, start, run[..|run| - 1], obj);
    }
  }

  function Touches<T>(run: seq<Step<T>>): nat {
    if run == [] then 0 else Touches(run[..|run| - 1]) + if run[|run| - 1].Touch? then 1 else 0
  }

  /** Whether the event was set and has not woken the monitor since. */
  predicate SetSinceWake<T>(run: seq<Step<T>>) {
    run != [] && (run[|run| - 1].SetEvent? || (!run[|run| - 1].WakeByTouch? && SetSinceWake(run[..|run| - 1])))
  }

  /** Every touch sets the event once, and the event wakes the monitor once. */
  lemma {:induction false} WakesOfTouches<T>(timespan: nat, start: int, run: seq<Step<T>>)
    requires Legal(timespan, start, run)
    ensures var s := After(timespan, start, run);
            && Touches(run) == multiset(run)[Step<T>.SetEvent] + s.owed
            && (s.touched <==> SetSinceWake(run))
  {
    if run != [] {
      var prev, last := run[..|run| - 1], run[|run| - 1];
      WakesOfTouches(timespan, start, prev);
      assert run == prev + [last];
    }
  }

  /** While the monitor sleeps without limit, a touch is about to wake it unless all due objects were made volatile since the scan and not touched since. */
  lemma {:induction false} UnlimitedSleepIsOwedAWake<T>(timespan: nat, start: int, run: seq<Step<T>>, obj: T)
    requires Legal(timespan, start, run)
    requires var s := After(timespan, start, run);
             s.monitor == Waiting && obj in s.objects && s.objects[obj].At? && !VolatileSinceScan(run, obj)
    ensures After(timespan, start, run).touched || After(timespan, start, run).owed > 0
  {
    AlwaysInv(timespan, start, run);
    ExemptExactly(timespan, start, run, obj);
  }

  /** The monitor sleeps without limit, or is about to. */
  predicate Unlimited<T>(s: State<T>) {
    s.monitor == Waiting || (s.monitor.AboutToSleep? && s.monitor.wait.None?)
  }

  /** If any object is due, somebody will wake the monitor. */
  ghost predicate NothingMissed<T>(s: State<T>) {
    (exists obj :: obj in s.objects && s.objects[obj].At?) ==> s.touched || s.owed > 0
  }

  /** When a scan decides to sleep without limit, no object is missed. */
  lemma ScanMissesNothing<T(!new)>(timespan: nat, s: State<T>, step: Step<T>)
    requires Enabled(s, step) && step.Scan? && step.wait.None?
    ensures Unlimited(Next(timespan, s, step)) && NothingMissed(Next(timespan, s, step))
  {
  }

  /** Until the sleep ends, this stays so exactly as long as no object is made volatile while no touch is under way. */
  lemma MissedExactly<T(!new)>(timespan: nat, s: State<T>, step: Step<T>)
    requires Enabled(s, step) && Unlimited(s) && NothingMissed(s) && Unlimited(Next(timespan, s, step))
    ensures NothingMissed(Next(timespan, s, step)) <==> !(step.MakeVolatile? && !s.touched && s.owed == 0)
  {
    var t := Next(timespan, s, step);
    match step
    case MakeVolatile(obj) => assert obj in t.objects && t.objects[obj].At?;
    case MakeResilent(obj) =>
      forall x | x in t.objects && t.objects[x].At? ensures x in s.objects && s.objects[x].At? {}
    case _ =>
  }

  /** A run that starts with the first steps and ends in the given state. */
  ghost predicate Reaches<T>(timespan: nat, start: int, run: seq<Step<T>>, s: State<T>) {
    Legal(timespan, start, run) && After(timespan, start, run) == s
  }

  lemma {:induction false} Extend<T>(timespan: nat, start: int, run: seq<Step<T>>, s: State<T>, step: Step<T>)
    requires Reaches(timespan, start, run, s) && Enabled(s, step)
    ensures Reaches(timespan, start, run + [step], Next(timespan, s, step))
  {
    assert (run + [step])[..|run|] == run;
  }

  lemma ScanOfOne<T>(obj: T, death: Death, now: int)
    requires death.At? ==> death.time > now
    ensures var objects, readings := map[obj := death], map[obj := now];
            && IsWait(objects, readings, if death.At? then Some(death.time - now) else None)
            && Enumerates([], set x | x in objects && Overdue(objects, readings, x))
            && Survivors(objects, readings) == objects
  {
    var objects, readings := map[obj := death], map[obj := now];
    assert Survivors(objects, readings) == objects;
    assert obj in Survivors(objects, readings);
    assert (set x | x in objects && Overdue(objects, readings, x)) == {};
  }

  /** Scanning a single object that is not due changes nothing but the phase of the monitor. */
  lemma ScanKeepsOne<T>(timespan: nat, s: State<T>, obj: T, death: Death)
    requires s.monitor == AboutToScan && s.objects == map[obj := death] && s.exempt == {} && (death.At? ==> death.time > s.now)
    ensures var wait := if death.At? then Some(death.time - s.now) else None;
            var scan := Scan(map[obj := s.now], s.now, wait, []);
            Enabled(s, scan) && Next(timespan, s, scan) == s.(monitor := AboutToSleep(wait, s.now))
  {
    ScanOfOne(obj, death, s.now);
    assert s.events + LostEvents([]) == s.events;
  }

  /**
    The bound is met: with all clock readings taken when the scan begins and nothing
    changed until the monitor falls asleep, it sleeps past some object by exactly the
    time that went by in between.
   */
  lemma OversleepsByTheSlack<T>(timespan: nat, s: State<T>, readings: map<T, int>, end: int, wait: int, deprecated: seq<T>, elapsed: nat)
    returns (obj: T)
    requires Enabled(s, Scan(readings, end, Some(wait), deprecated))
    requires forall x :: x in readings ==> readings[x] == s.now
    ensures var t := Next(timespan, Next(timespan, s, Scan(readings, end, Some(wait), deprecated)), Tick(elapsed));
            var u := Next(timespan, t, Sleep);
            && u.monitor == Sleeping(t.now + wait, end - s.now + elapsed)
            && obj in u.objects && u.objects[obj].At?
            && u.monitor.wakeTime == u.objects[obj].time + u.monitor.slack
  {
    obj :| obj in s.objects && obj in readings && s.objects[obj].At? && !Overdue(s.objects, readings, obj)
           && s.objects[obj].time - readings[obj] == wait;
  }

  /** The only object was scanned, and is not due yet. */
  lemma {:induction false} ScannedOnce<T>(obj: T) returns (run: seq<Step<T>>)
    ensures Reaches(5, 0, run, State(0, map[obj := At(5)], false, 1, AboutToSleep(Some(5), 0), {}, [Found(obj), Touched(obj)]))
  {
    var scan := Scan(map[obj := 0], 0, Some(5), []);
    run := [Touch(obj)];
    var s := State(0, map[obj := At(5)], false, 1, AboutToScan, {}, [Found(obj), Touched(obj)]);
    assert Reaches<T>(5, 0, [], Initial(0));
    Extend(5, 0, [], Initial(0), Touch(obj));
    assert [] + run == run && Next(5, Initial(0), Touch(obj)) == s;
    ScanKeepsOne(5, s, obj, At(5));
    Extend(5, 0, run, s, scan);
    run := run + [scan];
  }

  /** Time between scanning and falling asleep makes the monitor sleep past a due object. */
  lemma {:induction false} SlackOversleeps<T>(obj: T) returns (run: seq<Step<T>>)
    ensures Reaches(5, 0, run, State(3, map[obj := At(5)], false, 1, Sleeping(8, 3), {}, [Found(obj), Touched(obj)]))
  {
    run := ScannedOnce(obj);
    var s := State(0, map[obj := At(5)], false, 1, AboutToSleep(Some(5), 0), {}, [Found(obj), Touched(obj)]);
    Extend(5, 0, run, s, Tick(3));
    run, s := run + [Tick(3)], s.(now := 3);
    Extend(5, 0, run, s, Sleep);
    run := run + [Sleep];
  }

  /** The only object is resilent, and the monitor sleeps without limit. */
  lemma {:induction false} AsleepWithoutLimit<T>(obj: T) returns (run: seq<Step<T>>)
    ensures Reaches(5, 0, run, State(0, map[obj := Never], false, 0, Waiting, {}, []))
  {
    var scan := Scan(map[obj := 0], 0, None, []);
    run := [MakeResilent(obj)];
    var s := State(0, map[obj := Never], false, 0, AboutToScan, {}, []);
    assert Reaches<T>(5, 0, [], Initial(0));
    Extend(5, 0, [], Initial(0), MakeResilent(obj));
    assert [] + run == run && Next(5, Initial(0), MakeResilent(obj)) == s;
    ScanKeepsOne(5, s, obj, Never);
    Extend(5, 0, run, s, scan);
    run, s := run + [scan], s.(monitor := AboutToSleep(None, 0));
    Extend(5, 0, run, s, Sleep);
    run := run + [Sleep];
  }

  /** An object made volatile during an unlimited sleep is overdue while nothing is going to wake the monitor. */
  lemma {:induction false} MadeVolatileOversleeps<T>(obj: T) returns (run: seq<Step<T>>)
    ensures Reaches(5, 0, run, State(9, map[obj := At(5)], false, 0, Waiting, {obj}, []))
  {
    run := AsleepWithoutLimit(obj);
    var s := State(0, map[obj := Never], false, 0, Waiting, {}, []);
    Extend(5, 0, run, s, MakeVolatile(obj));
    run, s := run + [MakeVolatile(obj)], s.(objects := map[obj := At(5)], exempt := {obj});
    Extend(5, 0, run, s, Tick(9));
    run := run + [Tick(9)];
  }

  // ---------- Lives ----------

  /** The clock after the steps. */
  function Clock<T>(start: int, run: seq<Step<T>>): int {
    if run == [] then start
    else match run[|run| - 1]
      case Tick(elapsed) => Clock(start, run[..|run| - 1]) + elapsed
      case Scan(_, end, _, _) => end
      case _ => Clock(start, run[..|run| - 1])
  }

  /** Whether the object was touched or given a lifespan, and not lost since. */
  predicate Listed<T(==)>(run: seq<Step<T>>, obj: T) {
    run != [] &&
    var before := Listed(run[..|run| - 1], obj);
    match run[|run| - 1]
    case Touch(x) => x == obj || before
    case MakeResilent(x) => x == obj || before
    case MakeVolatile(x) => x == obj || before
    case Clear(_) => false
    case Scan(_, _, _, deprecated) => before && obj !in deprecated
    case _ => before
  }

  /** Whether the object was made resilent, and neither made volatile nor lost since. */
  predicate MadeResilent<T(==)>(run: seq<Step<T>>, obj: T) {
    run != [] &&
    var before := MadeResilent(run[..|run| - 1], obj);
    match run[|run| - 1]
    case MakeResilent(x) => x == obj || before
    case MakeVolatile(x) => x != obj && before
    case Clear(_) => false
    case Scan(_, _, _, deprecated) => before && obj !in deprecated
    case _ => before
  }

  /** The clock when the object was last touched or made volatile. */
  function LastRenewal<T(==)>(start: int, run: seq<Step<T>>, obj: T): int {
    if run == [] then start
    else
      var prev := run[..|run| - 1];
      match run[|run| - 1]
      case Touch(x) => if x == obj then Clock(start, prev) else LastRenewal(start, prev, obj)
      case MakeVolatile(x) => if x == obj then Clock(start, prev) else LastRenewal(start, prev, obj)
      case _ => LastRenewal(start, prev, obj)
  }

  /** An object lives for the lifespan from when it was last touched or made volatile, or without end if it was made resilent. */
  lemma {:induction false} LivesFromLastRenewal<T>(timespan: nat, start: int, run: seq<Step<T>>, obj: T)
    requires Legal(timespan, start, run)
    ensures var s := After(timespan, start, run);
            && s.now == Clock(start, run)
            && (obj in s.objects <==> Listed(run, obj))
            && (MadeResilent(run, obj) ==> obj in s.objects)
            && (obj in s.objects ==>
                  s.objects[obj] == if MadeResilent(run, obj) then Never else At(LastRenewal(start, run, obj) + timespan))
  {
    if run != [] {
      LivesFromLastRenewal(timespan, start, run[..|run| - 1], obj);
      match run[|run| - 1]
      case Touch(_) =>
      case Scan(readings, _, _, deprecated) =>
        var s := After(timespan, start, run[..|run| - 1]);
        assert obj in deprecated <==> obj in s.objects && Overdue(s.objects, readings, obj);
      case _ =>
    }
  }

  lemma {:induction false} LostEventsCount<T>(order: seq<T>, obj: T)
    requires forall i, j :: 0 <= i < j < |order| ==> order[i] != order[j]
    ensures multiset(LostEvents(order))[Lost(obj)] == if obj in order then 1 else 0
    ensures multiset(LostEvents(order))[Found(obj)] == 0 && multiset(LostEvents(order))[Touched(obj)] == 0
  {
    if order != [] {
      var prev, last := order[..|order| - 1], order[|order| - 1];
      LostEventsCount(prev, obj);
      assert order == prev + [last];
    }
  }

  /** The end of its life has come for an object in the list, as the clock is read. */
  predicate LifeIsOver<T(==)>(timespan: nat, start: int, run: seq<Step<T>>, obj: T, reading: int) {
    Listed(run, obj) && !MadeResilent(run, obj) && LastRenewal(start, run, obj) + timespan <= reading
  }

  /** Why a step announces an object as lost: the list is cleared, or a scan reads the clock when its life is over. */
  ghost predicate Loses<T>(timespan: nat, start: int, run: seq<Step<T>>, step: Step<T>, obj: T) {
    match step
    case Clear(_) => Listed(run, obj)
    case Scan(readings, _, _, _) => obj in readings && LifeIsOver(timespan, start, run, obj, readings[obj])
    case _ => false
  }

  /** The events that a step raises. */
  function Raised<T>(s: State<T>, step: Step<T>): seq<Event<T>> {
    match step
    case Touch(obj) => TouchEvents(s.objects, obj)
    case Clear(order) => LostEvents(order)
    case Scan(_, _, _, deprecated) => LostEvents(deprecated)
    case _ => []
  }

  lemma RaisedIsAnnounced<T>(timespan: nat, s: State<T>, step: Step<T>)
    requires Enabled(s, step)
    ensures Next(timespan, s, step).events == s.events + Raised(s, step)
  {
    assert s.events + [] == s.events;
  }

  lemma TouchEventsCount<T>(objects: map<T, Death>, x: T, obj: T)
    ensures multiset(TouchEvents(objects, x))[Touched(obj)] == (if x == obj then 1 else 0)
    ensures multiset(TouchEvents(objects, x))[Found(obj)] == (if x == obj && obj !in objects then 1 else 0)
    ensures multiset(TouchEvents(objects, x))[Lost(obj)] == 0
  {
    assert [] + [Touched(x)] == [Touched(x)];
  }

  lemma LostNow<T>(timespan: nat, start: int, run: seq<Step<T>>, step: Step<T>, obj: T)
    requires Legal(timespan, start, run) && Enabled(After(timespan, start, run), step) && (step.Scan? || step.Clear?)
    ensures var order := if step.Scan? then step.deprecated else step.order;
            && (Loses(timespan, start, run, step, obj) <==> obj in order)
            && forall i, j :: 0 <= i < j < |order| ==> order[i] != order[j]
  {
    LivesFromLastRenewal(timespan, start, run, obj);
    var s := After(timespan, start, run);
    if step.Scan? {
      assert obj in step.readings <==> obj in s.objects;
      assert obj in step.deprecated <==> obj in s.objects && Overdue(s.objects, step.readings, obj);
    }
  }

  /** What each step announces of an object: a touch, that it was found if it was not in the list, and that it is lost; each once or not at all. */
  lemma {:induction false} AnnouncedExactly<T>(timespan: nat, start: int, run: seq<Step<T>>, step: Step<T>, obj: T)
    requires Legal(timespan, start, run) && Enabled(After(timespan, start, run), step)
    ensures var s := After(timespan, start, run);
            var events := multiset(Raised(s, step));
            && Next(timespan, s, step).events == s.events + Raised(s, step)
            && events[Touched(obj)] == (if step == Touch(obj) then 1 else 0)
            && events[Found(obj)] == (if step == Touch(obj) && !Listed(run, obj) then 1 else 0)
            && events[Lost(obj)] == (if Loses(timespan, start, run, step, obj) then 1 else 0)
  {
    var s := After(timespan, start, run);
    RaisedIsAnnounced(timespan, s, step);
    if step.Touch? {
      LivesFromLastRenewal(timespan, start, run, obj);
      TouchEventsCount(s.objects, step.obj, obj);
    } else if step.Scan? || step.Clear? {
      var order := if step.Scan? then step.deprecated else step.order;
      LostNow(timespan, start, run, step, obj);
      LostEventsCount(order, obj);
      assert Raised(s, step) == LostEvents(order);
    }
  }

  /** The monitor stops exactly if it was cancelled, and then for good. */
  lemma {:induction false} StopsExactly<T>(timespan: nat, start: int, run: seq<Step<T>>)
    requires Legal(timespan, start, run)
    ensures After(timespan, start, run).monitor == Stopped <==> Cancel in run
  {
    if run != [] {
      var prev, last := run[..|run| - 1], run[|run| - 1];
      StopsExactly(timespan, start, prev);
      assert run == prev + [last];
    }
  }

  // ---------- Bounded response ----------

  predicate IsMonitoring<T>(step: Step<T>) {
    step.Scan? || step.Sleep? || step.WakeUp? || step.WakeByTouch?
  }

  /** How many steps of the monitor there are until the next scan is over. */
  function StepsToScan(monitor: Monitor): nat {
    match monitor
    case AboutToScan => 1
    case Sleeping(_, _) => 2
    case Waiting => 2
    case AboutToSleep(_, _) => 3
    case Stopped => 0
  }

  /** The step neither renews the object nor stops the monitor. */
  predicate LeavesToDie<T(==)>(step: Step<T>, obj: T) {
    step != Touch(obj) && step != MakeResilent(obj) && step != MakeVolatile(obj) && step != Cancel
  }

  /** The object is gone, or overdue and gone after so many steps of the monitor. */
  ghost predicate GoneWithin<T>(s: State<T>, obj: T, n: int) {
    obj in s.objects ==>
      s.objects[obj].At? && s.objects[obj].time <= s.now && s.monitor != Stopped && StepsToScan(s.monitor) <= n
  }

  lemma StepsToGone<T>(timespan: nat, s: State<T>, step: Step<T>, obj: T, n: int)
    requires Enabled(s, step) && LeavesToDie(step, obj) && GoneWithin(s, obj, n)
    ensures GoneWithin(Next(timespan, s, step), obj, if IsMonitoring(step) then n - 1 else n)
  {
  }

  function MonitorSteps<T>(run: seq<Step<T>>): nat {
    if run == [] then 0 else MonitorSteps(run[..|run| - 1]) + if IsMonitoring(run[|run| - 1]) then 1 else 0
  }

  lemma {:induction false} RunToGone<T>(timespan: nat, start: int, before: seq<Step<T>>, rest: seq<Step<T>>, obj: T, n: int)
    requires Legal(timespan, start, before) && Legal(timespan, start, before + rest)
    requires GoneWithin(After(timespan, start, before), obj, n) && forall step :: step in rest ==> LeavesToDie(step, obj)
    ensures GoneWithin(After(timespan, start, before + rest), obj, n - MonitorSteps(rest))
    decreases |rest|
  {
    if rest == [] {
      assert before + rest == before;
    } else {
      var prev := rest[..|rest| - 1];
      assert (before + rest)[..|before + rest| - 1] == before + prev;
      RunToGone(timespan, start, before, prev, obj, n);
      StepsToGone(timespan, After(timespan, start, before + prev), rest[|rest| - 1], obj, n - MonitorSteps(prev));
    }
  }

  /** An object that is overdue and not renewed is gone after three steps of the monitor, whatever else happens in between. */
  lemma {:induction false} OverdueIsLost<T>(timespan: nat, start: int, before: seq<Step<T>>, rest: seq<Step<T>>, obj: T)
    requires Legal(timespan, start, before) && Legal(timespan, start, before + rest)
    requires var s := After(timespan, start, before);
             s.monitor != Stopped && (obj in s.objects ==> s.objects[obj].At? && s.objects[obj].time <= s.now)
    requires forall step :: step in rest ==> LeavesToDie(step, obj)
    ensures MonitorSteps(rest) >= 3 ==> obj !in After(timespan, start, before + rest).objects
  {
    RunToGone(timespan, start, before, rest, obj, 3);
  }

  lemma {:induction false} EnumerationExists<T>(s: set<T>) returns (order: seq<T>)
    ensures Enumerates(order, s)
  {
    order := [];
    if x :| x in s {
      order := EnumerationExists(s - {x});
      order := order + [x];
    }
  }

  lemma Element<T>(s: set<T>) returns (x: T)
    requires s != {}
    ensures x in s
  {
    x :| x in s;
  }

  lemma {:induction false} LeastExists(s: set<int>) returns (least: int)
    requires s != {}
    ensures least in s && forall x :: x in s ==> least <= x
  {
    var some := Element(s);
    least := some;
    if s != {some} {
      var other := LeastExists(s - {some});
      least := if other < some then other else some;
      assert forall x :: x in s ==> x == some || x in s - {some};
    }
  }

  lemma WaitExists<T>(objects: map<T, Death>, readings: map<T, int>) returns (wait: Option<int>)
    requires objects.Keys <= readings.Keys
    ensures IsWait(objects, readings, wait)
  {
    var survivors := Survivors(objects, readings);
    var waits := set obj | obj in survivors && survivors[obj].At? :: survivors[obj].time - readings[obj];
    assert forall obj :: obj in survivors && survivors[obj].At? ==> survivors[obj].time - readings[obj] in waits;
    wait := None;
    if waits != {} {
      var least := LeastExists(waits);
      wait := Some(least);
    }
  }

  /** Only the time, the lack of a touch, or its cancellation holds up the monitor. */
  lemma MonitorIsEnabled<T(!new)>(s: State<T>)
    ensures (exists step :: Enabled(s, step) && IsMonitoring(step)) <==>
            match s.monitor
            case Sleeping(wakeTime, _) => s.now >= wakeTime
            case Waiting => s.touched
            case Stopped => false
            case _ => true
  {
    match s.monitor
    case AboutToScan =>
      var readings := map obj | obj in s.objects :: s.now;
      var wait := WaitExists(s.objects, readings);
      var deprecated := EnumerationExists(set x | x in s.objects && Overdue(s.objects, readings, x));
      assert Enabled(s, Scan(readings, s.now, wait, deprecated));
    case AboutToSleep(_, _) => assert Enabled(s, Sleep);
    case Sleeping(_, _) => assert s.now >= s.monitor.wakeTime ==> Enabled(s, WakeUp);
    case Waiting => assert s.touched ==> Enabled(s, WakeByTouch);
    case Stopped =>
  }

  // ---------- Found and lost ----------

  /** Whether the object was found and not lost since. */
  predicate Present<T(==)>(events: seq<Event<T>>, obj: T) {
    if events == [] then false
    else
      var e := events[|events| - 1];
      if e == Found(obj) then true else if e == Lost(obj) then false else Present(events[..|events| - 1], obj)
  }

  /** The object is found only when it is absent, and touched or lost only when it is present. */
  predicate Alternates<T(==)>(events: seq<Event<T>>, obj: T) {
    events == [] ||
    var prev, e := events[..|events| - 1], events[|events| - 1];
    && Alternates(prev, obj)
    && (e == Found(obj) ==> !Present(prev, obj))
    && (e == Lost(obj) || e == Touched(obj) ==> Present(prev, obj))
  }

  lemma AppendEvent<T>(events: seq<Event<T>>, e: Event<T>, obj: T)
    ensures var more := events + [e];
            && (Present(more, obj) <==> e == Found(obj) || (e != Lost(obj) && Present(events, obj)))
            && (Alternates(more, obj) <==> Alternates(events, obj) && (e == Found(obj) ==> !Present(events, obj))
                                           && (e == Lost(obj) || e == Touched(obj) ==> Present(events, obj)))
  {
    assert (events + [e])[..|events|] == events;
  }

  lemma {:induction false} AppendLost<T>(events: seq<Event<T>>, order: seq<T>, obj: T)
    requires Alternates(events, obj) && (obj in order ==> Present(events, obj))
    requires forall i, j :: 0 <= i < j < |order| ==> order[i] != order[j]
    ensures Alternates(events + LostEvents(order), obj)
    ensures Present(events + LostEvents(order), obj) <==> Present(events, obj) && obj !in order
  {
    if order == [] {
      assert events + LostEvents(order) == events;
    } else {
      var prev, last := order[..|order| - 1], order[|order| - 1];
      assert order == prev + [last];
      AppendLost(events, prev, obj);
      AppendEvent(events + LostEvents(prev), Lost(last), obj);
      assert events + LostEvents(order) == events + LostEvents(prev) + [Lost(last)];
    }
  }

  lemma AppendTouch<T>(events: seq<Event<T>>, objects: map<T, Death>, touched: T, obj: T)
    requires Alternates(events, obj) && (Present(events, obj) <==> obj in objects)
    ensures var more := events + TouchEvents(objects, touched);
            Alternates(more, obj) && (Present(more, obj) <==> obj in objects || obj == touched)
  {
    if touched in objects {
      AppendEvent(events, Touched(touched), obj);
      assert events + TouchEvents(objects, touched) == events + [Touched(touched)];
    } else {
      AppendEvent(events, Found(touched), obj);
      AppendEvent(events + [Found(touched)], Touched(touched), obj);
      assert events + TouchEvents(objects, touched) == events + [Found(touched)] + [Touched(touched)];
    }
  }

  /** Objects are made resilent or volatile only while they are in the list. */
  ghost predicate Disciplined<T>(timespan: nat, start: int, run: seq<Step<T>>)
    requires Legal(timespan, start, run)
  {
    run == [] ||
    var prev, step := run[..|run| - 1], run[|run| - 1];
    && Disciplined(timespan, start, prev)
    && (step.MakeResilent? || step.MakeVolatile? ==> step.obj in After(timespan, start, prev).objects)
  }

  /** Found and lost events alternate for every object, starting with found; the list holds exactly the objects found and not lost. */
  lemma {:induction false} FoundAndLostAlternate<T>(timespan: nat, start: int, run: seq<Step<T>>, obj: T)
    requires Legal(timespan, start, run) && Disciplined(timespan, start, run)
    ensures var s := After(timespan, start, run);
            Alternates(s.events, obj) && (Present(s.events, obj) <==> obj in s.objects)
  {
    if run != [] {
      var s, step := After(timespan, start, run[..|run| - 1]), run[|run| - 1];
      FoundAndLostAlternate(timespan, start, run[..|run| - 1], obj);
      match step
      case Touch(touched) => AppendTouch(s.events, s.objects, touched, obj);
      case Clear(order) => AppendLost(s.events, order, obj);
      case Scan(readings, _, _, deprecated) => AppendLost(s.events, deprecated, obj);
      case _ =>
    }
  }
}
