/**
  A pool that runs item handlers on a limited number of slots.  Acceptors wait
  for a slot, obtain an item and start a handler for it; when they wait too long
  they revoke the handler that was started first.
 */
module ProcessorPools {
  import opened Sequences
  import opened Wrappers

  /** A handler, identified by its cancellation source, with the time at which it was created. */
  datatype Thread = Thread(launched: int, source: nat)

  // ---------- The oldest handler ----------

  /** The outcome of aggregating the list: on equal times the later element wins. */
  function Oldest(threads: seq<Thread>): (oldest: Thread)
    requires threads != []
    ensures oldest in threads
  {
    if |threads| == 1 then
      threads[0]
    else
      var best, last := Oldest(threads[..|threads| - 1]), threads[|threads| - 1];
      if best.launched < last.launched then best else last
  }

  /** The oldest thread was launched no later than any other, and is the last one in the list launched at that time. */
  lemma {:induction false} OldestIsFirstLaunched(threads: seq<Thread>, i: nat)
    requires i < |threads|
    ensures Oldest(threads).launched <= threads[i].launched
    ensures Oldest(threads).launched == threads[i].launched ==> Oldest(threads) in threads[i..]
  {
    if |threads| > 1 {
      var prev := threads[..|threads| - 1];
      if i < |prev| {
        OldestIsFirstLaunched(prev, i);
        assert threads[i..] == prev[i..] + [threads[|threads| - 1]];
      }
    }
  }

  class ProcessorPool {
    var availableSlots: nat
    var runningThreads: seq<Thread>
    var cancelled: set<Thread>

    /** The semaphore refuses a maximum that is not positive. */
    static method Create(threadSlots: int) returns (pool: Option<ProcessorPool>)
      ensures pool.Some? <==> threadSlots > 0
      ensures pool.Some? ==>
                fresh(pool.value) && pool.value.availableSlots == threadSlots && pool.value.runningThreads == [] && pool.value.cancelled == {}
    {
      if threadSlots <= 0 {
        return None;
      }
      var created := new ProcessorPool(threadSlots);
      return Some(created);
    }

    constructor (threadSlots: nat)
      requires threadSlots > 0
      ensures availableSlots == threadSlots && runningThreads == [] && cancelled == {}
    {
      availableSlots, runningThreads, cancelled := threadSlots, [], {};
    }

    /** Cancels the oldest running thread and forgets it, without releasing its slot; false if there is none. */
    method KillOldestThread() returns (killed: bool)
      modifies `runningThreads, `cancelled
      ensures killed <==> old(runningThreads) != []
      ensures killed ==> var oldest := Oldest(old(runningThreads));
                         runningThreads == WithoutFirst(old(runningThreads), oldest) && cancelled == old(cancelled) + {oldest}
      ensures !killed ==> runningThreads == [] && cancelled == old(cancelled)
    {
      if runningThreads == [] {
        return false;
      }
      var oldest := runningThreads[0];
      for i := 1 to |runningThreads|
        invariant oldest == Oldest(runningThreads[..i])
      {
        assert runningThreads[..i + 1][..i] == runningThreads[..i];
        oldest := if oldest.launched < runningThreads[i].launched then oldest else runningThreads[i];
      }
      assert runningThreads[..|runningThreads|] == runningThreads;
      cancelled := cancelled + {oldest};
      runningThreads := WithoutFirst(runningThreads, oldest);
      return true;
    }

    method AddThread(thread: Thread)
      modifies `runningThreads
      ensures runningThreads == old(runningThreads) + [thread]
    {
      runningThreads := runningThreads + [thread];
    }

    /** The end of a handler: it is forgotten if it was not revoked, and its slot is released either way. */
    method EndThread(thread: Thread)
      modifies `runningThreads, `availableSlots
      ensures runningThreads == WithoutFirst(old(runningThreads), thread)
      ensures availableSlots == old(availableSlots) + 1
    {
      if thread in runningThreads {
        runningThreads := WithoutFirst(runningThreads, thread);
      } else {
        WithoutFirstAbsent(runningThreads, thread);
      }
      availableSlots := availableSlots + 1;
    }
  }

  // ---------- Interleavings ----------

  type AcceptorId = nat

  /**
    Checking: about to test for cancellation.  Waiting: for a slot.  Killing:
    about to revoke a handler.  Providing: holding a slot, about to obtain an
    item.  Starting: holding a slot for a thread that is not in the list yet.
   */
  datatype Acceptor = Checking | Waiting | Killing | Providing | Starting(thread: Thread)

  /**
    live: handlers that were started and have not released their slot, revoked
    or not.  dead: handlers that ended with an exception before they could
    release it.  failures: how often obtaining an item failed.  finished: the
    handlers that released their slot; releases: how many releases there were.
   */
  datatype State = State(
    free: nat, running: seq<Thread>, revoked: set<Thread>,
    acceptors: map<AcceptorId, Acceptor>, cancelRequested: set<AcceptorId>,
    live: set<Thread>, dead: set<Thread>, failures: nat, created: nat, finished: set<Thread>, releases: nat)

  datatype Step =
    | Start(id: AcceptorId)
    | Cancel(id: AcceptorId)
    | Check(id: AcceptorId)
    | GetSlot(id: AcceptorId)
    | AbortWait(id: AcceptorId)
    | TimeOut(id: AcceptorId)
    | Kill(id: AcceptorId)
    | Provide(id: AcceptorId, fails: bool, now: int)
    | Launch(id: AcceptorId)
    | End(thread: Thread)
    | Die(thread: Thread)

  function Initial(threadSlots: nat): State {
    State(threadSlots, [], {}, map[], {}, {}, {}, 0, 0, {}, 0)
  }

  predicate At(s: State, id: AcceptorId, phase: Acceptor) {
    id in s.acceptors && s.acceptors[id] == phase
  }

  /** Waiting prefers the cancellation, then a slot; it times out only while neither is there. */
  predicate Enabled(s: State, step: Step) {
    match step
    case Start(id) => id !in s.acceptors
    case Cancel(id) => true
    case Check(id) => At(s, id, Checking)
    case GetSlot(id) => At(s, id, Waiting) && s.free > 0 && id !in s.cancelRequested
    case AbortWait(id) => At(s, id, Waiting) && id in s.cancelRequested
    case TimeOut(id) => At(s, id, Waiting) && s.free == 0 && id !in s.cancelRequested
    case Kill(id) => At(s, id, Killing)
    case Provide(id, _, _) => At(s, id, Providing)
    case Launch(id) => id in s.acceptors && s.acceptors[id].Starting?
    case End(thread) => thread in s.live
    case Die(thread) => thread in s.live
  }

  function Move(s: State, id: AcceptorId, phase: Acceptor): State {
    s.(acceptors := s.acceptors[id := phase])
  }

  function Next(s: State, step: Step): State
    requires Enabled(s, step)
  {
    match step
    case Start(id) => Move(s, id, Checking)
    case Cancel(id) => s.(cancelRequested := s.cancelRequested + {id})
    case Check(id) => if id in s.cancelRequested then s.(acceptors := s.acceptors - {id}) else Move(s, id, Waiting)
    case GetSlot(id) => Move(s, id, Providing).(free := s.free - 1)
    case AbortWait(id) => s.(acceptors := s.acceptors - {id})
    case TimeOut(id) => Move(s, id, Killing)
    case Kill(id) =>
      if s.running == [] then
        s.(acceptors := s.acceptors - {id})
      else
        Move(s, id, Waiting).(running := WithoutFirst(s.running, Oldest(s.running)), revoked := s.revoked + {Oldest(s.running)})
    case Provide(id, fails, now) =>
      if fails then
        Move(s, id, Checking).(failures := s.failures + 1)
      else
        Move(s, id, Starting(Thread(now, s.created))).(created := s.created + 1)
    case Launch(id) =>
      var thread := s.acceptors[id].thread;
      Move(s, id, Checking).(running := s.running + [thread], live := s.live + {thread})
    case End(thread) =>
      s.(running := WithoutFirst(s.running, thread), free := s.free + 1, live := s.live - {thread}, finished := s.finished + {thread}, releases := s.releases + 1)
    case Die(thread) =>
      s.(live := s.live - {thread}, dead := s.dead + {thread})
  }

  predicate Legal(threadSlots: nat, run: seq<Step>)
    decreases |run|, 0
  {
    run == [] || (Legal(threadSlots, run[..|run| - 1]) && Enabled(After(threadSlots, run[..|run| - 1]), run[|run| - 1]))
  }

  function After(threadSlots: nat, run: seq<Step>): State
    requires Legal(threadSlots, run)
    decreases |run|, 1
  {
    if run == [] then Initial(threadSlots) else Next(After(threadSlots, run[..|run| - 1]), run[|run| - 1])
  }

  // ---------- The invariants ----------

  predicate HoldsSlot(phase: Acceptor) {
    phase.Providing? || phase.Starting?
  }

  /** The acceptors that hold a slot. */
  function Holders(acceptors: map<AcceptorId, Acceptor>): set<AcceptorId> {
    set id | id in acceptors && HoldsSlot(acceptors[id])
  }

  /** Every slot is free, held by an acceptor, held by a handler, or lost to an exception. */
  ghost predicate Conserved(threadSlots: nat, s: State) {
    s.free + |Holders(s.acceptors)| + |s.live| + |s.dead| + s.failures == threadSlots
  }

  /** The thread was created and is now neither live nor dead nor finished. */
  ghost predicate Unborn(s: State, t: Thread) {
    t.source < s.created && t !in s.live && t !in s.dead && t !in s.finished && t !in s.revoked
  }

  /** Each created thread is in one place: with its acceptor, live, dead, or finished. */
  ghost predicate Placed(s: State) {
    && (forall id :: id in s.acceptors && s.acceptors[id].Starting? ==> Unborn(s, s.acceptors[id].thread))
    && (forall a, b :: a in s.acceptors && b in s.acceptors && s.acceptors[a].Starting? && s.acceptors[a] == s.acceptors[b] ==> a == b)
    && Born(s)
  }

  ghost predicate Born(s: State) {
    && (forall t :: t in s.live ==> t.source < s.created && t !in s.dead && t !in s.finished)
    && (forall t :: t in s.dead ==> t.source < s.created && t !in s.finished)
    && (forall t :: t in s.finished ==> t.source < s.created)
    && (forall t :: t in s.revoked ==> t.source < s.created)
    && |s.finished| == s.releases
  }

  /** The list holds the live handlers that were not revoked, and perhaps dead ones. */
  ghost predicate Listed(s: State) {
    && Distinct(s.running)
    && (forall t :: t in s.running ==> (t in s.live || t in s.dead) && t !in s.revoked)
    && (forall t :: t in s.live && t !in s.running ==> t in s.revoked)
  }

  ghost predicate Inv(threadSlots: nat, s: State) {
    Conserved(threadSlots, s) && Placed(s) && Listed(s)
  }

  lemma HoldersAfter(acceptors: map<AcceptorId, Acceptor>, id: AcceptorId, phase: Acceptor)
    ensures Holders(acceptors[id := phase]) == if HoldsSlot(phase) then Holders(acceptors) + {id} else Holders(acceptors) - {id}
    ensures Holders(acceptors - {id}) == Holders(acceptors) - {id}
  {
  }

  lemma SlotMovesConserve(threadSlots: nat, s: State, step: Step)
    requires Conserved(threadSlots, s) && Enabled(s, step) && (step.GetSlot? || step.Provide?)
    ensures Conserved(threadSlots, Next(s, step))
  {
    var id, holders := step.id, Holders(s.acceptors);
    HoldersAfter(s.acceptors, id, Next(s, step).acceptors[id]);
    if step.GetSlot? {
      assert |holders + {id}| == |holders| + 1;
    } else if step.fails {
      assert |holders - {id}| == |holders| - 1;
    } else {
      assert holders + {id} == holders;
    }
  }

  lemma LaunchConserves(threadSlots: nat, s: State, id: AcceptorId)
    requires Conserved(threadSlots, s) && Enabled(s, Launch(id)) && Unborn(s, s.acceptors[id].thread)
    ensures Conserved(threadSlots, Next(s, Launch(id)))
  {
    HoldersAfter(s.acceptors, id, Checking);
    assert |Holders(s.acceptors) - {id}| == |Holders(s.acceptors)| - 1;
    assert |s.live + {s.acceptors[id].thread}| == |s.live| + 1;
  }

  /** Moves between phases that hold no slot. */
  lemma IdleMovesConserve(threadSlots: nat, s: State, step: Step)
    requires Conserved(threadSlots, s) && Enabled(s, step)
    requires step.Start? || step.Check? || step.AbortWait? || step.TimeOut? || step.Kill?
    ensures Conserved(threadSlots, Next(s, step))
  {
    var id, t := step.id, Next(s, step);
    assert t.free == s.free && t.live == s.live && t.dead == s.dead && t.failures == s.failures;
    if id in t.acceptors {
      IdleHolders(s.acceptors, id, t.acceptors[id]);
    } else {
      IdleHolders(s.acceptors, id, Checking);
    }
  }

  lemma IdleHolders(acceptors: map<AcceptorId, Acceptor>, id: AcceptorId, phase: Acceptor)
    requires !HoldsSlot(phase) && (id in acceptors ==> !HoldsSlot(acceptors[id]))
    ensures Holders(acceptors[id := phase]) == Holders(acceptors) == Holders(acceptors - {id})
  {
    HoldersAfter(acceptors, id, phase);
    assert id !in Holders(acceptors);
  }

  lemma HandlerConserves(threadSlots: nat, s: State, step: Step)
    requires Inv(threadSlots, s) && Enabled(s, step) && (step.End? || step.Die?)
    ensures Conserved(threadSlots, Next(s, step))
  {
    assert |s.live - {step.thread}| == |s.live| - 1;
    assert |s.dead + {step.thread}| == |s.dead| + 1;
  }

  lemma StepConserves(threadSlots: nat, s: State, step: Step)
    requires Inv(threadSlots, s) && Enabled(s, step)
    ensures Conserved(threadSlots, Next(s, step))
  {
    if step.End? || step.Die? {
      HandlerConserves(threadSlots, s, step);
    } else if step.GetSlot? || step.Provide? {
      SlotMovesConserve(threadSlots, s, step);
    } else if step.Launch? {
      assert Unborn(s, s.acceptors[step.id].thread);
      LaunchConserves(threadSlots, s, step.id);
    } else if !step.Cancel? {
      IdleMovesConserve(threadSlots, s, step);
    }
  }

  lemma UnbornStay(s: State, step: Step)
    requires Placed(s) && Listed(s) && Enabled(s, step)
    ensures var t := Next(s, step);
            forall id :: id in t.acceptors && t.acceptors[id].Starting? ==> Unborn(t, t.acceptors[id].thread)
  {
    var t := Next(s, step);
    forall id | id in t.acceptors && t.acceptors[id].Starting? ensures Unborn(t, t.acceptors[id].thread) {
      if id in s.acceptors && s.acceptors[id].Starting? {
        assert Unborn(s, s.acceptors[id].thread);
      }
    }
  }

  lemma StartingStayDistinct(s: State, step: Step, a: AcceptorId, b: AcceptorId)
    requires Placed(s) && Enabled(s, step)
    requires var t := Next(s, step);
             a in t.acceptors && b in t.acceptors && t.acceptors[a].Starting? && t.acceptors[a] == t.acceptors[b]
    ensures a == b
  {
    assert a in s.acceptors && s.acceptors[a].Starting? ==> Unborn(s, s.acceptors[a].thread);
    assert b in s.acceptors && s.acceptors[b].Starting? ==> Unborn(s, s.acceptors[b].thread);
  }

  lemma StepKeepsBorn(s: State, step: Step)
    requires Placed(s) && Listed(s) && Enabled(s, step)
    ensures Born(Next(s, step))
  {
    var t := Next(s, step);
    match step
    case Launch(id) => assert Unborn(s, s.acceptors[id].thread);
    case Kill(id) => assert s.running != [] ==> Oldest(s.running) in s.running;
    case End(thread) => assert |s.finished + {thread}| == |s.finished| + 1;
    case _ =>
  }

  lemma StepKeepsPlaced(s: State, step: Step)
    requires Placed(s) && Listed(s) && Enabled(s, step)
    ensures Placed(Next(s, step))
  {
    var t := Next(s, step);
    UnbornStay(s, step);
    StepKeepsBorn(s, step);
    forall a, b | a in t.acceptors && b in t.acceptors && t.acceptors[a].Starting? && t.acceptors[a] == t.acceptors[b]
      ensures a == b
    {
      StartingStayDistinct(s, step, a, b);
    }
  }

  lemma StepKeepsListed(threadSlots: nat, s: State, step: Step)
    requires Inv(threadSlots, s) && Enabled(s, step)
    ensures Listed(Next(s, step))
  {
    match step
    case Kill(id) =>
      if s.running != [] {
        WithoutFirstDistinct(s.running, Oldest(s.running));
      }
    case Launch(id) =>
      assert Unborn(s, s.acceptors[id].thread);
    case End(thread) =>
      WithoutFirstDistinct(s.running, thread);
    case _ =>
  }

  /** The invariant holds after every interleaving. */
  lemma {:induction false} AlwaysInv(threadSlots: nat, run: seq<Step>)
    requires Legal(threadSlots, run)
    ensures Inv(threadSlots, After(threadSlots, run))
  {
    if run != [] {
      var s, step := After(threadSlots, run[..|run| - 1]), run[|run| - 1];
      AlwaysInv(threadSlots, run[..|run| - 1]);
      StepConserves(threadSlots, s, step);
      StepKeepsPlaced(s, step);
      StepKeepsListed(threadSlots, s, step);
    }
  }

  // ---------- What callers rely on ----------

  /**
    Free slots, slots held by acceptors, handlers that still run (revoked or not)
    and slots lost to exceptions always add up to the number of slots; so no more
    handlers than that ever run at once.
   */
  lemma {:induction false} SlotsAreConserved(threadSlots: nat, run: seq<Step>)
    requires Legal(threadSlots, run)
    ensures var s := After(threadSlots, run);
            && s.free + |Holders(s.acceptors)| + |s.live| + |s.dead| + s.failures == threadSlots
            && |s.live| <= threadSlots && s.free <= threadSlots
  {
    AlwaysInv(threadSlots, run);
  }

  /** The times at which items were obtained, which identify the handlers by their positions. */
  function ObtainedAt(run: seq<Step>): seq<int> {
    if run == [] then []
    else match run[|run| - 1]
      case Provide(_, fails, now) => ObtainedAt(run[..|run| - 1]) + if fails then [] else [now]
      case _ => ObtainedAt(run[..|run| - 1])
  }

  /** The handler for the item that the acceptor obtained last. */
  function LastObtained(run: seq<Step>, id: AcceptorId): Option<Thread> {
    if run == [] then None
    else
      var prev, last := run[..|run| - 1], run[|run| - 1];
      if last.Provide? && last.id == id && !last.fails then Some(Thread(last.now, |ObtainedAt(prev)|)) else LastObtained(prev, id)
  }

  /** The handlers that were launched, in the order in which they were. */
  function Launched(run: seq<Step>): seq<Thread> {
    if run == [] then []
    else
      var prev, last := run[..|run| - 1], run[|run| - 1];
      match last
      case Launch(id) => Launched(prev) + (match LastObtained(prev, id) case None => [] case Some(thread) => [thread])
      case _ => Launched(prev)
  }

  function StaysListed(revoked: set<Thread>, finished: set<Thread>): Thread -> bool {
    thread => thread !in revoked && thread !in finished
  }

  lemma {:induction false} StartingLastObtained(threadSlots: nat, run: seq<Step>, id: AcceptorId)
    requires Legal(threadSlots, run)
    ensures var s := After(threadSlots, run);
            id in s.acceptors && s.acceptors[id].Starting? ==> LastObtained(run, id) == Some(s.acceptors[id].thread)
  {
    if run != [] {
      var s, step := After(threadSlots, run[..|run| - 1]), run[|run| - 1];
      StartingLastObtained(threadSlots, run[..|run| - 1], id);
      if step.Provide? && step.id == id {
        ObtainedSoFar(threadSlots, run[..|run| - 1]);
      } else if !IsOwn(step, id) && step != Start(id) {
        StaysPut(s, step, id);
      }
    }
  }

  /** The handlers in the list of those that were launched. */
  function Remaining(launched: seq<Thread>, s: State): seq<Thread> {
    Filter(launched, StaysListed(s.revoked, s.finished))
  }

  /** The step launches no handler: the list loses those that it revokes or that finish. */
  lemma RemainingAfter(s: State, step: Step, launched: seq<Thread>)
    requires Listed(s) && Enabled(s, step) && !step.Launch? && s.running == Remaining(launched, s)
    ensures Next(s, step).running == Remaining(launched, Next(s, step))
  {
    match step
    case Kill(id) =>
      if s.running != [] {
        var oldest := Oldest(s.running);
        FilterWithout(launched, StaysListed(s.revoked, s.finished), StaysListed(s.revoked + {oldest}, s.finished), oldest);
      }
    case End(thread) =>
      FilterWithout(launched, StaysListed(s.revoked, s.finished), StaysListed(s.revoked, s.finished + {thread}), thread);
    case _ =>
  }

  /** The list holds the handlers that were neither revoked nor have finished, in the order in which they were launched. */
  lemma {:induction false} ListedInLaunchOrder(threadSlots: nat, run: seq<Step>)
    requires Legal(threadSlots, run)
    ensures After(threadSlots, run).running == Remaining(Launched(run), After(threadSlots, run))
  {
    if run != [] {
      var prev, step := run[..|run| - 1], run[|run| - 1];
      var s := After(threadSlots, prev);
      ListedInLaunchOrder(threadSlots, prev);
      AlwaysInv(threadSlots, prev);
      if step.Launch? {
        StartingLastObtained(threadSlots, prev, step.id);
        assert Unborn(s, s.acceptors[step.id].thread);
        assert Launched(run) == Launched(prev) + [s.acceptors[step.id].thread];
      } else {
        RemainingAfter(s, step, Launched(prev));
      }
    }
  }

  lemma {:induction false} ObtainedSoFar(threadSlots: nat, run: seq<Step>)
    requires Legal(threadSlots, run)
    ensures |ObtainedAt(run)| == After(threadSlots, run).created
  {
    if run != [] {
      ObtainedSoFar(threadSlots, run[..|run| - 1]);
    }
  }

  ghost predicate Known(s: State, thread: Thread) {
    thread in s.running || thread in s.live || thread in s.dead || thread in s.finished
    || exists id :: id in s.acceptors && s.acceptors[id] == Starting(thread)
  }

  /** Every handler carries the time at which its item was obtained. */
  lemma {:induction false} LaunchedWhenObtained(threadSlots: nat, run: seq<Step>, thread: Thread)
    requires Legal(threadSlots, run)
    ensures |ObtainedAt(run)| == After(threadSlots, run).created
    ensures Known(After(threadSlots, run), thread) ==> thread.source < |ObtainedAt(run)| && thread.launched == ObtainedAt(run)[thread.source]
  {
    if run != [] {
      var s, step := After(threadSlots, run[..|run| - 1]), run[|run| - 1];
      LaunchedWhenObtained(threadSlots, run[..|run| - 1], thread);
      if Known(Next(s, step), thread) && !Known(s, thread) {
        NewlyKnown(s, step, thread);
      }
    }
  }

  lemma NewlyKnown(s: State, step: Step, thread: Thread)
    requires Enabled(s, step) && Known(Next(s, step), thread) && !Known(s, thread)
    ensures step.Provide? && !step.fails && thread == Thread(step.now, s.created)
  {
    match step
    case Kill(id) =>
      if s.running != [] {
        WithoutFirstMembers(s.running, Oldest(s.running), thread);
      }
    case End(other) => WithoutFirstMembers(s.running, other, thread);
    case _ =>
  }

  /** A handler releases its slot once, revoked or not, and the semaphore is not full when it does. */
  lemma {:induction false} ReleasedOnce(threadSlots: nat, run: seq<Step>, thread: Thread)
    requires Legal(threadSlots, run)
    ensures After(threadSlots, run).releases == |After(threadSlots, run).finished|
    ensures Enabled(After(threadSlots, run), End(thread)) <==> thread in After(threadSlots, run).live
    ensures Enabled(After(threadSlots, run), End(thread)) ==>
              && thread !in After(threadSlots, run).finished
              && After(threadSlots, run).free < threadSlots
  {
    AlwaysInv(threadSlots, run);
    var s := After(threadSlots, run);
    if thread in s.live {
      assert |s.live - {thread}| == |s.live| - 1;
    }
  }

  predicate IsOwn(step: Step, id: AcceptorId) {
    !step.Start? && !step.Cancel? && !step.End? && !step.Die? && step.id == id
  }

  /** Whatever an acceptor is doing, it can go on: an acceptor that waits finds a slot, its cancellation, or that time is up. */
  lemma AcceptorIsEnabled(s: State, id: AcceptorId)
    requires id in s.acceptors
    ensures exists step :: Enabled(s, step) && IsOwn(step, id)
  {
    match s.acceptors[id]
    case Checking => assert Enabled(s, Check(id));
    case Waiting =>
      assert Enabled(s, if id in s.cancelRequested then AbortWait(id) else if s.free > 0 then GetSlot(id) else TimeOut(id));
    case Killing => assert Enabled(s, Kill(id));
    case Providing => assert Enabled(s, Provide(id, true, 0));
    case Starting(_) => assert Enabled(s, Launch(id));
  }

  /** How often the acceptor tried to obtain an item with that outcome. */
  function Provided(run: seq<Step>, id: AcceptorId, fails: bool): nat {
    if run == [] then 0
    else
      var last := run[|run| - 1];
      Provided(run[..|run| - 1], id, fails) + if last.Provide? && last.id == id && last.fails == fails then 1 else 0
  }

  function One(b: bool): nat {
    if b then 1 else 0
  }

  /**
    What an acceptor has done so often, up to what it is doing now: each round begins
    with one look for a cancellation; each time-out is followed by one attempt to revoke a
    handler; each slot leads to one handler or one failure.
   */
  lemma {:induction false} AcceptorRounds(threadSlots: nat, run: seq<Step>, id: AcceptorId)
    requires Legal(threadSlots, run)
    ensures var s, count := After(threadSlots, run), multiset(run);
            && count[Start(id)] + count[Launch(id)] + Provided(run, id, true) == count[Check(id)] + One(At(s, id, Checking))
            && count[TimeOut(id)] == count[Kill(id)] + One(At(s, id, Killing))
            && count[GetSlot(id)] == count[Launch(id)] + Provided(run, id, true) + One(id in s.acceptors && HoldsSlot(s.acceptors[id]))
            && Provided(run, id, false) == count[Launch(id)] + One(id in s.acceptors && s.acceptors[id].Starting?)
  {
    if run != [] {
      var prev, last := run[..|run| - 1], run[|run| - 1];
      assert run == prev + [last];
      AcceptorRounds(threadSlots, prev, id);
      if !IsOwn(last, id) && last != Start(id) {
        StaysPut(After(threadSlots, prev), last, id);
      }
    }
  }

  lemma StaysPut(s: State, step: Step, id: AcceptorId)
    requires Enabled(s, step) && !IsOwn(step, id) && step != Start(id)
    ensures id in Next(s, step).acceptors <==> id in s.acceptors
    ensures id in s.acceptors ==> Next(s, step).acceptors[id] == s.acceptors[id]
  {
  }

  /** How many steps an acceptor needs until it has launched its next handler, if it finds a slot. */
  function StepsToLaunch(phase: Acceptor): nat {
    match phase
    case Starting(_) => 1
    case Providing => 2
    case Waiting => 3
    case Checking => 4
    case Killing => 4
  }

  /** The acceptor has launched a handler, or it will within so many of its steps. */
  ghost predicate LaunchesWithin(s: State, id: AcceptorId, n: int, launched: bool) {
    launched ||
    (id in s.acceptors && id !in s.cancelRequested && s.acceptors[id] != Killing && StepsToLaunch(s.acceptors[id]) <= n)
  }

  /** The acceptor is cancelled, does not find a slot in time, or fails to obtain an item. */
  predicate Disturbs(step: Step, id: AcceptorId) {
    step == Cancel(id) || step == TimeOut(id) || (step.Provide? && step.id == id && step.fails)
  }

  function OwnSteps(run: seq<Step>, id: AcceptorId): nat {
    if run == [] then 0 else OwnSteps(run[..|run| - 1], id) + if IsOwn(run[|run| - 1], id) then 1 else 0
  }

  lemma StepApproachesLaunch(s: State, step: Step, id: AcceptorId, n: int, launched: bool)
    requires Enabled(s, step) && LaunchesWithin(s, id, n, launched) && !Disturbs(step, id)
    ensures LaunchesWithin(Next(s, step), id, if IsOwn(step, id) then n - 1 else n, launched || step == Launch(id))
  {
    if IsOwn(step, id) {
      assert Next(s, step).cancelRequested == s.cancelRequested;
    } else if id in s.acceptors {
      StaysPut(s, step, id);
    }
  }

  lemma {:induction false} LaunchApproaches(threadSlots: nat, before: seq<Step>, rest: seq<Step>, id: AcceptorId, n: int)
    requires Legal(threadSlots, before) && Legal(threadSlots, before + rest)
    requires LaunchesWithin(After(threadSlots, before), id, n, false)
    requires forall step :: step in rest ==> !Disturbs(step, id)
    ensures LaunchesWithin(After(threadSlots, before + rest), id, n - OwnSteps(rest, id), Launch(id) in rest)
    decreases |rest|
  {
    if rest == [] {
      assert before + rest == before;
    } else {
      var prev, last := rest[..|rest| - 1], rest[|rest| - 1];
      assert (before + rest)[..|before + rest| - 1] == before + prev;
      assert rest == prev + [last];
      LaunchApproaches(threadSlots, before, prev, id, n);
      StepApproachesLaunch(After(threadSlots, before + prev), last, id, n - OwnSteps(prev, id), Launch(id) in prev);
    }
  }

  /**
    An acceptor goes on to its next item, also after it launched a handler or failed to
    obtain an item: unless it is cancelled, waits too long or fails, one of any four steps
    that it takes launches a handler.
   */
  lemma {:induction false} AcceptorGoesOn(threadSlots: nat, before: seq<Step>, rest: seq<Step>, id: AcceptorId)
    requires Legal(threadSlots, before) && Legal(threadSlots, before + rest)
    requires var s := After(threadSlots, before); id in s.acceptors && s.acceptors[id] != Killing
    requires Cancel(id) !in before
    requires forall step :: step in rest ==> !Disturbs(step, id)
    ensures OwnSteps(rest, id) >= 4 ==> Launch(id) in rest
  {
    CancelledExactly(threadSlots, before, id);
    LaunchApproaches(threadSlots, before, rest, id, 4);
  }

  /** How many steps a cancelled acceptor needs until it is gone. */
  function StepsToEnd(phase: Acceptor): nat {
    match phase
    case Checking => 1
    case Waiting => 1
    case Killing => 2
    case Starting(_) => 2
    case Providing => 3
  }

  ghost predicate EndsWithin(s: State, id: AcceptorId, n: int) {
    id in s.cancelRequested && (id in s.acceptors ==> StepsToEnd(s.acceptors[id]) <= n)
  }

  lemma StepApproachesEnd(s: State, step: Step, id: AcceptorId, n: int)
    requires Enabled(s, step) && EndsWithin(s, id, n) && step != Start(id)
    ensures EndsWithin(Next(s, step), id, if IsOwn(step, id) then n - 1 else n)
  {
    if !IsOwn(step, id) {
      assert id in Next(s, step).acceptors ==> id in s.acceptors && Next(s, step).acceptors[id] == s.acceptors[id];
    }
  }

  lemma {:induction false} EndApproaches(threadSlots: nat, before: seq<Step>, rest: seq<Step>, id: AcceptorId, n: int)
    requires Legal(threadSlots, before) && Legal(threadSlots, before + rest)
    requires EndsWithin(After(threadSlots, before), id, n) && Start(id) !in rest
    ensures EndsWithin(After(threadSlots, before + rest), id, n - OwnSteps(rest, id))
    decreases |rest|
  {
    if rest == [] {
      assert before + rest == before;
    } else {
      var prev, last := rest[..|rest| - 1], rest[|rest| - 1];
      assert (before + rest)[..|before + rest| - 1] == before + prev;
      assert rest == prev + [last];
      EndApproaches(threadSlots, before, prev, id, n);
      StepApproachesEnd(After(threadSlots, before + prev), last, id, n - OwnSteps(prev, id));
    }
  }

  /** A cancellation is requested exactly by cancelling. */
  lemma {:induction false} CancelledExactly(threadSlots: nat, run: seq<Step>, id: AcceptorId)
    requires Legal(threadSlots, run)
    ensures id in After(threadSlots, run).cancelRequested <==> Cancel(id) in run
  {
    if run != [] {
      var prev, last := run[..|run| - 1], run[|run| - 1];
      CancelledExactly(threadSlots, prev, id);
      CancelledByStep(After(threadSlots, prev), last, id);
      assert run == prev + [last];
    }
  }

  lemma CancelledByStep(s: State, step: Step, id: AcceptorId)
    requires Enabled(s, step)
    ensures id in Next(s, step).cancelRequested <==> id in s.cancelRequested || step == Cancel(id)
  {
  }

  /** A cancelled acceptor ends after three of its steps at most; if it holds a slot, it first hands that on to a handler, or loses it. */
  lemma {:induction false} CancelledAcceptorEnds(threadSlots: nat, before: seq<Step>, rest: seq<Step>, id: AcceptorId)
    requires Legal(threadSlots, before) && Legal(threadSlots, before + rest)
    requires Cancel(id) in before && Start(id) !in rest
    ensures OwnSteps(rest, id) >= 3 ==> id !in After(threadSlots, before + rest).acceptors
  {
    CancelledExactly(threadSlots, before, id);
    EndApproaches(threadSlots, before, rest, id, 3);
  }

  /** An acceptor ends only if it was cancelled, or found no handler to revoke when it had waited too long. */
  lemma AcceptorEndsOnlyThen(s: State, step: Step, id: AcceptorId)
    requires Enabled(s, step) && id in s.acceptors && id !in Next(s, step).acceptors
    ensures id in s.cancelRequested || (s.acceptors[id] == Killing && s.running == [])
    ensures IsOwn(step, id)
  {
  }

  /**
    An acceptor that times out revokes a handler that was not revoked before and
    was launched no later than any other such handler that still runs.  The revoked
    one may be dead itself, and then its slot does not come back.  When it finds
    none, every handler that still runs was revoked already.
   */
  lemma {:induction false} KillRevokesTheOldest(threadSlots: nat, run: seq<Step>, id: AcceptorId)
    requires Legal(threadSlots, run) && Enabled(After(threadSlots, run), Kill(id))
    ensures var s, t := After(threadSlots, run), Next(After(threadSlots, run), Kill(id));
            if s.running == [] then
              && (forall thread :: thread in s.live ==> thread in s.revoked)
              && id !in t.acceptors
            else
              && t.revoked == s.revoked + {Oldest(s.running)} && Oldest(s.running) !in s.revoked
              && (forall thread :: thread in s.live && thread !in s.revoked ==> Oldest(s.running).launched <= thread.launched)
              && (Oldest(s.running) in s.live <==> Oldest(s.running) !in s.dead)
              && t.live == s.live && t.free == s.free
              && At(t, id, Waiting)
  {
    AlwaysInv(threadSlots, run);
    var s := After(threadSlots, run);
    if s.running != [] {
      forall thread | thread in s.live && thread !in s.revoked ensures Oldest(s.running).launched <= thread.launched {
        var i :| 0 <= i < |s.running| && s.running[i] == thread;
        OldestIsFirstLaunched(s.running, i);
      }
    }
  }
}
