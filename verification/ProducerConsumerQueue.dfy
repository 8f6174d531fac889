/**
  The bounded queue that two semaphores guard: freeSlots counts what producers
  may still take, usedSlots what consumers may.  Each wait, each release and
  each section under the queue's mutex is one step; any number of producers,
  consumers and terminating calls are interleaved.
 */
module ProducerConsumerQueues {
  import opened Wrappers

  type CallId = nat

  /**
    producers: calls of Enqueue that hold a free slot and have yet to enqueue
    their item.  enqueuers: calls that enqueued it and have yet to release a used
    slot.  consumers: calls of Dequeue that hold a used slot and have yet to
    dequeue.  dequeuers: calls that dequeued and have yet to release a free slot.
    entered and left record all items that went in and came out, in order.
   */
  datatype State<T> = State(
    free: nat, used: nat, queue: seq<T>, finished: bool,
    producers: map<CallId, T>, enqueuers: set<CallId>, consumers: set<CallId>, dequeuers: set<CallId>,
    entered: seq<T>, left: seq<T>)

  datatype Step<T> =
    | WaitFree(id: CallId, item: T)
    | PutItem(id: CallId)
    | ReleaseUsed(id: CallId)
    | WaitUsed(id: CallId)
    | ReturnDefault(id: CallId)
    | TakeItem(id: CallId)
    | ReleaseFree(id: CallId)
    | Terminate

  function Initial<T>(capacity: nat): State<T> {
    State(capacity, 0, [], false, map[], {}, {}, {}, [], [])
  }

  predicate Busy<T(==)>(s: State<T>, id: CallId) {
    id in s.producers || id in s.enqueuers || id in s.consumers || id in s.dequeuers
  }

  /** WaitAny prefers the used slot: the end of production is reported only when there is none. */
  predicate Enabled<T(==)>(s: State<T>, step: Step<T>) {
    match step
    case WaitFree(id, _) => s.free > 0 && !Busy(s, id)
    case PutItem(id) => id in s.producers
    case ReleaseUsed(id) => id in s.enqueuers
    case WaitUsed(id) => s.used > 0 && !Busy(s, id)
    case ReturnDefault(id) => s.used == 0 && s.finished && !Busy(s, id)
    case TakeItem(id) => id in s.consumers
    case ReleaseFree(id) => id in s.dequeuers
    case Terminate => true
  }

  /** The item a consumer gets: the queue's own Dequeue yields the default value (None) when it is empty. */
  function Head<T>(queue: seq<T>): Option<T> {
    if queue == [] then None else Some(queue[0])
  }

  function Next<T(==)>(s: State<T>, step: Step<T>): State<T>
    requires Enabled(s, step)
  {
    match step
    case WaitFree(id, item) => s.(free := s.free - 1, producers := s.producers[id := item])
    case PutItem(id) =>
      s.(queue := s.queue + [s.producers[id]], entered := s.entered + [s.producers[id]],
         producers := s.producers - {id}, enqueuers := s.enqueuers + {id})
    case ReleaseUsed(id) => s.(used := s.used + 1, enqueuers := s.enqueuers - {id})
    case WaitUsed(id) => s.(used := s.used - 1, consumers := s.consumers + {id})
    case ReturnDefault(id) => s
    case TakeItem(id) =>
      var t := s.(consumers := s.consumers - {id}, dequeuers := s.dequeuers + {id});
      if s.queue == [] then t else t.(queue := s.queue[1..], left := s.left + [s.queue[0]])
    case ReleaseFree(id) => s.(free := s.free + 1, dequeuers := s.dequeuers - {id})
    case Terminate => s.(finished := true)
  }

  predicate Legal<T(==)>(capacity: nat, run: seq<Step<T>>)
    decreases |run|, 0
  {
    run == [] || (Legal(capacity, run[..|run| - 1]) && Enabled(After(capacity, run[..|run| - 1]), run[|run| - 1]))
  }

  function After<T(==)>(capacity: nat, run: seq<Step<T>>): State<T>
    requires Legal(capacity, run)
    decreases |run|, 1
  {
    if run == [] then Initial(capacity) else Next(After(capacity, run[..|run| - 1]), run[|run| - 1])
  }

  // ---------- The invariant ----------

  /** A call is in one phase at a time. */
  ghost predicate OnePhase<T>(s: State<T>) {
    && (forall id :: id in s.enqueuers ==> id !in s.producers)
    && (forall id :: id in s.dequeuers ==> id !in s.consumers)
  }

  /**
    Every slot is free, held by a call, or filled by an item; every item is
    announced by a used slot, claimed by a consumer, or about to be announced.
   */
  ghost predicate Inv<T>(capacity: nat, s: State<T>) {
    && s.free + |s.producers| + |s.queue| + |s.dequeuers| == capacity
    && s.used + |s.consumers| + |s.enqueuers| == |s.queue|
    && s.entered == s.left + s.queue
    && OnePhase(s)
  }

  lemma RemoveKey<T>(m: map<CallId, T>, id: CallId)
    requires id in m
    ensures |m - {id}| == |m| - 1 && (m - {id}).Keys == m.Keys - {id}
  {
    assert (m - {id}).Keys == m.Keys - {id};
    assert |(m - {id}).Keys| == |m - {id}| && |m.Keys| == |m|;
  }

  lemma ProducerKeepsInv<T>(capacity: nat, s: State<T>, step: Step<T>)
    requires Inv(capacity, s) && Enabled(s, step) && (step.WaitFree? || step.PutItem?)
    ensures Inv(capacity, Next(s, step))
  {
    var t := Next(s, step);
    if step.WaitFree? {
      assert |t.producers| == |s.producers| + 1;
    } else {
      var item := s.producers[step.id];
      RemoveKey(s.producers, step.id);
      assert |t.enqueuers| == |s.enqueuers| + 1;
      assert s.left + (s.queue + [item]) == (s.left + s.queue) + [item];
    }
  }

  lemma WaitUsedKeepsInv<T>(capacity: nat, s: State<T>, id: CallId)
    requires Inv(capacity, s) && Enabled(s, WaitUsed(id))
    ensures Inv(capacity, Next(s, WaitUsed(id)))
  {
    assert |s.consumers + {id}| == |s.consumers| + 1;
  }

  lemma MoveHead<T>(left: seq<T>, queue: seq<T>)
    requires queue != []
    ensures left + queue == left + [queue[0]] + queue[1..]
  {
  }

  lemma TakeItemKeepsInv<T>(capacity: nat, s: State<T>, id: CallId)
    requires Inv(capacity, s) && Enabled(s, TakeItem(id))
    ensures s.queue != [] && Inv(capacity, Next(s, TakeItem(id)))
  {
    assert |s.consumers - {id}| == |s.consumers| - 1;
    assert |s.dequeuers + {id}| == |s.dequeuers| + 1;
    assert s.queue != [];
    MoveHead(s.left, s.queue);
    var t := Next(s, TakeItem(id));
    assert t.entered == t.left + t.queue;
  }

  lemma ReleaseKeepsInv<T>(capacity: nat, s: State<T>, step: Step<T>)
    requires Inv(capacity, s) && Enabled(s, step) && (step.ReleaseUsed? || step.ReleaseFree? || step.ReturnDefault? || step.Terminate?)
    ensures Inv(capacity, Next(s, step))
  {
    var t := Next(s, step);
    if step.ReleaseUsed? {
      assert |t.enqueuers| == |s.enqueuers| - 1;
    } else if step.ReleaseFree? {
      assert |t.dequeuers| == |s.dequeuers| - 1;
    }
  }

  /** The invariant holds after every interleaving. */
  lemma {:induction false} AlwaysInv<T>(capacity: nat, run: seq<Step<T>>)
    requires Legal(capacity, run)
    ensures Inv(capacity, After(capacity, run))
  {
    if run != [] {
      var s, step := After(capacity, run[..|run| - 1]), run[|run| - 1];
      AlwaysInv(capacity, run[..|run| - 1]);
      if step.WaitFree? || step.PutItem? {
        ProducerKeepsInv(capacity, s, step);
      } else if step.WaitUsed? {
        WaitUsedKeepsInv(capacity, s, step.id);
      } else if step.TakeItem? {
        TakeItemKeepsInv(capacity, s, step.id);
      } else {
        ReleaseKeepsInv(capacity, s, step);
      }
    }
  }

  // ---------- What callers rely on ----------

  /** Never more items than the capacity, and items come out in the order in which they went in. */
  lemma {:induction false} BoundedAndInOrder<T>(capacity: nat, run: seq<Step<T>>)
    requires Legal(capacity, run)
    ensures |After(capacity, run).queue| <= capacity
    ensures After(capacity, run).left + After(capacity, run).queue == After(capacity, run).entered
  {
    AlwaysInv(capacity, run);
  }

  /** No release exceeds the maximum of its semaphore. */
  lemma {:induction false} NeverOverReleased<T>(capacity: nat, run: seq<Step<T>>, step: Step<T>)
    requires Legal(capacity, run) && Enabled(After(capacity, run), step)
    ensures step.ReleaseFree? ==> After(capacity, run).free < capacity
    ensures step.ReleaseUsed? ==> After(capacity, run).used < capacity
  {
    AlwaysInv(capacity, run);
    var s := After(capacity, run);
    if step.ReleaseFree? {
      assert |s.dequeuers - {step.id}| == |s.dequeuers| - 1;
    } else if step.ReleaseUsed? {
      assert |s.enqueuers - {step.id}| == |s.enqueuers| - 1;
    }
  }

  /** A consumer that holds a used slot finds an item, namely the oldest that was not taken yet. */
  lemma {:induction false} ConsumerFindsItem<T>(capacity: nat, run: seq<Step<T>>, id: CallId)
    requires Legal(capacity, run) && Enabled(After(capacity, run), TakeItem(id))
    ensures var s := After(capacity, run);
            |s.left| < |s.entered| && Head(s.queue) == Some(s.entered[|s.left|])
  {
    AlwaysInv(capacity, run);
    var s := After(capacity, run);
    assert |s.consumers - {id}| == |s.consumers| - 1;
  }

  /**
    When the end of production is reported, no used slot is available: the items
    that no consumer has claimed are exactly those whose Enqueue has not returned.
   */
  lemma {:induction false} EndOfProduction<T>(capacity: nat, run: seq<Step<T>>, id: CallId)
    requires Legal(capacity, run) && Enabled(After(capacity, run), ReturnDefault(id))
    ensures var s := After(capacity, run);
            s.finished && s.used == 0 && |s.queue| - |s.consumers| == |s.enqueuers|
  {
    AlwaysInv(capacity, run);
  }

  /** While no call is under way, a producer can proceed unless the queue is full, and a consumer unless it is empty. */
  lemma {:induction false} NobodyBlockedInVain<T>(capacity: nat, run: seq<Step<T>>, id: CallId, item: T)
    requires Legal(capacity, run)
    requires forall other :: !Busy(After(capacity, run), other)
    ensures var s := After(capacity, run);
            && (Enabled(s, WaitFree(id, item)) <==> |s.queue| < capacity)
            && (Enabled(s, WaitUsed(id)) <==> |s.queue| > 0)
  {
    AlwaysInv(capacity, run);
    var s := After(capacity, run);
    assert forall other :: other in s.producers ==> Busy(s, other);
    assert forall other :: other in s.enqueuers ==> Busy(s, other);
    assert forall other :: other in s.consumers ==> Busy(s, other);
    assert forall other :: other in s.dequeuers ==> Busy(s, other);
    assert s.producers == map[] && s.enqueuers == {} && s.consumers == {} && s.dequeuers == {};
  }

  predicate IsOf<T(==)>(step: Step<T>, id: CallId) {
    !step.Terminate? && step.id == id
  }

  /** How many steps a call under way has yet to take. */
  function StepsLeft<T>(s: State<T>, id: CallId): nat {
    (if id in s.producers then 2 else 0) + (if id in s.enqueuers then 1 else 0)
    + (if id in s.consumers then 2 else 0) + if id in s.dequeuers then 1 else 0
  }

  /** A call that has got its slot is not blocked again: it can go on, and is over after its two steps, whatever the others do. */
  lemma {:induction false} CallGoesOn<T(!new)>(capacity: nat, run: seq<Step<T>>, id: CallId, step: Step<T>)
    requires Legal(capacity, run) && Busy(After(capacity, run), id)
    ensures exists own :: Enabled(After(capacity, run), own) && IsOf(own, id)
    ensures var s := After(capacity, run);
            && StepsLeft(s, id) > 0
            && (Enabled(s, step) ==> StepsLeft(Next(s, step), id) == if IsOf(step, id) then StepsLeft(s, id) - 1 else StepsLeft(s, id))
    ensures Enabled(After(capacity, run), step) ==> (Busy(Next(After(capacity, run), step), id) <==> StepsLeft(Next(After(capacity, run), step), id) > 0)
  {
    AlwaysInv(capacity, run);
    var s := After(capacity, run);
    var own: Step<T> :=
      if id in s.producers then PutItem(id) else if id in s.enqueuers then ReleaseUsed(id)
      else if id in s.consumers then TakeItem(id) else ReleaseFree(id);
    assert Enabled(s, own) && IsOf(own, id);
  }

  /** Once production was terminated no consumer blocks any more; before, it blocks exactly without a used slot. */
  lemma {:induction false} TerminationFreesConsumers<T>(capacity: nat, run: seq<Step<T>>, id: CallId)
    requires Legal(capacity, run) && !Busy(After(capacity, run), id)
    ensures var s := After(capacity, run);
            Enabled(s, WaitUsed(id)) || Enabled(s, ReturnDefault(id)) <==> s.used > 0 || Step.Terminate in run
  {
    FinishedIfTerminated(capacity, run);
  }

  lemma {:induction false} FinishedIfTerminated<T>(capacity: nat, run: seq<Step<T>>)
    requires Legal(capacity, run)
    ensures After(capacity, run).finished <==> Step.Terminate in run
  {
    if run != [] {
      var prev, last := run[..|run| - 1], run[|run| - 1];
      FinishedIfTerminated(capacity, prev);
      assert run == prev + [last];
    }
  }

  /** The item that the call brought when it last waited for a free slot. */
  function Brought<T>(run: seq<Step<T>>, id: CallId): Option<T> {
    if run == [] then None
    else match run[|run| - 1]
      case WaitFree(other, item) => if other == id then Some(item) else Brought(run[..|run| - 1], id)
      case _ => Brought(run[..|run| - 1], id)
  }

  /** The items of the calls that have put theirs, in the order in which they did. */
  function AllPut<T>(run: seq<Step<T>>): seq<Option<T>> {
    if run == [] then []
    else match run[|run| - 1]
      case PutItem(id) => AllPut(run[..|run| - 1]) + [Brought(run[..|run| - 1], id)]
      case _ => AllPut(run[..|run| - 1])
  }

  function AllTaken<T>(run: seq<Step<T>>): nat {
    if run == [] then 0 else AllTaken(run[..|run| - 1]) + if run[|run| - 1].TakeItem? then 1 else 0
  }

  /** Every call puts the item that it brought, every consumer takes one, and nothing else goes in or comes out. */
  lemma {:induction false} ItemsOfCalls<T>(capacity: nat, run: seq<Step<T>>)
    requires Legal(capacity, run)
    ensures var s := After(capacity, run);
            && (forall id :: id in s.producers ==> Brought(run, id) == Some(s.producers[id]))
            && AllPut(run) == seq(|s.entered|, i requires 0 <= i < |s.entered| => Some(s.entered[i]))
            && AllTaken(run) == |s.left|
  {
    if run != [] {
      ItemsOfCalls(capacity, run[..|run| - 1]);
      if run[|run| - 1].TakeItem? {
        ConsumerFindsItem(capacity, run[..|run| - 1], run[|run| - 1].id);
      }
    }
  }

  // ---------- Calls that are not interrupted ----------

  class ProducerConsumerQueue<T(==)> {
    var freeSlots: nat
    var usedSlots: nat
    var productionFinished: bool
    var items: seq<T>
    ghost var entered: seq<T>
    ghost var left: seq<T>

    /** The state of the queue between calls. */
    ghost function View(): State<T>
      reads this
    {
      State(freeSlots, usedSlots, items, productionFinished, map[], {}, {}, {}, entered, left)
    }

    /** The semaphores refuse a maximum that is not positive. */
    static method Create(capacity: int) returns (queue: Option<ProducerConsumerQueue<T>>)
      ensures queue.Some? <==> capacity > 0
      ensures queue.Some? ==> fresh(queue.value) && queue.value.View() == Initial(capacity)
    {
      if capacity <= 0 {
        return None;
      }
      var created := new ProducerConsumerQueue<T>(capacity);
      return Some(created);
    }

    constructor (capacity: nat)
      requires capacity > 0
      ensures View() == Initial(capacity)
    {
      freeSlots, usedSlots, productionFinished, items, entered, left := capacity, 0, false, [], [], [];
    }

    /** Appends the item if there is a free slot; otherwise the call blocks and has no effect yet. */
    method Enqueue(item: T, ghost id: CallId) returns (blocked: bool)
      modifies this
      ensures blocked <==> !Enabled(old(View()), WaitFree(id, item))
      ensures View() == if blocked then old(View())
                        else Next(Next(Next(old(View()), WaitFree(id, item)), PutItem(id)), ReleaseUsed(id))
    {
      if freeSlots == 0 {
        return true;
      }
      ghost var s := Next(View(), WaitFree(id, item));
      freeSlots := freeSlots - 1;
      items := items + [item];
      entered := entered + [item];
      usedSlots := usedSlots + 1;
      assert s.producers - {id} == map[];
      return false;
    }

    /** Takes an item if there is a used slot, reports the end of production, or blocks. */
    method Dequeue(ghost id: CallId) returns (blocked: bool, item: Option<T>)
      modifies this
      ensures blocked <==> !Enabled(old(View()), WaitUsed(id)) && !Enabled(old(View()), ReturnDefault(id))
      ensures item == if Enabled(old(View()), WaitUsed(id)) then Head(old(items)) else None
      ensures View() == if !Enabled(old(View()), WaitUsed(id)) then old(View())
                        else Next(Next(Next(old(View()), WaitUsed(id)), TakeItem(id)), ReleaseFree(id))
    {
      if usedSlots == 0 {
        return !productionFinished, None;
      }
      usedSlots := usedSlots - 1;
      item := Head(items);
      if items != [] {
        left := left + [items[0]];
        items := items[1..];
      }
      freeSlots := freeSlots + 1;
      return false, item;
    }

    method Terminate()
      modifies this
      ensures View() == Next(old(View()), Step.Terminate)
    {
      productionFinished := true;
    }
  }
}
