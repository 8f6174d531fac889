/**
  An action that may be triggered from anywhere but never runs twice at once.
  The class holds the two fields that are guarded by the lock; the state
  machine interleaves any number of triggers with the steps of the workers
  that they launch.
 */
module SlowActions {
  import opened Wrappers

  type Handle = nat
  type WorkerId = nat

  // ---------- The two sections that hold the lock ----------

  /** The guarded fields, and how many handles were created so far. */
  datatype Fields = Fields(next: Option<Handle>, current: Option<Handle>, created: nat)

  datatype Decision = Decision(fields: Fields, waitHandle: Handle, launch: bool)

  function Decide(f: Fields, soft: bool): Decision {
    if soft && f.current.Some? then
      Decision(f, f.current.value, false)
    else
      var g := if f.next.None? then f.(next := Some(f.created), created := f.created + 1) else f;
      if g.current.None? then Decision(g.(current := g.next), g.next.value, true) else Decision(g, g.next.value, false)
  }

  function Acquired(f: Fields): Fields {
    f.(current := f.next, next := None)
  }

  class SlowAction {
    var nextExecutionFinishedHandle: Option<Handle>
    var executionFinishedHandle: Option<Handle>
    var created: nat

    function View(): Fields
      reads this
    {
      Fields(nextExecutionFinishedHandle, executionFinishedHandle, created)
    }

    constructor ()
      ensures View() == Fields(None, None, 0)
    {
      nextExecutionFinishedHandle, executionFinishedHandle, created := None, None, 0;
    }

    /** Decides whether a worker must be launched, and which handle the caller waits for. */
    method ShouldExecute(soft: bool) returns (waitHandle: Handle, launch: bool)
      modifies this
      ensures Decision(View(), waitHandle, launch) == Decide(old(View()), soft)
    {
      if soft && executionFinishedHandle.Some? {
        return executionFinishedHandle.value, false;
      }
      if nextExecutionFinishedHandle.None? {
        nextExecutionFinishedHandle := Some(created);
        created := created + 1;
      }
      waitHandle := nextExecutionFinishedHandle.value;
      if executionFinishedHandle.None? {
        executionFinishedHandle := nextExecutionFinishedHandle;
        return waitHandle, true;
      }
      return waitHandle, false;
    }

    method AcquireHandleForExecution() returns (handle: Option<Handle>)
      modifies this
      ensures View() == Acquired(old(View()))
      ensures handle == View().current == old(View()).next
    {
      handle := nextExecutionFinishedHandle;
      executionFinishedHandle := nextExecutionFinishedHandle;
      nextExecutionFinishedHandle := None;
    }
  }

  // ---------- Interleavings ----------

  /**
    Owed: a caller was told to launch the worker but has not done so yet.
    AtTop: about to acquire a handle.  Finished: the action returned, its
    handle is not set yet.
   */
  datatype Worker = Owed | AtTop | Running(handle: Handle) | Finished(handle: Handle)

  datatype Event = Triggered(soft: bool, handle: Handle) | Started(handle: Handle) | WasSet(handle: Handle)

  datatype State = State(fields: Fields, workers: map<WorkerId, Worker>, history: seq<Event>)

  datatype Step = Trigger(soft: bool, id: WorkerId) | Launch(id: WorkerId) | Acquire(id: WorkerId) | Finish(id: WorkerId) | Signal(id: WorkerId)

  const INITIAL := State(Fields(None, None, 0), map[], [])

  predicate Enabled(s: State, step: Step) {
    match step
    case Trigger(_, id) => id !in s.workers
    case Launch(id) => id in s.workers && s.workers[id] == Owed
    case Acquire(id) => id in s.workers && s.workers[id] == AtTop
    case Finish(id) => id in s.workers && s.workers[id].Running?
    case Signal(id) => id in s.workers && s.workers[id].Finished?
  }

  function Next(s: State, step: Step): State
    requires Enabled(s, step)
  {
    match step
    case Trigger(soft, id) =>
      var d := Decide(s.fields, soft);
      State(d.fields, if d.launch then s.workers[id := Owed] else s.workers, s.history + [Triggered(soft, d.waitHandle)])
    case Launch(id) =>
      s.(workers := s.workers[id := AtTop])
    case Acquire(id) =>
      var f := Acquired(s.fields);
      if f.current.None? then
        State(f, s.workers - {id}, s.history)
      else
        State(f, s.workers[id := Running(f.current.value)], s.history + [Started(f.current.value)])
    case Finish(id) =>
      s.(workers := s.workers[id := Finished(s.workers[id].handle)])
    case Signal(id) =>
      s.(workers := s.workers[id := AtTop], history := s.history + [WasSet(s.workers[id].handle)])
  }

  predicate Legal(run: seq<Step>)
    decreases |run|, 0
  {
    run == [] || (Legal(run[..|run| - 1]) && Enabled(After(run[..|run| - 1]), run[|run| - 1]))
  }

  function After(run: seq<Step>): State
    requires Legal(run)
    decreases |run|, 1
  {
    if run == [] then INITIAL else Next(After(run[..|run| - 1]), run[|run| - 1])
  }

  // ---------- Reading the history ----------

  /** The handle of the first execution that starts at or after position i. */
  function FirstStart(history: seq<Event>, i: nat): Option<Handle>
    decreases |history| - i
  {
    if i >= |history| then None
    else if history[i].Started? then Some(history[i].handle)
    else FirstStart(history, i + 1)
  }

  lemma {:induction false} FirstStartAppend(history: seq<Event>, e: Event, i: nat)
    requires i <= |history|
    ensures FirstStart(history + [e], i) ==
            if FirstStart(history, i).Some? then FirstStart(history, i)
            else if e.Started? then Some(e.handle) else None
    decreases |history| - i
  {
    if i < |history| {
      FirstStartAppend(history, e, i + 1);
    }
  }

  /** The execution that started last, unless its handle was set since. */
  function Open(history: seq<Event>): Option<Handle> {
    if history == [] then None
    else
      var e := history[|history| - 1];
      if e.Started? then Some(e.handle)
      else if e.WasSet? then None
      else Open(history[..|history| - 1])
  }

  /** Executions do not overlap: one starts when none is open, and a handle is set when its own is open. */
  predicate Serial(history: seq<Event>) {
    history == [] ||
    var prev, e := history[..|history| - 1], history[|history| - 1];
    && Serial(prev)
    && (e.Started? ==> Open(prev) == None)
    && (e.WasSet? ==> Open(prev) == Some(e.handle))
  }

  function Starts(history: seq<Event>): nat {
    if history == [] then 0
    else Starts(history[..|history| - 1]) + if history[|history| - 1].Started? then 1 else 0
  }

  function Triggers(history: seq<Event>): nat {
    if history == [] then 0
    else Triggers(history[..|history| - 1]) + if history[|history| - 1].Triggered? then 1 else 0
  }

  // ---------- The invariant ----------

  /** At most one worker is owed or alive, and one is exactly while an execution counts as in progress. */
  ghost predicate OneWorker(s: State) {
    && (forall a, b :: a in s.workers && b in s.workers ==> a == b)
    && (s.workers != map[] <==> s.fields.current.Some?)
  }

  /** How the phase of the worker agrees with the fields. */
  ghost predicate PhaseAgrees(s: State, w: Worker) {
    match w
    case Owed => s.fields.next == s.fields.current && Open(s.history) == None
    case AtTop => Open(s.history) == None
    case Running(h) => s.fields.current == Some(h) && Open(s.history) == Some(h)
    case Finished(h) => s.fields.current == Some(h) && Open(s.history) == Some(h)
  }

  /** The first execution to start after a hard trigger is its own; until then its handle is the next one. */
  ghost predicate TriggerServed(s: State, i: nat)
    requires i < |s.history|
  {
    s.history[i].Triggered? && !s.history[i].soft ==>
      || FirstStart(s.history, i) == Some(s.history[i].handle)
      || (FirstStart(s.history, i) == None && s.fields.next == Some(s.history[i].handle))
  }

  /** A handle was given to a trigger, hard or soft. */
  ghost predicate Promised(s: State, h: Handle) {
    Triggered(false, h) in s.history || Triggered(true, h) in s.history
  }

  /** An execution starts for each handle at most once and sets it; a handle without one is the next one. */
  ghost predicate HandleOnce(s: State, h: Handle) {
    && (Promised(s, h) ==> h < s.fields.created)
    && (h < s.fields.created ==> Started(h) in s.history || s.fields.next == Some(h))
    && (Started(h) in s.history ==> h < s.fields.created && s.fields.next != Some(h))
    && (WasSet(h) in s.history ==> Started(h) in s.history)
    && (Started(h) in s.history ==> WasSet(h) in s.history || Open(s.history) == Some(h))
    && (Open(s.history) == Some(h) ==> Started(h) in s.history && WasSet(h) !in s.history)
  }

  ghost predicate Inv(s: State) {
    && OneWorker(s)
    && (s.fields.current.None? ==> s.fields.next.None?)
    && (s.fields.next.Some? ==> s.fields.next.value < s.fields.created)
    && (s.fields.current.Some? ==> s.fields.current.value < s.fields.created)
    && (s.workers == map[] ==> Open(s.history) == None)
    && (forall id :: id in s.workers ==> PhaseAgrees(s, s.workers[id]))
    && Serial(s.history)
    && (forall h :: HandleOnce(s, h))
    && (forall i :: 0 <= i < |s.history| ==> TriggerServed(s, i))
    && Starts(s.history) + (if s.fields.next.Some? then 1 else 0) <= Triggers(s.history)
  }

  lemma AppendHistory(history: seq<Event>, e: Event)
    ensures var more := history + [e];
            && more[..|more| - 1] == history && more[|more| - 1] == e
            && Open(more) == (if e.Started? then Some(e.handle) else if e.WasSet? then None else Open(history))
            && (Serial(more) <==> Serial(history) && (e.Started? ==> Open(history) == None) && (e.WasSet? ==> Open(history) == Some(e.handle)))
            && Starts(more) == Starts(history) + (if e.Started? then 1 else 0)
            && Triggers(more) == Triggers(history) + (if e.Triggered? then 1 else 0)
            && (forall x :: x in more <==> x in history || x == e)
  {
  }

  lemma TriggerKeepsInv(s: State, soft: bool, id: WorkerId)
    requires Inv(s) && Enabled(s, Trigger(soft, id))
    ensures Inv(Next(s, Trigger(soft, id)))
  {
    var t := Next(s, Trigger(soft, id));
    var d := Decide(s.fields, soft);
    var e := Triggered(soft, d.waitHandle);
    AppendHistory(s.history, e);
    assert d.fields.created >= s.fields.created;
    forall h ensures HandleOnce(t, h) {
      assert HandleOnce(s, h);
    }
    forall i | 0 <= i < |t.history| ensures TriggerServed(t, i) {
      FirstStartAppend(s.history, e, i);
      if i < |s.history| {
        assert TriggerServed(s, i);
      }
    }
    if d.launch {
      assert s.workers == map[];
      assert t.workers == map[id := Owed];
    }
    forall w | w in t.workers ensures PhaseAgrees(t, t.workers[w]) {
      if w in s.workers {
        assert PhaseAgrees(s, s.workers[w]);
      }
    }
  }

  lemma AcquireKeepsInv(s: State, id: WorkerId)
    requires Inv(s) && Enabled(s, Acquire(id))
    ensures Inv(Next(s, Acquire(id)))
  {
    var t := Next(s, Acquire(id));
    assert PhaseAgrees(s, s.workers[id]);
    if s.fields.next.None? {
      assert t.workers == map[];
      forall h ensures HandleOnce(t, h) {
        assert HandleOnce(s, h);
      }
      forall i | 0 <= i < |t.history| ensures TriggerServed(t, i) {
        assert TriggerServed(s, i);
      }
    } else {
      var e := Started(s.fields.next.value);
      AppendHistory(s.history, e);
      forall h ensures HandleOnce(t, h) {
        assert HandleOnce(s, h);
      }
      forall i | 0 <= i < |t.history| ensures TriggerServed(t, i) {
        FirstStartAppend(s.history, e, i);
        if i < |s.history| {
          assert TriggerServed(s, i);
        }
      }
    }
  }

  lemma SignalKeepsInv(s: State, id: WorkerId)
    requires Inv(s) && Enabled(s, Signal(id))
    ensures Inv(Next(s, Signal(id)))
  {
    var t := Next(s, Signal(id));
    var e := WasSet(s.workers[id].handle);
    assert PhaseAgrees(s, s.workers[id]);
    AppendHistory(s.history, e);
    forall h ensures HandleOnce(t, h) {
      assert HandleOnce(s, h);
    }
    forall i | 0 <= i < |t.history| ensures TriggerServed(t, i) {
      FirstStartAppend(s.history, e, i);
      if i < |s.history| {
        assert TriggerServed(s, i);
      }
    }
  }

  lemma StepKeepsInv(s: State, step: Step)
    requires Inv(s) && Enabled(s, step)
    ensures Inv(Next(s, step))
  {
    match step
    case Trigger(soft, id) => TriggerKeepsInv(s, soft, id);
    case Acquire(id) => AcquireKeepsInv(s, id);
    case Signal(id) => SignalKeepsInv(s, id);
    case _ =>
      var t := Next(s, step);
      assert PhaseAgrees(s, s.workers[step.id]);
      forall h ensures HandleOnce(t, h) {
        assert HandleOnce(s, h);
      }
      forall i | 0 <= i < |t.history| ensures TriggerServed(t, i) {
        assert TriggerServed(s, i);
      }
  }

  /** The invariant holds after every interleaving. */
  lemma {:induction false} AlwaysInv(run: seq<Step>)
    requires Legal(run)
    ensures Inv(After(run))
  {
    if run != [] {
      var prev := run[..|run| - 1];
      AlwaysInv(prev);
      StepKeepsInv(After(prev), run[|run| - 1]);
    }
  }

  // ---------- What callers rely on ----------

  /**
    Never concurrent: at most one worker exists, at most one execution is open,
    and executions follow each other without overlap.  They never outnumber
    the triggers.
   */
  lemma {:induction false} NeverConcurrent(run: seq<Step>)
    requires Legal(run)
    ensures forall a, b :: a in After(run).workers && b in After(run).workers ==> a == b
    ensures After(run).fields.current.Some? <==> exists id :: id in After(run).workers
    ensures Serial(After(run).history)
    ensures Starts(After(run).history) <= Triggers(After(run).history)
  {
    AlwaysInv(run);
    if After(run).workers != map[] {
      var id :| id in After(run).workers.Keys;
    }
  }

  /**
    No trigger is lost: as long as the handle of a hard trigger is not set, it is
    the next one, or the worker is executing for it and started after the trigger.
   */
  lemma {:induction false} NoTriggerLost(run: seq<Step>, i: nat)
    requires Legal(run)
    requires i < |After(run).history| && After(run).history[i].Triggered? && !After(run).history[i].soft
    ensures var s, h := After(run), After(run).history[i].handle;
            || WasSet(h) in s.history
            || s.fields.next == Some(h)
            || (&& FirstStart(s.history, i) == Some(h)
                && exists id :: id in s.workers && (s.workers[id] == Running(h) || s.workers[id] == Finished(h)))
  {
    AlwaysInv(run);
    var s := After(run);
    var h := s.history[i].handle;
    assert TriggerServed(s, i);
    if FirstStart(s.history, i) == Some(h) && WasSet(h) !in s.history {
      FirstStartIsEvent(s.history, i);
      assert HandleOnce(s, h);
      assert Open(s.history) == Some(h);
      var id :| id in s.workers.Keys;
      assert PhaseAgrees(s, s.workers[id]);
    }
  }

  lemma {:induction false} FirstStartIsEvent(history: seq<Event>, i: nat)
    requires FirstStart(history, i).Some?
    ensures Started(FirstStart(history, i).value) in history[i..]
    ensures Started(FirstStart(history, i).value) in history
    decreases |history| - i
  {
    if !history[i].Started? {
      FirstStartIsEvent(history, i + 1);
      assert history[i..] == [history[i]] + history[i + 1..];
    }
  }

  /** A soft trigger while an execution is in progress enqueues nothing and launches nobody. */
  lemma {:induction false} SoftTriggerEnqueuesNothing(run: seq<Step>, id: WorkerId)
    requires Legal(run) && id !in After(run).workers && After(run).workers != map[]
    ensures var s, t := After(run), Next(After(run), Trigger(true, id));
            t.fields == s.fields && t.workers == s.workers
  {
    AlwaysInv(run);
  }

  /**
    What the handle of a soft trigger stands for while there is a worker: the execution
    that is owed, the one under way, or the one that has returned but not set its handle.
    Between setting a handle and acquiring the next one, it is the handle that was set.
   */
  lemma {:induction false} SoftTriggerHandle(run: seq<Step>, id: WorkerId)
    requires Legal(run) && id in After(run).workers
    ensures var s := After(run);
            var h := Decide(s.fields, true).waitHandle;
            match s.workers[id]
            case Owed => s.fields.next == Some(h) && Started(h) !in s.history
            case AtTop => if s.fields.next == Some(h) then Started(h) !in s.history else WasSet(h) in s.history
            case Running(x) => x == h && Started(h) in s.history && WasSet(h) !in s.history
            case Finished(x) => x == h && Started(h) in s.history && WasSet(h) !in s.history
  {
    AlwaysInv(run);
    var s := After(run);
    assert PhaseAgrees(s, s.workers[id]);
    assert HandleOnce(s, s.fields.current.value);
  }

  /** In that window, unless a hard trigger came before, a soft trigger is followed by no execution at all: the worker ends. */
  lemma {:induction false} SoftTriggerMayComeTooLate(run: seq<Step>, id: WorkerId, other: WorkerId)
    requires Legal(run) && id in After(run).workers && other !in After(run).workers
    requires After(run).workers[id] == AtTop && After(run).fields.next.None?
    ensures var s := Next(After(run), Trigger(true, other));
            && WasSet(s.history[|s.history| - 1].handle) in s.history
            && Enabled(s, Acquire(id)) && Next(s, Acquire(id)).workers == map[]
            && Next(s, Acquire(id)).fields.current.None? && Next(s, Acquire(id)).history == s.history
  {
    AlwaysInv(run);
    SoftTriggerHandle(run, id);
    assert Next(Next(After(run), Trigger(true, other)), Acquire(id)).workers.Keys == {};
  }

  /**
    When the promise of every trigger is kept, that its handle belongs to an execution
    that has not started yet: exactly if the trigger is hard, or no execution counts as in
    progress, or the one that does has not acquired its handle.
   */
  lemma {:induction false} HandleIsFreshExactly(run: seq<Step>, soft: bool)
    requires Legal(run)
    ensures var s := After(run);
            Started(Decide(s.fields, soft).waitHandle) !in s.history <==>
            !soft || s.fields.current.None? || s.fields.next == s.fields.current
  {
    AlwaysInv(run);
    var s := After(run);
    assert HandleOnce(s, Decide(s.fields, soft).waitHandle);
  }

  lemma {:induction false} Extend(run: seq<Step>, s: State, step: Step) returns (longer: seq<Step>)
    requires Legal(run) && After(run) == s && Enabled(s, step)
    ensures longer == run + [step] && Legal(longer) && After(longer) == Next(s, step)
  {
    longer := run + [step];
    assert longer[..|run|] == run;
  }

  lemma StartedOnce() returns (run: seq<Step>)
    ensures run == [Trigger(false, 7), Launch(7), Acquire(7)] && Legal(run)
    ensures After(run) == State(Fields(None, Some(0), 1), map[7 := Running(0)], [Triggered(false, 0), Started(0)])
  {
    var s := State(Fields(Some(0), Some(0), 1), map[7 := Owed], [Triggered(false, 0)]);
    run := Extend([], INITIAL, Trigger(false, 7));
    run := Extend(run, s, Launch(7));
    run := Extend(run, s.(workers := map[7 := AtTop]), Acquire(7));
  }

  /** The window is reached: one execution has set its handle, and nothing else is due. */
  lemma SoftTriggerComesTooLate() returns (run: seq<Step>)
    ensures run == [Trigger(false, 7), Launch(7), Acquire(7), Finish(7), Signal(7)] && Legal(run)
    ensures var s := After(run);
            && s.workers == map[7 := AtTop] && s.fields == Fields(None, Some(0), 1)
            && WasSet(Decide(s.fields, true).waitHandle) in s.history
  {
    run := StartedOnce();
    var s := State(Fields(None, Some(0), 1), map[7 := Running(0)], [Triggered(false, 0), Started(0)]);
    run := Extend(run, s, Finish(7));
    run := Extend(run, s.(workers := map[7 := Finished(0)]), Signal(7));
  }

  // ---------- Bounded response ----------

  /** How many steps a worker in this phase needs until it sets a handle that was promised. */
  function PhaseDistance(w: Worker, h: Handle): nat {
    match w
    case Finished(x) => if x == h then 1 else 4
    case Running(x) => if x == h then 2 else 5
    case AtTop => 3
    case Owed => 4
  }

  /** So many steps of the worker are left until the handle is set. */
  ghost predicate StepsLeft(s: State, h: Handle, n: nat) {
    if WasSet(h) in s.history then n == 0 else exists id :: id in s.workers && PhaseDistance(s.workers[id], h) == n
  }

  /** A handle that was promised and not set belongs to the open execution or is the next one. */
  lemma PromiseIsPending(s: State, h: Handle)
    requires Inv(s) && Promised(s, h) && WasSet(h) !in s.history
    ensures s.workers != map[]
    ensures Open(s.history) == Some(h) || s.fields.next == Some(h)
  {
    assert HandleOnce(s, h);
  }

  lemma FewStepsLeft(s: State, h: Handle) returns (n: nat)
    requires Inv(s) && Promised(s, h)
    ensures n <= 5 && StepsLeft(s, h, n)
  {
    if WasSet(h) in s.history {
      n := 0;
    } else {
      PromiseIsPending(s, h);
      var id :| id in s.workers;
      n := PhaseDistance(s.workers[id], h);
    }
  }

  lemma TriggerDoesNotDelay(s: State, h: Handle, soft: bool, id: WorkerId, n: nat)
    requires Inv(s) && Promised(s, h) && Enabled(s, Trigger(soft, id)) && StepsLeft(s, h, n)
    ensures StepsLeft(Next(s, Trigger(soft, id)), h, n)
  {
    AppendHistory(s.history, Triggered(soft, Decide(s.fields, soft).waitHandle));
    if WasSet(h) !in s.history {
      PromiseIsPending(s, h);
    }
  }

  /** The only worker is in some phase; so many steps are left as that phase says. */
  lemma WorkerPhase(s: State, h: Handle, id: WorkerId, n: nat)
    requires Inv(s) && Promised(s, h) && WasSet(h) !in s.history && id in s.workers && StepsLeft(s, h, n)
    ensures PhaseAgrees(s, s.workers[id]) && n == PhaseDistance(s.workers[id], h) > 0
    ensures Open(s.history) == Some(h) || s.fields.next == Some(h)
  {
    PromiseIsPending(s, h);
  }

  lemma AcquireApproaches(s: State, h: Handle, id: WorkerId, n: nat)
    requires Inv(s) && Promised(s, h) && Enabled(s, Acquire(id)) && WasSet(h) !in s.history && StepsLeft(s, h, n)
    ensures n > 0 && StepsLeft(Next(s, Acquire(id)), h, n - 1)
  {
    WorkerPhase(s, h, id, n);
    var t := Next(s, Acquire(id));
    assert t.history == s.history + [Started(h)];
    assert id in t.workers && t.workers[id] == Running(h);
  }

  lemma SignalApproaches(s: State, h: Handle, id: WorkerId, n: nat)
    requires Inv(s) && Promised(s, h) && Enabled(s, Signal(id)) && WasSet(h) !in s.history && StepsLeft(s, h, n)
    ensures n > 0 && StepsLeft(Next(s, Signal(id)), h, n - 1)
  {
    WorkerPhase(s, h, id, n);
    var t := Next(s, Signal(id));
    assert t.history == s.history + [WasSet(s.workers[id].handle)];
    assert id in t.workers && t.workers[id] == AtTop;
  }

  lemma OtherApproaches(s: State, h: Handle, step: Step, n: nat)
    requires Inv(s) && Promised(s, h) && Enabled(s, step) && (step.Launch? || step.Finish?) && WasSet(h) !in s.history && StepsLeft(s, h, n)
    ensures n > 0 && StepsLeft(Next(s, step), h, n - 1)
  {
    WorkerPhase(s, h, step.id, n);
    var t := Next(s, step);
    assert t.history == s.history && step.id in t.workers;
  }

  /** Triggers do not delay the handle, every other step brings it closer. */
  lemma StepApproaches(s: State, h: Handle, step: Step, n: nat)
    requires Inv(s) && Promised(s, h) && Enabled(s, step) && StepsLeft(s, h, n)
    ensures Promised(Next(s, step), h)
    ensures StepsLeft(Next(s, step), h, if step.Trigger? || n == 0 then n else n - 1)
  {
    assert s.history <= Next(s, step).history;
    if step.Trigger? {
      TriggerDoesNotDelay(s, h, step.soft, step.id, n);
    } else if WasSet(h) !in s.history {
      match step
      case Acquire(id) => AcquireApproaches(s, h, id, n);
      case Signal(id) => SignalApproaches(s, h, id, n);
      case _ => OtherApproaches(s, h, step, n);
    }
  }

  /** The worker is never stuck while a handle is owed. */
  lemma WorkerIsEnabled(s: State, h: Handle)
    requires Inv(s) && Promised(s, h) && WasSet(h) !in s.history
    ensures exists step :: Enabled(s, step) && !step.Trigger?
  {
    PromiseIsPending(s, h);
    var id :| id in s.workers.Keys;
    match s.workers[id]
    case Owed => assert Enabled(s, Launch(id));
    case AtTop => assert Enabled(s, Acquire(id));
    case Running(_) => assert Enabled(s, Finish(id));
    case Finished(_) => assert Enabled(s, Signal(id));
  }

  function WorkerSteps(run: seq<Step>): nat {
    if run == [] then 0 else WorkerSteps(run[..|run| - 1]) + if run[|run| - 1].Trigger? then 0 else 1
  }

  /** A run goes on from where the handle was given to a trigger. */
  ghost predicate Awaits(before: seq<Step>, rest: seq<Step>, h: Handle) {
    Legal(before) && Legal(before + rest) && Promised(After(before), h)
  }

  lemma {:induction false} RunApproaches(before: seq<Step>, rest: seq<Step>, h: Handle, n: nat)
    requires Awaits(before, rest, h) && StepsLeft(After(before), h, n)
    ensures Promised(After(before + rest), h)
    ensures StepsLeft(After(before + rest), h, if n <= WorkerSteps(rest) then 0 else n - WorkerSteps(rest))
    decreases |rest|
  {
    if rest == [] {
      assert before + rest == before;
    } else {
      var prev := rest[..|rest| - 1];
      assert (before + rest)[..|before + rest| - 1] == before + prev;
      RunApproaches(before, prev, h, n);
      AlwaysInv(before + prev);
      StepApproaches(After(before + prev), h, rest[|rest| - 1], if n <= WorkerSteps(prev) then 0 else n - WorkerSteps(prev));
    }
  }

  /**
    However many triggers are interleaved, five steps of the worker after a trigger its
    handle is set: the rest of the execution under way and one more.
   */
  lemma {:induction false} BoundedResponse(before: seq<Step>, rest: seq<Step>, h: Handle)
    requires Awaits(before, rest, h)
    ensures WorkerSteps(rest) >= 5 ==> WasSet(h) in After(before + rest).history
  {
    AlwaysInv(before);
    var n := FewStepsLeft(After(before), h);
    RunApproaches(before, rest, h, n);
  }
}
