/**
  The file logger: every call enqueues a line and triggers a slow action that
  drains the queue into the file.  The state machine interleaves the callers
  with the steps of the drain loop; its trigger part is the state machine of
  the slow action, so everything proved there holds here too.
 */
module LogFiles {
  import opened Wrappers
  import opened SlowActions

  type Ticket = nat

  // ---------- The guarded queue ----------

  class SafeQueue<T> {
    var items: seq<T>

    constructor ()
      ensures items == []
    {
      items := [];
    }

    /** Takes the first item, or returns None where the original returns the default value. */
    method Dequeue() returns (item: Option<T>)
      modifies this
      ensures item == (if old(items) == [] then None else Some(old(items)[0]))
      ensures items == (if old(items) == [] then [] else old(items)[1..])
    {
      if items == [] {
        return None;
      }
      item := Some(items[0]);
      items := items[1..];
    }

    method Enqueue(item: T)
      modifies this
      ensures items == old(items) + [item]
    {
      items := items + [item];
    }
  }

  // ---------- Interleavings ----------

  /** A message may be null. */
  type Message = Option<string>

  /**
    What the flush action is doing: opening the file, about to dequeue, holding
    a line that it is about to write, or leaving after Dequeue returned null.
   */
  datatype Drain = Opening | Draining | Holding(line: string) | Leaving

  /**
    logged: all messages ever enqueued; a ticket is a position in it.
    taken: how many of them were dequeued.  waiting: the tickets whose callers
    have not triggered the action yet.  failures: how often opening or writing
    the file failed, which ends the execution early.
   */
  datatype LogState = LogState(
    slow: State, drains: map<WorkerId, Drain>,
    logged: seq<Message>, taken: nat, waiting: set<Ticket>, written: seq<string>, failures: nat)

  datatype LogStep =
    | Log(message: Message)
    | TriggerFlush(ticket: Ticket, id: WorkerId)
    | LaunchFlush(id: WorkerId)
    | AcquireFlush(id: WorkerId)
    | OpenFile(id: WorkerId, fails: bool)
    | TakeLine(id: WorkerId)
    | WriteLine(id: WorkerId, fails: bool)
    | LeaveFlush(id: WorkerId)
    | SignalFlush(id: WorkerId)

  const EMPTY := LogState(INITIAL, map[], [], 0, {}, [], 0)

  /** The queue holds the messages that were not taken yet. */
  function Queue(s: LogState): seq<Message>
    requires s.taken <= |s.logged|
  {
    s.logged[s.taken..]
  }

  predicate LogEnabled(s: LogState, step: LogStep) {
    match step
    case Log(_) => true
    case TriggerFlush(ticket, id) => ticket in s.waiting && Enabled(s.slow, Trigger(false, id))
    case LaunchFlush(id) => Enabled(s.slow, Launch(id))
    case AcquireFlush(id) => Enabled(s.slow, Acquire(id))
    case OpenFile(id, _) => id in s.drains && s.drains[id] == Opening && Enabled(s.slow, Finish(id))
    case TakeLine(id) => id in s.drains && s.drains[id] == Draining && s.taken <= |s.logged| && Enabled(s.slow, Finish(id))
    case WriteLine(id, _) => id in s.drains && s.drains[id].Holding? && Enabled(s.slow, Finish(id))
    case LeaveFlush(id) => id in s.drains && s.drains[id] == Leaving && Enabled(s.slow, Finish(id))
    case SignalFlush(id) => Enabled(s.slow, Signal(id))
  }

  /** The execution ends; an exception ends it early, which the slow action catches. */
  function EndFlush(s: LogState, id: WorkerId, failures: nat): LogState
    requires Enabled(s.slow, Finish(id))
  {
    s.(slow := Next(s.slow, Finish(id)), drains := s.drains - {id}, failures := failures)
  }

  function LogNext(s: LogState, step: LogStep): LogState
    requires LogEnabled(s, step)
  {
    match step
    case Log(message) =>
      s.(logged := s.logged + [message], waiting := s.waiting + {|s.logged|})
    case TriggerFlush(ticket, id) =>
      s.(slow := Next(s.slow, Trigger(false, id)), waiting := s.waiting - {ticket})
    case LaunchFlush(id) =>
      s.(slow := Next(s.slow, Launch(id)))
    case AcquireFlush(id) =>
      var t := s.(slow := Next(s.slow, Acquire(id)));
      if t.slow.fields.current.Some? then t.(drains := s.drains[id := Opening]) else t
    case OpenFile(id, fails) =>
      if fails then EndFlush(s, id, s.failures + 1) else s.(drains := s.drains[id := Draining])
    case TakeLine(id) =>
      if Queue(s) == [] then
        s.(drains := s.drains[id := Leaving])
      else
        var t := s.(taken := s.taken + 1);
        if Queue(s)[0].None? then
          t.(drains := s.drains[id := Leaving])
        else
          t.(drains := s.drains[id := Holding(Queue(s)[0].value)])
    case WriteLine(id, fails) =>
      if fails then EndFlush(s, id, s.failures + 1)
      else s.(drains := s.drains[id := Draining], written := s.written + [s.drains[id].line])
    case LeaveFlush(id) =>
      EndFlush(s, id, s.failures)
    case SignalFlush(id) =>
      s.(slow := Next(s.slow, Signal(id)))
  }

  predicate LegalLog(run: seq<LogStep>)
    decreases |run|, 0
  {
    run == [] || (LegalLog(run[..|run| - 1]) && LogEnabled(AfterLog(run[..|run| - 1]), run[|run| - 1]))
  }

  function AfterLog(run: seq<LogStep>): LogState
    requires LegalLog(run)
    decreases |run|, 1
  {
    if run == [] then EMPTY else LogNext(AfterLog(run[..|run| - 1]), run[|run| - 1])
  }

  // ---------- The composition ----------

  /** Every step of the logger is a step of the slow action or leaves it alone. */
  lemma LoggerStepIsSlowStep(s: LogState, step: LogStep)
    requires LogEnabled(s, step)
    ensures LogNext(s, step).slow == s.slow
         || exists slowStep :: Enabled(s.slow, slowStep) && LogNext(s, step).slow == Next(s.slow, slowStep)
  {
    match step
    case TriggerFlush(ticket, id) => assert Enabled(s.slow, Trigger(false, id));
    case LaunchFlush(id) => assert Enabled(s.slow, Launch(id));
    case AcquireFlush(id) => assert Enabled(s.slow, Acquire(id));
    case SignalFlush(id) => assert Enabled(s.slow, Signal(id));
    case OpenFile(id, _) => assert Enabled(s.slow, Finish(id));
    case WriteLine(id, _) => assert Enabled(s.slow, Finish(id));
    case LeaveFlush(id) => assert Enabled(s.slow, Finish(id));
    case _ =>
  }

  /** The lines of messages, without the null ones. */
  function Lines(messages: seq<Message>): seq<string> {
    if messages == [] then []
    else Lines(messages[..|messages| - 1]) + match messages[|messages| - 1] case None => [] case Some(line) => [line]
  }

  /** The line that was dequeued but not written yet. */
  ghost function InHand(s: LogState): seq<string> {
    if exists id :: id in s.drains && s.drains[id].Holding? then
      var id :| id in s.drains && s.drains[id].Holding?;
      [s.drains[id].line]
    else
      []
  }

  /** A running execution that has not seen the queue empty. */
  ghost predicate StillDraining(s: LogState) {
    exists id :: id in s.drains && s.drains[id] != Leaving
  }

  /** The message that was taken last was null, which ended the loop of its execution. */
  ghost predicate NullTaken(s: LogState) {
    0 < s.taken <= |s.logged| && s.logged[s.taken - 1].None?
  }

  /** A line that is still queued and whose caller has finished triggering will be taken, unless a null came last. */
  ghost predicate NothingLost(s: LogState) {
    forall t: Ticket :: s.taken <= t < |s.logged| && t !in s.waiting ==>
      s.slow.fields.next.Some? || StillDraining(s) || NullTaken(s)
  }

  /** The first list can be obtained from the second by leaving out items. */
  ghost predicate Within(some: seq<string>, all: seq<string>) {
    || some == []
    || (all != []
        && (|| Within(some, all[..|all| - 1])
            || (some[|some| - 1] == all[|all| - 1] && Within(some[..|some| - 1], all[..|all| - 1]))))
  }

  ghost predicate LogInv(s: LogState) {
    && Inv(s.slow)
    && (forall id :: id in s.drains <==> id in s.slow.workers && s.slow.workers[id].Running?)
    && s.taken <= |s.logged|
    && (forall t :: t in s.waiting ==> t < |s.logged|)
    && (s.failures == 0 ==> Lines(s.logged[..s.taken]) == s.written + InHand(s))
    && (s.failures == 0 ==> NothingLost(s))
  }

  lemma OneDrain(s: LogState, id: WorkerId)
    requires Inv(s.slow) && id in s.drains
    requires forall id :: id in s.drains <==> id in s.slow.workers && s.slow.workers[id].Running?
    ensures forall other :: other in s.drains ==> other == id
    ensures InHand(s) == if s.drains[id].Holding? then [s.drains[id].line] else []
  {
  }

  lemma WithinMore(some: seq<string>, all: seq<string>, line: string)
    requires Within(some, all)
    ensures Within(some, all + [line]) && Within(some + [line], all + [line])
  {
    assert (all + [line])[..|all|] == all && (some + [line])[..|some|] == some;
  }

  lemma {:induction false} WithinLess(some: seq<string>, line: string, all: seq<string>)
    requires Within(some + [line], all)
    ensures Within(some, all)
    decreases |all|
  {
    var prev := all[..|all| - 1];
    if Within(some + [line], prev) {
      WithinLess(some, line, prev);
    } else {
      assert (some + [line])[..|some|] == some;
    }
  }

  lemma {:induction false} WithinLonger(some: seq<string>, all: seq<string>, rest: seq<string>)
    requires Within(some, all)
    ensures Within(some, all + rest)
    decreases |rest|
  {
    if rest == [] {
      assert all + rest == all;
    } else {
      WithinLonger(some, all, rest[..|rest| - 1]);
      assert (all + rest)[..|all + rest| - 1] == all + rest[..|rest| - 1];
    }
  }

  lemma TakeOne(s: LogState)
    requires s.taken < |s.logged|
    ensures Lines(s.logged[..s.taken + 1]) ==
            Lines(s.logged[..s.taken]) + match s.logged[s.taken] case None => [] case Some(line) => [line]
  {
    assert s.logged[..s.taken + 1][..s.taken] == s.logged[..s.taken];
  }

  lemma CallerKeepsLogInv(s: LogState, step: LogStep)
    requires LogInv(s) && LogEnabled(s, step) && (step.Log? || step.TriggerFlush?)
    ensures LogInv(LogNext(s, step))
  {
    var t := LogNext(s, step);
    match step
    case Log(message) =>
      assert t.logged[..t.taken] == s.logged[..s.taken];
      assert StillDraining(t) == StillDraining(s);
    case TriggerFlush(ticket, id) =>
      StepKeepsInv(s.slow, Trigger(false, id));
  }

  lemma WorkerKeepsLogInv(s: LogState, step: LogStep)
    requires LogInv(s) && LogEnabled(s, step) && (step.LaunchFlush? || step.SignalFlush?)
    ensures LogInv(LogNext(s, step))
  {
    var t, id := LogNext(s, step), step.id;
    assert forall other :: other in s.slow.workers ==> other == id;
    assert s.drains == map[];
    match step
    case LaunchFlush(id) =>
      StepKeepsInv(s.slow, Launch(id));
    case SignalFlush(id) =>
      StepKeepsInv(s.slow, Signal(id));
  }

  lemma AcquireKeepsLogInv(s: LogState, id: WorkerId)
    requires LogInv(s) && LogEnabled(s, AcquireFlush(id))
    ensures LogInv(LogNext(s, AcquireFlush(id)))
  {
    var t := LogNext(s, AcquireFlush(id));
    assert forall other :: other in s.slow.workers ==> other == id;
    assert s.drains == map[];
    StepKeepsInv(s.slow, Acquire(id));
    if t.slow.fields.current.Some? {
      OneDrain(t, id);
      assert t.drains[id] != Leaving;
    }
  }

  lemma TakeKeepsLogInv(s: LogState, id: WorkerId)
    requires LogInv(s) && LogEnabled(s, TakeLine(id))
    ensures LogInv(LogNext(s, TakeLine(id)))
  {
    var t := LogNext(s, TakeLine(id));
    OneDrain(s, id);
    OneDrain(t, id);
    assert t.drains[id] != Leaving ==> StillDraining(t);
    if s.taken < |s.logged| {
      TakeOne(s);
    }
  }

  lemma GoOnKeepsLogInv(s: LogState, step: LogStep)
    requires LogInv(s) && LogEnabled(s, step) && ((step.OpenFile? && !step.fails) || (step.WriteLine? && !step.fails))
    ensures LogInv(LogNext(s, step))
  {
    var t := LogNext(s, step);
    OneDrain(s, step.id);
    OneDrain(t, step.id);
    assert t.drains[step.id] == Draining && StillDraining(t);
  }

  lemma EndKeepsLogInv(s: LogState, step: LogStep)
    requires LogInv(s) && LogEnabled(s, step)
    requires step.LeaveFlush? || (step.OpenFile? && step.fails) || (step.WriteLine? && step.fails)
    ensures LogInv(LogNext(s, step))
  {
    var t := LogNext(s, step);
    OneDrain(s, step.id);
    StepKeepsInv(s.slow, Finish(step.id));
    assert t.drains == map[];
  }

  /** The invariant holds after every interleaving. */
  lemma {:induction false} AlwaysLogInv(run: seq<LogStep>)
    requires LegalLog(run)
    ensures LogInv(AfterLog(run))
  {
    if run != [] {
      var prev, step := run[..|run| - 1], run[|run| - 1];
      AlwaysLogInv(prev);
      var s := AfterLog(prev);
      if step.Log? || step.TriggerFlush? {
        CallerKeepsLogInv(s, step);
      } else if step.LaunchFlush? || step.SignalFlush? {
        WorkerKeepsLogInv(s, step);
      } else if step.AcquireFlush? {
        AcquireKeepsLogInv(s, step.id);
      } else if step.TakeLine? {
        TakeKeepsLogInv(s, step.id);
      } else if step.LeaveFlush? || step.fails {
        EndKeepsLogInv(s, step);
      } else {
        GoOnKeepsLogInv(s, step);
      }
    }
  }

  /** What was taken was written at most once, in the order in which it was taken. */
  ghost predicate InOrder(s: LogState) {
    s.taken <= |s.logged| && Within(s.written + InHand(s), Lines(s.logged[..s.taken]))
  }

  lemma TakeKeepsOrder(s: LogState, id: WorkerId)
    requires LogInv(s) && LogEnabled(s, TakeLine(id)) && LogInv(LogNext(s, TakeLine(id))) && InOrder(s)
    ensures InOrder(LogNext(s, TakeLine(id)))
  {
    var t := LogNext(s, TakeLine(id));
    OneDrain(s, id);
    OneDrain(t, id);
    assert s.written + [] == s.written;
    if s.taken < |s.logged| {
      TakeOne(s);
      assert Queue(s)[0] == s.logged[s.taken];
      if s.logged[s.taken].Some? {
        WithinMore(s.written, Lines(s.logged[..s.taken]), s.logged[s.taken].value);
      } else {
        assert Lines(s.logged[..s.taken]) + [] == Lines(s.logged[..s.taken]);
      }
    }
  }

  lemma WriteKeepsOrder(s: LogState, id: WorkerId, fails: bool)
    requires LogInv(s) && LogEnabled(s, WriteLine(id, fails)) && LogInv(LogNext(s, WriteLine(id, fails))) && InOrder(s)
    ensures InOrder(LogNext(s, WriteLine(id, fails)))
  {
    var t, line := LogNext(s, WriteLine(id, fails)), s.drains[id].line;
    OneDrain(s, id);
    if fails {
      assert t.drains == map[];
      assert t.written + InHand(t) == s.written;
      WithinLess(s.written, line, Lines(s.logged[..s.taken]));
    } else {
      OneDrain(t, id);
      assert t.written + InHand(t) == s.written + [line];
    }
  }

  lemma LogKeepsOrder(s: LogState, message: Message)
    requires LogInv(s) && InOrder(s)
    ensures InOrder(LogNext(s, Log(message)))
  {
    var t := LogNext(s, Log(message));
    assert t.logged[..t.taken] == s.logged[..s.taken];
    if id :| id in s.drains {
      OneDrain(s, id);
      OneDrain(t, id);
    }
  }

  lemma StepKeepsOrder(s: LogState, step: LogStep)
    requires LogInv(s) && LogEnabled(s, step) && LogInv(LogNext(s, step)) && InOrder(s)
    ensures InOrder(LogNext(s, step))
  {
    match step
    case TakeLine(id) => TakeKeepsOrder(s, id);
    case WriteLine(id, fails) => WriteKeepsOrder(s, id, fails);
    case Log(message) => LogKeepsOrder(s, message);
    case _ =>
      IdleHands(s, step);
      var t := LogNext(s, step);
      assert t.logged == s.logged && t.taken == s.taken && t.written == s.written;
  }

  /** The other steps of callers and workers begin and end with no line in hand. */
  lemma IdleHands(s: LogState, step: LogStep)
    requires LogInv(s) && LogEnabled(s, step) && LogInv(LogNext(s, step))
    requires !step.Log? && !step.TakeLine? && !step.WriteLine?
    ensures InHand(LogNext(s, step)) == InHand(s)
  {
    var t := LogNext(s, step);
    if step.TriggerFlush? {
      assert t.drains == s.drains;
    } else {
      assert forall other :: other in s.slow.workers ==> other == step.id;
      assert forall other :: other in s.drains ==> other == step.id;
      assert forall other :: other in t.drains ==> other == step.id;
    }
  }

  lemma {:induction false} AlwaysInOrder(run: seq<LogStep>)
    requires LegalLog(run)
    ensures InOrder(AfterLog(run))
  {
    AlwaysLogInv(run);
    if run != [] {
      AlwaysInOrder(run[..|run| - 1]);
      AlwaysLogInv(run[..|run| - 1]);
      StepKeepsOrder(AfterLog(run[..|run| - 1]), run[|run| - 1]);
    }
  }

  // ---------- What callers rely on ----------

  /** Whatever fails and whatever is null: the lines written are logged lines, in their order and none of them twice. */
  lemma {:induction false} NoLineTwice(run: seq<LogStep>)
    requires LegalLog(run)
    ensures Within(AfterLog(run).written, Lines(AfterLog(run).logged))
  {
    var s := AfterLog(run);
    AlwaysInOrder(run);
    LinesSplit(s);
    WithinParts(s.written, InHand(s), Lines(s.logged[..s.taken]), Lines(Queue(s)));
  }

  lemma WithinParts(some: seq<string>, hand: seq<string>, all: seq<string>, rest: seq<string>)
    requires |hand| <= 1 && Within(some + hand, all)
    ensures Within(some, all + rest)
  {
    if hand == [] {
      assert some + hand == some;
    } else {
      assert hand == [hand[0]];
      WithinLess(some, hand[0], all);
    }
    WithinLonger(some, all, rest);
  }

  /**
    As long as no file operation failed: what was written, followed by the line in
    hand and the queue, is what was logged; and a queued line whose caller has
    triggered has a due execution, or a running one that has not seen the queue
    empty, or the message taken last was null.
   */
  lemma {:induction false} EveryLineOnceInOrder(run: seq<LogStep>)
    requires LegalLog(run) && AfterLog(run).failures == 0
    ensures var s := AfterLog(run);
            && s.taken <= |s.logged|
            && Lines(s.logged) == s.written + InHand(s) + Lines(Queue(s))
            && forall t: Ticket :: s.taken <= t < |s.logged| && t !in s.waiting ==>
                 s.slow.fields.next.Some? || StillDraining(s) || NullTaken(s)
  {
    AlwaysLogInv(run);
    LinesSplit(AfterLog(run));
  }

  lemma LinesSplit(s: LogState)
    requires s.taken <= |s.logged|
    ensures Lines(s.logged) == Lines(s.logged[..s.taken]) + Lines(Queue(s))
  {
    LinesConcat(s.logged[..s.taken], Queue(s));
    assert s.logged[..s.taken] + Queue(s) == s.logged;
  }

  lemma {:induction false} LinesConcat(some: seq<Message>, more: seq<Message>)
    ensures Lines(some + more) == Lines(some) + Lines(more)
  {
    if more == [] {
      assert some + more == some;
    } else {
      LinesConcat(some, more[..|more| - 1]);
      assert (some + more)[..|some + more| - 1] == some + more[..|more| - 1];
    }
  }

  /** All callers have triggered, and the worker is gone. */
  predicate Quiet(s: LogState) {
    s.waiting == {} && s.slow.workers == map[]
  }

  /**
    Once all is quiet, messages are left in the queue only behind a null that was
    taken last; what is missing in the file are the lines among them.
   */
  lemma {:induction false} AllWrittenWhenQuiet(run: seq<LogStep>)
    requires LegalLog(run) && AfterLog(run).failures == 0 && Quiet(AfterLog(run))
    ensures var s := AfterLog(run);
            && s.taken <= |s.logged|
            && (s.taken < |s.logged| ==> NullTaken(s))
            && (s.written == Lines(s.logged) <==> !(NullTaken(s) && Lines(Queue(s)) != []))
  {
    AlwaysLogInv(run);
    EveryLineOnceInOrder(run);
    var s := AfterLog(run);
    assert s.drains == map[];
    assert InHand(s) == [] && s.written + [] == s.written;
    assert !StillDraining(s);
    assert s.taken !in s.waiting;
    if s.written == Lines(s.logged) {
      assert |s.written| + |Lines(Queue(s))| == |s.written|;
    }
    if s.taken == |s.logged| {
      assert Queue(s) == [];
    }
  }

  /** Callers log no null. */
  predicate NonNull(run: seq<LogStep>) {
    forall step :: step in run && step.Log? ==> step.message.Some?
  }

  predicate FileWorks(run: seq<LogStep>) {
    forall step :: step in run && (step.OpenFile? || step.WriteLine?) ==> !step.fails
  }

  lemma {:induction false} NoFailures(run: seq<LogStep>)
    requires LegalLog(run)
    ensures FileWorks(run) ==> AfterLog(run).failures == 0
    ensures NonNull(run) ==> forall message :: message in AfterLog(run).logged ==> message.Some?
  {
    if run != [] {
      NoFailures(run[..|run| - 1]);
      assert run[|run| - 1] in run;
    }
  }

  /** If nobody logs null and the file works, then once all is quiet exactly the logged lines are in the file, in order. */
  lemma {:induction false} AllWritten(run: seq<LogStep>)
    requires LegalLog(run) && NonNull(run) && FileWorks(run) && Quiet(AfterLog(run))
    ensures AfterLog(run).written == Lines(AfterLog(run).logged)
  {
    NoFailures(run);
    AllWrittenWhenQuiet(run);
    var s := AfterLog(run);
    forall i | 0 <= i < |s.logged| ensures s.logged[i].Some? {
      assert s.logged[i] in s.logged;
    }
  }

  // ---------- A null message ----------

  /** Callers log a null before some line. */
  ghost predicate NullBeforeLine(messages: seq<Message>) {
    exists i, j :: 0 <= i < j < |messages| && messages[i].None? && messages[j].Some?
  }

  /** These messages were logged, no file operation failed, and all is quiet. */
  ghost predicate QuietRun(run: seq<LogStep>, messages: seq<Message>) {
    LegalLog(run) && AfterLog(run).failures == 0 && Quiet(AfterLog(run)) && AfterLog(run).logged == messages
  }

  /** However callers and worker interleave, exactly the logged lines are written: if and only if no null is logged before a line. */
  lemma WrittenExactly(messages: seq<Message>)
    ensures (forall run :: QuietRun(run, messages) ==> AfterLog(run).written == Lines(messages)) <==> !NullBeforeLine(messages)
  {
    if NullBeforeLine(messages) {
      var i, j :| 0 <= i < j < |messages| && messages[i].None? && messages[j].Some?;
      i := FirstNull(messages, i);
      var run := LinesBehindNullAreStranded(messages, i);
      FewerLines(messages, i, j);
      assert QuietRun(run, messages) && AfterLog(run).written != Lines(messages);
    } else {
      forall run | QuietRun(run, messages) ensures AfterLog(run).written == Lines(messages) {
        WrittenUnlessNull(run, messages);
      }
    }
  }

  lemma {:induction false} WrittenUnlessNull(run: seq<LogStep>, messages: seq<Message>)
    requires QuietRun(run, messages)
    ensures AfterLog(run).written == Lines(messages) || NullBeforeLine(messages)
  {
    AllWrittenWhenQuiet(run);
    if Lines(Queue(AfterLog(run))) != [] {
      LineBehindNull(messages, AfterLog(run).taken);
    }
  }

  lemma LineBehindNull(messages: seq<Message>, taken: nat)
    requires 0 < taken <= |messages| && messages[taken - 1].None? && Lines(messages[taken..]) != []
    ensures NullBeforeLine(messages)
  {
    var k := SomeLine(messages[taken..]);
    assert messages[taken - 1].None? && messages[taken + k].Some?;
  }

  lemma FewerLines(messages: seq<Message>, i: nat, j: nat)
    requires i <= j < |messages| && messages[j].Some?
    ensures Lines(messages[..i]) != Lines(messages)
  {
    LinesConcat(messages[..i], messages[i..]);
    assert messages[..i] + messages[i..] == messages;
    LineCounts(messages[i..], j - i);
  }

  lemma {:induction false} FirstNull(messages: seq<Message>, i: nat) returns (first: nat)
    requires i < |messages| && messages[i].None?
    ensures first <= i && messages[first].None? && forall k :: 0 <= k < first ==> messages[k].Some?
  {
    first := i;
    if k :| 0 <= k < i && messages[k].None? {
      first := FirstNull(messages, k);
    }
  }

  lemma {:induction false} SomeLine(messages: seq<Message>) returns (k: nat)
    requires Lines(messages) != []
    ensures k < |messages| && messages[k].Some?
  {
    k := |messages| - 1;
    if messages[k].None? {
      k := SomeLine(messages[..k]);
    }
  }

  lemma {:induction false} LineCounts(messages: seq<Message>, k: nat)
    requires k < |messages| && messages[k].Some?
    ensures Lines(messages) != []
  {
    if k < |messages| - 1 {
      LineCounts(messages[..|messages| - 1], k);
    }
  }

  lemma {:induction false} Extend(run: seq<LogStep>, step: LogStep) returns (longer: seq<LogStep>)
    requires LegalLog(run) && LogEnabled(AfterLog(run), step)
    ensures LegalLog(longer) && AfterLog(longer) == LogNext(AfterLog(run), step)
  {
    longer := run + [step];
    assert longer[..|run|] == run;
  }

  /** The callers from this one on have not triggered yet. */
  ghost predicate WaitingFrom(s: LogState, i: nat) {
    forall t :: t in s.waiting <==> i <= t < |s.logged|
  }

  /** All messages were logged before anyone triggered. */
  lemma {:induction false} LogAll(messages: seq<Message>) returns (run: seq<LogStep>)
    ensures LegalLog(run) && AfterLog(run) == EMPTY.(logged := messages, waiting := AfterLog(run).waiting) && WaitingFrom(AfterLog(run), 0)
  {
    run := [];
    if messages != [] {
      var last := |messages| - 1;
      run := LogAll(messages[..last]);
      LogLast(AfterLog(run), messages);
      run := Extend(run, Log(messages[last]));
    }
  }

  lemma LogLast(s: LogState, messages: seq<Message>)
    requires messages != [] && WaitingFrom(s, 0)
    requires s == EMPTY.(logged := messages[..|messages| - 1], waiting := s.waiting)
    ensures var t := LogNext(s, Log(messages[|messages| - 1]));
            t == EMPTY.(logged := messages, waiting := t.waiting) && WaitingFrom(t, 0)
  {
    assert messages[..|messages| - 1] + [messages[|messages| - 1]] == messages;
  }

  /** The first callers have triggered; they made the first of them owe a worker. */
  ghost predicate Triggering(s: LogState, messages: seq<Message>, i: nat) {
    && s.slow.fields == Fields(Some(0), Some(0), 1) && s.slow.workers == map[0 := Owed]
    && s == LogState(s.slow, map[], messages, 0, s.waiting, [], 0) && WaitingFrom(s, i)
  }

  lemma {:induction false} TriggerAll(messages: seq<Message>, i: nat) returns (run: seq<LogStep>)
    requires 0 < i <= |messages|
    ensures LegalLog(run) && Triggering(AfterLog(run), messages, i)
  {
    if i == 1 {
      run := LogAll(messages);
    } else {
      run := TriggerAll(messages, i - 1);
    }
    run := Extend(run, TriggerFlush(i - 1, if i == 1 then 0 else 1));
  }

  /** So many messages were taken by the only execution, and nobody waits to trigger. */
  ghost predicate Executing(s: LogState, messages: seq<Message>, taken: nat, drain: Drain) {
    && s.slow.fields == Fields(None, Some(0), 1) && s.slow.workers == map[0 := Running(0)]
    && s.drains == map[0 := drain] && s.logged == messages && s.taken == taken && s.waiting == {} && s.failures == 0
  }

  lemma {:induction false} BeginDraining(messages: seq<Message>) returns (run: seq<LogStep>)
    requires messages != []
    ensures LegalLog(run) && Executing(AfterLog(run), messages, 0, Draining)
  {
    run := TriggerAll(messages, |messages|);
    assert AfterLog(run).waiting == {};
    run := Extend(run, LaunchFlush(0));
    run := Extend(run, AcquireFlush(0));
    run := Extend(run, OpenFile(0, false));
  }

  lemma {:induction false} DrainLines(messages: seq<Message>, k: nat) returns (run: seq<LogStep>)
    requires messages != [] && k <= |messages| && forall i :: 0 <= i < k ==> messages[i].Some?
    ensures LegalLog(run) && Executing(AfterLog(run), messages, k, Draining)
  {
    if k == 0 {
      run := BeginDraining(messages);
    } else {
      run := DrainLines(messages, k - 1);
      assert Queue(AfterLog(run))[0] == messages[k - 1];
      run := Extend(run, TakeLine(0));
      run := Extend(run, WriteLine(0, false));
    }
  }

  /**
    A null message ends the drain loop early: if all callers trigger before the worker
    acquires, only the lines before the first null are written, and no execution is due
    for those behind it.
   */
  lemma {:induction false} LinesBehindNullAreStranded(messages: seq<Message>, i: nat) returns (run: seq<LogStep>)
    requires i < |messages| && messages[i].None? && forall k :: 0 <= k < i ==> messages[k].Some?
    ensures QuietRun(run, messages)
    ensures var s := AfterLog(run);
            s.taken == i + 1 && s.written == Lines(messages[..i]) && s.slow.fields.next == None
  {
    run := DrainLines(messages, i);
    assert Queue(AfterLog(run))[0] == None;
    run := Extend(run, TakeLine(0));
    run := EndDraining(run, messages, i + 1);
    AlwaysLogInv(run);
    WrittenBeforeNull(AfterLog(run), i);
  }

  lemma WrittenBeforeNull(s: LogState, i: nat)
    requires LogInv(s) && s.failures == 0 && s.drains == map[]
    requires s.taken == i + 1 && s.logged[i].None?
    ensures s.written == Lines(s.logged[..i])
  {
    TakeOne(s.(taken := i));
    assert InHand(s) == [] && s.written + [] == s.written;
  }

  /** The worker leaves, and finds that no other execution is due. */
  lemma {:induction false} EndDraining(drained: seq<LogStep>, messages: seq<Message>, taken: nat) returns (run: seq<LogStep>)
    requires LegalLog(drained) && Executing(AfterLog(drained), messages, taken, Leaving)
    ensures QuietRun(run, messages) && AfterLog(run).taken == taken && AfterLog(run).slow.fields.next == None
    ensures AfterLog(run).drains == map[]
  {
    run := Extend(drained, LeaveFlush(0));
    run := Extend(run, SignalFlush(0));
    run := Extend(run, AcquireFlush(0));
  }

  /** Whatever is logged, the log can become quiet without any failure: nothing above is said of no run at all. */
  lemma {:induction false} QuietRunExists(messages: seq<Message>) returns (run: seq<LogStep>)
    ensures QuietRun(run, messages)
  {
    if i: nat :| i < |messages| && messages[i].None? {
      var first := FirstNull(messages, i);
      run := LinesBehindNullAreStranded(messages, first);
    } else if messages == [] {
      run := [];
    } else {
      run := DrainLines(messages, |messages|);
      run := Extend(run, TakeLine(0));
      run := EndDraining(run, messages, |messages|);
    }
  }

  /** The line behind a null stays queued, although both callers have triggered and no execution is due or running. */
  lemma {:induction false} NullMessageStrandsLines() returns (run: seq<LogStep>)
    ensures LegalLog(run)
    ensures var s := AfterLog(run);
            && s.failures == 0 && s.taken == 1 && s.logged == [None, Some("line")] && s.written == []
            && Quiet(s) && s.slow.fields.next == None
  {
    run := LinesBehindNullAreStranded([None, Some("line")], 0);
  }

  // ---------- Bounded response ----------

  /** A step of the worker, not of a caller. */
  predicate IsWork(step: LogStep) {
    !step.Log? && !step.TriggerFlush?
  }

  /** How many steps an execution needs that finds the queue empty when it dequeues next, until its handle is set. */
  function DrainDistance(drain: Drain): nat {
    match drain
    case Opening => 4
    case Draining => 3
    case Holding(_) => 4
    case Leaving => 2
  }

  /** How many steps the worker needs, apart from two for every queued message, until it acquires the next handle. */
  function WorkerDistance(s: LogState, id: WorkerId): nat
    requires id in s.slow.workers
  {
    match s.slow.workers[id]
    case Owed => 1
    case AtTop => 0
    case Finished(_) => 1
    case Running(_) => if id in s.drains then DrainDistance(s.drains[id]) else 0
  }

  /** So many steps of the worker are enough for the handle to be set, if nothing is logged meanwhile: those of the execution that is open, and of one more unless that is the one. */
  ghost predicate WorkLeft(s: LogState, h: Handle, n: int)
    requires s.taken <= |s.logged|
  {
    WasSet(h) in s.slow.history ||
    exists id :: id in s.slow.workers && 2 * |Queue(s)| + WorkerDistance(s, id) + (if Open(s.slow.history) == Some(h) then 0 else 5) <= n
  }

  ghost predicate Awaited(s: LogState, h: Handle) {
    LogInv(s) && Promised(s.slow, h)
  }

  lemma CallerDelays(s: LogState, h: Handle, step: LogStep, n: int)
    requires Awaited(s, h) && LogEnabled(s, step) && !IsWork(step) && WorkLeft(s, h, n)
    ensures WorkLeft(LogNext(s, step), h, if step.Log? then n + 2 else n)
  {
    var t := LogNext(s, step);
    if WasSet(h) !in s.slow.history {
      var id :| id in s.slow.workers && 2 * |Queue(s)| + WorkerDistance(s, id) + (if Open(s.slow.history) == Some(h) then 0 else 5) <= n;
      if step.TriggerFlush? {
        AppendHistory(s.slow.history, Triggered(false, Decide(s.slow.fields, false).waitHandle));
      }
      assert id in t.slow.workers && WorkerDistance(t, id) == WorkerDistance(s, id);
    }
  }

  lemma SlowWorkApproaches(s: LogState, h: Handle, step: LogStep, n: int)
    requires Awaited(s, h) && LogEnabled(s, step) && (step.LaunchFlush? || step.AcquireFlush? || step.SignalFlush?)
    requires WasSet(h) !in s.slow.history && WorkLeft(s, h, n)
    ensures WorkLeft(LogNext(s, step), h, n - 1)
  {
    var t, id := LogNext(s, step), step.id;
    PromiseIsPending(s.slow, h);
    assert forall other :: other in s.slow.workers ==> other == id;
    assert PhaseAgrees(s.slow, s.slow.workers[id]);
    if step.AcquireFlush? {
      assert s.slow.fields.next == Some(h);
      AppendHistory(s.slow.history, Started(h));
    } else if step.SignalFlush? {
      AppendHistory(s.slow.history, WasSet(s.slow.workers[id].handle));
      assert WasSet(s.slow.workers[id].handle) in t.slow.history;
    }
    assert id in t.slow.workers;
  }

  lemma FlushApproaches(s: LogState, h: Handle, step: LogStep, n: int)
    requires Awaited(s, h) && LogEnabled(s, step) && (step.OpenFile? || step.TakeLine? || step.WriteLine? || step.LeaveFlush?)
    requires WasSet(h) !in s.slow.history && WorkLeft(s, h, n)
    ensures WorkLeft(LogNext(s, step), h, n - 1)
  {
    var t, id := LogNext(s, step), step.id;
    assert forall other :: other in s.slow.workers ==> other == id;
    assert id in t.slow.workers && t.slow.history == s.slow.history;
  }

  /** A message that is logged adds two steps; triggers do not delay the handle, and every step of the worker brings it closer. */
  lemma LogStepApproaches(s: LogState, h: Handle, step: LogStep, n: int)
    requires Awaited(s, h) && LogEnabled(s, step) && WorkLeft(s, h, n) && LogInv(LogNext(s, step))
    ensures Awaited(LogNext(s, step), h)
    ensures WorkLeft(LogNext(s, step), h, if step.Log? then n + 2 else if IsWork(step) then n - 1 else n)
  {
    assert s.slow.history <= LogNext(s, step).slow.history;
    if WasSet(h) !in s.slow.history {
      if !IsWork(step) {
        CallerDelays(s, h, step, n);
      } else if step.LaunchFlush? || step.AcquireFlush? || step.SignalFlush? {
        SlowWorkApproaches(s, h, step, n);
      } else {
        FlushApproaches(s, h, step, n);
      }
    }
  }

  function Work(run: seq<LogStep>): nat {
    if run == [] then 0 else Work(run[..|run| - 1]) + if IsWork(run[|run| - 1]) then 1 else 0
  }

  function Logs(run: seq<LogStep>): nat {
    if run == [] then 0 else Logs(run[..|run| - 1]) + if run[|run| - 1].Log? then 1 else 0
  }

  /** A run goes on from where the handle was given to a caller. */
  ghost predicate AwaitsFlush(before: seq<LogStep>, rest: seq<LogStep>, h: Handle) {
    LegalLog(before) && LegalLog(before + rest) && Promised(AfterLog(before).slow, h)
  }

  lemma {:induction false} LogRunApproaches(before: seq<LogStep>, rest: seq<LogStep>, h: Handle, n: int)
    requires AwaitsFlush(before, rest, h) && LogInv(AfterLog(before)) && WorkLeft(AfterLog(before), h, n)
    ensures Awaited(AfterLog(before + rest), h)
    ensures WorkLeft(AfterLog(before + rest), h, n + 2 * Logs(rest) - Work(rest))
    decreases |rest|
  {
    if rest == [] {
      assert before + rest == before;
    } else {
      var prev := rest[..|rest| - 1];
      assert (before + rest)[..|before + rest| - 1] == before + prev;
      LogRunApproaches(before, prev, h, n);
      AlwaysLogInv(before + rest);
      LogStepApproaches(AfterLog(before + prev), h, rest[|rest| - 1], n + 2 * Logs(prev) - Work(prev));
    }
  }

  /**
    Whatever is null, whatever fails and however callers interleave: the handle of a
    trigger is set after nine steps of the worker and two for every message that was
    queued or is logged meanwhile.
   */
  lemma {:induction false} LoggerResponds(before: seq<LogStep>, rest: seq<LogStep>, h: Handle)
    requires AwaitsFlush(before, rest, h)
    ensures var s := AfterLog(before);
            && s.taken <= |s.logged|
            && (Work(rest) >= 9 + 2 * |Queue(s)| + 2 * Logs(rest) ==> WasSet(h) in AfterLog(before + rest).slow.history)
  {
    AlwaysLogInv(before);
    var s := AfterLog(before);
    if WasSet(h) !in s.slow.history {
      PromiseIsPending(s.slow, h);
      var id :| id in s.slow.workers.Keys;
      assert WorkerDistance(s, id) <= 4;
    }
    var n := 9 + 2 * |Queue(s)|;
    LogRunApproaches(before, rest, h, n);
    if WasSet(h) !in AfterLog(before + rest).slow.history {
      SomeWorkLeft(AfterLog(before + rest), h, n + 2 * Logs(rest) - Work(rest));
    }
  }

  lemma SomeWorkLeft(s: LogState, h: Handle, n: int)
    requires Awaited(s, h) && WorkLeft(s, h, n) && WasSet(h) !in s.slow.history
    ensures n > 0
  {
    assert forall id :: id in s.slow.workers ==> PhaseAgrees(s.slow, s.slow.workers[id]);
  }

  /** Unless all is quiet, some caller can trigger or the worker can go on. */
  lemma LoggerIsEnabled(s: LogState)
    requires LogInv(s) && !Quiet(s)
    ensures exists step :: LogEnabled(s, step) && !step.Log?
    ensures s.slow.workers != map[] ==> exists step :: LogEnabled(s, step) && IsWork(step)
  {
    if s.slow.workers == map[] {
      var ticket :| ticket in s.waiting;
      assert LogEnabled(s, TriggerFlush(ticket, 0));
    } else {
      var id :| id in s.slow.workers.Keys;
      match s.slow.workers[id]
      case Owed => assert LogEnabled(s, LaunchFlush(id));
      case AtTop => assert LogEnabled(s, AcquireFlush(id));
      case Finished(_) => assert LogEnabled(s, SignalFlush(id));
      case Running(_) =>
        match s.drains[id]
        case Opening => assert LogEnabled(s, OpenFile(id, false));
        case Draining => assert LogEnabled(s, TakeLine(id));
        case Holding(_) => assert LogEnabled(s, WriteLine(id, false));
        case Leaving => assert LogEnabled(s, LeaveFlush(id));
    }
  }

  /** So many steps at most, of callers that trigger and of the worker, until all is quiet. */
  ghost function StepsToQuiet(s: LogState): nat
    requires s.taken <= |s.logged|
  {
    8 * |s.waiting| + 2 * |Queue(s)| + (if s.slow.fields.next.Some? then 5 else 0)
    + if exists id :: id in s.slow.workers then var id :| id in s.slow.workers; 1 + WorkerDistance(s, id) else 0
  }

  lemma SlowWorkGetsQuiet(s: LogState, step: LogStep)
    requires LogInv(s) && LogEnabled(s, step) && (step.LaunchFlush? || step.AcquireFlush? || step.SignalFlush?)
    requires LogInv(LogNext(s, step))
    ensures StepsToQuiet(LogNext(s, step)) < StepsToQuiet(s)
  {
    var t, id := LogNext(s, step), step.id;
    assert forall other :: other in s.slow.workers ==> other == id;
    assert forall other :: other in t.slow.workers ==> other == id;
    assert t.waiting == s.waiting && Queue(t) == Queue(s);
  }

  lemma FlushGetsQuiet(s: LogState, step: LogStep)
    requires LogInv(s) && LogEnabled(s, step) && (step.OpenFile? || step.TakeLine? || step.WriteLine? || step.LeaveFlush?)
    requires LogInv(LogNext(s, step))
    ensures StepsToQuiet(LogNext(s, step)) < StepsToQuiet(s)
  {
    var t, id := LogNext(s, step), step.id;
    assert forall other :: other in s.slow.workers ==> other == id;
    assert forall other :: other in t.slow.workers ==> other == id;
    assert t.waiting == s.waiting && t.slow.fields == s.slow.fields && id in t.slow.workers;
  }

  lemma TriggerGetsQuiet(s: LogState, step: LogStep)
    requires LogInv(s) && LogEnabled(s, step) && step.TriggerFlush? && LogInv(LogNext(s, step))
    ensures StepsToQuiet(LogNext(s, step)) < StepsToQuiet(s)
  {
    var t := LogNext(s, step);
    assert |t.waiting| == |s.waiting| - 1;
    if w :| w in s.slow.workers {
      assert t.slow.workers == s.slow.workers;
    }
  }

  lemma StepGetsQuiet(s: LogState, step: LogStep)
    requires LogInv(s) && LogEnabled(s, step) && !step.Log? && LogInv(LogNext(s, step))
    ensures StepsToQuiet(LogNext(s, step)) < StepsToQuiet(s)
  {
    if step.LaunchFlush? || step.AcquireFlush? || step.SignalFlush? {
      SlowWorkGetsQuiet(s, step);
    } else if IsWork(step) {
      FlushGetsQuiet(s, step);
    } else {
      TriggerGetsQuiet(s, step);
    }
  }

  lemma {:induction false} QuietApproaches(before: seq<LogStep>, rest: seq<LogStep>)
    requires LegalLog(before) && LegalLog(before + rest) && Logs(rest) == 0
    ensures LogInv(AfterLog(before)) && LogInv(AfterLog(before + rest))
    ensures |rest| + StepsToQuiet(AfterLog(before + rest)) <= StepsToQuiet(AfterLog(before))
    decreases |rest|
  {
    AlwaysLogInv(before);
    AlwaysLogInv(before + rest);
    if rest == [] {
      assert before + rest == before;
    } else {
      var prev := rest[..|rest| - 1];
      assert (before + rest)[..|before + rest| - 1] == before + prev;
      QuietApproaches(before, prev);
      StepGetsQuiet(AfterLog(before + prev), rest[|rest| - 1]);
    }
  }

  lemma QuietAtLast(s: LogState)
    requires LogInv(s) && !Quiet(s)
    ensures StepsToQuiet(s) > 0
  {
    if s.slow.workers != map[] {
      var id :| id in s.slow.workers.Keys;
    }
  }

  /** Once nothing more is logged every run becomes quiet: eight steps for every caller that has not triggered, two for every queued message and ten more are enough. */
  lemma {:induction false} BecomesQuiet(before: seq<LogStep>, rest: seq<LogStep>)
    requires LegalLog(before) && LegalLog(before + rest) && Logs(rest) == 0
    ensures var s := AfterLog(before);
            && s.taken <= |s.logged|
            && (|rest| >= 8 * |s.waiting| + 2 * |Queue(s)| + 10 ==> Quiet(AfterLog(before + rest)))
  {
    QuietApproaches(before, rest);
    var s := AfterLog(before);
    assert forall id :: id in s.slow.workers ==> WorkerDistance(s, id) <= 4;
    assert StepsToQuiet(s) <= 8 * |s.waiting| + 2 * |Queue(s)| + 10;
    if !Quiet(AfterLog(before + rest)) {
      QuietAtLast(AfterLog(before + rest));
    }
  }
}
