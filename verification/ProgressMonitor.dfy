/**
  Monitors that report progress between 0 and 1, throttled by a minimum step.  A
  monitor of several stages, and an observer, look at their own progress again only
  when a monitor below them has reported.  Progress is exact here.
 */
module ProgressMonitors {
  import opened Wrappers

  /** What a monitor remembers about its reports: the minimum step, the last report, and all of them. */
  datatype Mark = Mark(step: real, last: real, reports: seq<real>)

  datatype Monitor =
    | Linear(progress: nat, maximum: nat, mark: Mark)
    | MultiStage(stages: Stages, mark: Mark)
    | Observer(monitor: Monitor, mark: Mark)

  datatype Stages = Nil | Cons(monitor: Monitor, weight: real, rest: Stages)

  function Weighted(a: real, w: real): real {
    a * w
  }

  function Ratio(a: real, b: real): real
    requires b != 0.0
  {
    a / b
  }

  function WeightSum(stages: Stages): real {
    if stages.Nil? then 0.0 else stages.weight + WeightSum(stages.rest)
  }

  /** No progress in the tree is divided by zero. */
  predicate Defined(m: Monitor) {
    match m
    case Linear(_, maximum, _) => maximum != 0
    case MultiStage(stages, _) => WeightSum(stages) != 0.0 && DefinedStages(stages)
    case Observer(monitor, _) => Defined(monitor)
  }

  predicate DefinedStages(stages: Stages) {
    stages.Cons? ==> Defined(stages.monitor) && DefinedStages(stages.rest)
  }

  /** Weights and maxima are positive, no step is negative, and there is at least one stage. */
  predicate Proper(m: Monitor)
    ensures Proper(m) ==> Defined(m)
  {
    && m.mark.step >= 0.0
    && match m
       case Linear(_, maximum, _) => maximum > 0
       case MultiStage(stages, _) => stages.Cons? && ProperStages(stages)
       case Observer(monitor, _) => Proper(monitor)
  }

  predicate ProperStages(stages: Stages)
    ensures ProperStages(stages) ==> DefinedStages(stages) && WeightSum(stages) >= 0.0 && (stages.Cons? ==> WeightSum(stages) > 0.0)
  {
    stages.Cons? ==> stages.weight > 0.0 && Proper(stages.monitor) && ProperStages(stages.rest)
  }

  function Progress(m: Monitor): real
    requires Defined(m)
  {
    match m
    case Linear(progress, maximum, _) => Ratio(progress as real, maximum as real)
    case MultiStage(stages, _) => Ratio(WeightedSum(stages), WeightSum(stages))
    case Observer(monitor, _) => Progress(monitor)
  }

  function WeightedSum(stages: Stages): real
    requires DefinedStages(stages)
  {
    if stages.Nil? then 0.0 else Weighted(Progress(stages.monitor), stages.weight) + WeightedSum(stages.rest)
  }

  /** No leaf is beyond its maximum. */
  predicate InBounds(m: Monitor) {
    match m
    case Linear(progress, maximum, _) => progress <= maximum
    case MultiStage(stages, _) => InBoundsStages(stages)
    case Observer(monitor, _) => InBounds(monitor)
  }

  predicate InBoundsStages(stages: Stages) {
    stages.Cons? ==> InBounds(stages.monitor) && InBoundsStages(stages.rest)
  }

  /** All leaves have reached their maximum. */
  predicate Completed(m: Monitor) {
    match m
    case Linear(progress, maximum, _) => progress == maximum
    case MultiStage(stages, _) => CompletedStages(stages)
    case Observer(monitor, _) => Completed(monitor)
  }

  predicate CompletedStages(stages: Stages) {
    stages.Cons? ==> Completed(stages.monitor) && CompletedStages(stages.rest)
  }

  // ---------- Progress is a fraction ----------

  lemma Fraction(a: real, b: real)
    requires 0.0 <= a <= b && b > 0.0
    ensures 0.0 <= Ratio(a, b) <= 1.0 && (Ratio(a, b) == 1.0 <==> a == b)
  {
    assert a / b * b == a;
  }

  lemma Product(p: real, w: real)
    requires 0.0 <= p <= 1.0 && w > 0.0
    ensures 0.0 <= Weighted(p, w) <= w && (Weighted(p, w) == w <==> p == 1.0)
  {
    assert w - p * w == (1.0 - p) * w;
  }

  /** Progress lies between 0 and 1, and is 1 exactly if all leaves are complete. */
  lemma {:induction false} ProgressIsFraction(m: Monitor)
    requires Proper(m) && InBounds(m)
    ensures 0.0 <= Progress(m) <= 1.0 && (Progress(m) == 1.0 <==> Completed(m))
  {
    match m
    case Linear(progress, maximum, _) => Fraction(progress as real, maximum as real);
    case MultiStage(stages, _) => StagesAreFraction(stages); Fraction(WeightedSum(stages), WeightSum(stages));
    case Observer(monitor, _) => ProgressIsFraction(monitor);
  }

  lemma {:induction false} StagesAreFraction(stages: Stages)
    requires ProperStages(stages) && InBoundsStages(stages)
    ensures 0.0 <= WeightedSum(stages) <= WeightSum(stages)
    ensures WeightedSum(stages) == WeightSum(stages) <==> CompletedStages(stages)
  {
    if stages.Cons? {
      ProgressIsFraction(stages.monitor);
      StagesAreFraction(stages.rest);
      Product(Progress(stages.monitor), stages.weight);
    }
  }

  // ---------- Reporting ----------

  /** The mark after the progress was looked at, and whether it was reported. */
  function Register(mark: Mark, progress: real): (Mark, bool) {
    if progress < mark.last + mark.step && (progress != 1.0 || mark.last == 1.0) then (mark, false)
    else (mark.(last := progress, reports := mark.reports + [progress]), true)
  }

  /** The report before the given one; the first one is compared with 0. */
  function Before(reports: seq<real>, i: nat): real
    requires i <= |reports|
  {
    if i == 0 then 0.0 else reports[i - 1]
  }

  /** Reports rise by at least the step, or to 1. */
  ghost predicate Rises(mark: Mark) {
    && mark.last == Before(mark.reports, |mark.reports|)
    && forall i :: 0 <= i < |mark.reports| ==> RisesAt(mark, i)
  }

  ghost predicate RisesAt(mark: Mark, i: nat)
    requires i < |mark.reports|
  {
    && mark.reports[i] <= 1.0
    && (mark.reports[i] >= Before(mark.reports, i) + mark.step || (mark.reports[i] == 1.0 && Before(mark.reports, i) < 1.0))
  }

  /**
    What holds of a mark between calls, given the progress of the monitor and the part
    of it that the monitor could know about from the reports below.
   */
  ghost predicate Marked(mark: Mark, progress: real, known: real) {
    && 0.0 <= mark.last <= progress
    && (progress == 1.0 ==> mark.last == 1.0)
    && known <= mark.last + mark.step && (mark.step > 0.0 ==> known < mark.last + mark.step)
    && Rises(mark)
  }

  lemma RegisterKeepsMarked(mark: Mark, progress: real, known: real)
    requires mark.step >= 0.0 && 0.0 <= mark.last <= progress <= 1.0 && known <= progress && Rises(mark)
    ensures Marked(Register(mark, progress).0, progress, known)
  {
    var after := Register(mark, progress).0;
    if after != mark {
      forall i | 0 <= i < |after.reports| ensures RisesAt(after, i) {
        if i < |mark.reports| {
          assert RisesAt(mark, i);
        }
      }
    }
  }

  /** Which part of the progress a monitor could know about from the last reports below it. */
  function Known(m: Monitor): real
    requires Proper(m)
  {
    match m
    case Linear(_, _, _) => Progress(m)
    case MultiStage(stages, _) => Ratio(KnownSum(stages), WeightSum(stages))
    case Observer(monitor, _) => monitor.mark.last
  }

  function KnownSum(stages: Stages): real
    requires ProperStages(stages)
  {
    if stages.Nil? then 0.0 else Weighted(stages.monitor.mark.last, stages.weight) + KnownSum(stages.rest)
  }

  /** What holds of all monitors of a tree between calls. */
  ghost predicate Sound(m: Monitor) {
    && Proper(m) && InBounds(m)
    && Marked(m.mark, Progress(m), Known(m))
    && match m
       case Linear(_, _, _) => true
       case MultiStage(stages, _) => SoundStages(stages)
       case Observer(monitor, _) => Sound(monitor)
  }

  ghost predicate SoundStages(stages: Stages) {
    stages.Cons? ==> Sound(stages.monitor) && SoundStages(stages.rest)
  }

  // ---------- Registering progress at a leaf ----------

  datatype Call = Advance(points: nat) | Complete

  /** The path leads to a leaf that the call does not drive beyond its maximum. */
  predicate Allowed(m: Monitor, path: seq<nat>, call: Call) {
    match m
    case Linear(progress, maximum, _) => path == [] && (call.Advance? ==> progress + call.points <= maximum)
    case MultiStage(stages, _) => path != [] && AllowedStages(stages, path[0], path[1..], call)
    case Observer(monitor, _) => Allowed(monitor, path, call)
  }

  predicate AllowedStages(stages: Stages, index: nat, path: seq<nat>, call: Call) {
    && stages.Cons?
    && if index == 0 then Allowed(stages.monitor, path, call) else AllowedStages(stages.rest, index - 1, path, call)
  }

  /** The monitor after looking at its progress, and whether it reported. */
  function Checked(m: Monitor): (Monitor, bool)
    requires Proper(m)
  {
    var (mark, reported) := Register(m.mark, Progress(m));
    (m.(mark := mark), reported)
  }

  function CalledLeaf(m: Monitor, call: Call): Monitor
    requires m.Linear?
  {
    m.(progress := if call.Advance? then m.progress + call.points else m.maximum)
  }

  /** The monitor after a call at one of its leaves, and whether the monitor itself reported. */
  function Called(m: Monitor, path: seq<nat>, call: Call): (r: (Monitor, bool))
    requires Proper(m) && Allowed(m, path, call)
    ensures Proper(r.0)
  {
    match m
    case Linear(_, _, _) => Checked(CalledLeaf(m, call))
    case MultiStage(stages, _) =>
      var (after, reported) := CalledStages(stages, path[0], path[1..], call);
      if reported then Checked(m.(stages := after)) else (m.(stages := after), false)
    case Observer(monitor, _) =>
      var (after, reported) := Called(monitor, path, call);
      if reported then Checked(m.(monitor := after)) else (m.(monitor := after), false)
  }

  function CalledStages(stages: Stages, index: nat, path: seq<nat>, call: Call): (r: (Stages, bool))
    requires ProperStages(stages) && AllowedStages(stages, index, path, call)
    ensures ProperStages(r.0) && r.0.Cons? && WeightSum(r.0) == WeightSum(stages)
  {
    if index == 0 then
      var (after, reported) := Called(stages.monitor, path, call);
      (stages.(monitor := after), reported)
    else
      var (after, reported) := CalledStages(stages.rest, index - 1, path, call);
      (stages.(rest := after), reported)
  }

  lemma {:induction false} KnownStagesAreProgress(stages: Stages)
    requires ProperStages(stages) && SoundStages(stages)
    ensures KnownSum(stages) <= WeightedSum(stages)
  {
    if stages.Cons? {
      KnownStagesAreProgress(stages.rest);
      Scaled(stages.monitor.mark.last, Progress(stages.monitor), stages.weight);
    }
  }

  lemma RatioOfItself(x: real)
    requires x != 0.0
    ensures Ratio(x, x) == 1.0
  {
  }

  lemma Quotient(a: real, b: real, w: real)
    requires a <= b && w > 0.0
    ensures Ratio(a, w) <= Ratio(b, w)
  {
  }

  lemma Scaled(a: real, b: real, w: real)
    requires a <= b && w > 0.0
    ensures Weighted(a, w) <= Weighted(b, w)
  {
  }

  lemma RatioOfSum(a: real, b: real, w: real)
    requires w > 0.0
    ensures Ratio(a + b, w) == Ratio(a, w) + Ratio(b, w)
  {
  }

  lemma ScaledSum(a: real, b: real, c: real, w: real)
    requires a <= b + c && w > 0.0
    ensures Weighted(a, w) <= Weighted(b, w) + Weighted(c, w)
  {
    Scaled(a, b + c, w);
    assert (b + c) * w == b * w + c * w;
  }

  /** A check makes a monitor sound whose progress may have grown since the last one. */
  lemma CheckedIsSound(m: Monitor)
    requires Proper(m) && InBounds(m) && Rises(m.mark) && 0.0 <= m.mark.last <= Progress(m) && Known(m) <= Progress(m)
    requires m.MultiStage? ==> SoundStages(m.stages)
    requires m.Observer? ==> Sound(m.monitor)
    ensures Sound(Checked(m).0) && Progress(Checked(m).0) == Progress(m)
  {
    ProgressIsFraction(m);
    RegisterKeepsMarked(m.mark, Progress(m), Known(m));
  }

  /** A call keeps the whole tree sound, and no progress falls; a monitor that does not report keeps its mark. */
  lemma {:induction false} CallKeepsSound(m: Monitor, path: seq<nat>, call: Call)
    requires Sound(m) && Allowed(m, path, call)
    ensures var (n, reported) := Called(m, path, call);
            Sound(n) && Progress(n) >= Progress(m) && (!reported ==> n.mark == m.mark)
  {
    match m
    case Linear(_, _, _) =>
      var n := CalledLeaf(m, call);
      Quotient(m.progress as real, n.progress as real, m.maximum as real);
      CheckedIsSound(n);
    case MultiStage(stages, _) =>
      CallKeepsStages(stages, path[0], path[1..], call);
      var (after, reported) := CalledStages(stages, path[0], path[1..], call);
      GrownStages(m, after, reported);
    case Observer(monitor, _) =>
      CallKeepsSound(monitor, path, call);
      var (after, reported) := Called(monitor, path, call);
      if reported {
        CheckedIsSound(m.(monitor := after));
      }
  }

  lemma {:induction false} CallKeepsStages(stages: Stages, index: nat, path: seq<nat>, call: Call)
    requires ProperStages(stages) && SoundStages(stages) && AllowedStages(stages, index, path, call)
    ensures var (after, reported) := CalledStages(stages, index, path, call);
            && SoundStages(after) && InBoundsStages(after) && WeightedSum(after) >= WeightedSum(stages)
            && (!reported ==> KnownSum(after) == KnownSum(stages))
            && (!reported && CompletedStages(after) ==> CompletedStages(stages))
  {
    InBoundsIfSound(stages);
    if index == 0 {
      CallKeepsSound(stages.monitor, path, call);
      var (after, reported) := Called(stages.monitor, path, call);
      FirstGrows(stages, after, reported);
    } else {
      CallKeepsStages(stages.rest, index - 1, path, call);
    }
  }

  lemma FirstGrows(stages: Stages, after: Monitor, reported: bool)
    requires stages.Cons? && ProperStages(stages) && SoundStages(stages) && InBoundsStages(stages)
    requires Sound(after) && Progress(after) >= Progress(stages.monitor) && (!reported ==> after.mark == stages.monitor.mark)
    ensures var n := stages.(monitor := after);
            && WeightedSum(n) >= WeightedSum(stages) && InBoundsStages(n)
            && (!reported ==> KnownSum(n) == KnownSum(stages))
            && (!reported && CompletedStages(n) ==> CompletedStages(stages))
  {
    Scaled(Progress(stages.monitor), Progress(after), stages.weight);
    ProgressIsFraction(after);
    ProgressIsFraction(stages.monitor);
  }

  lemma {:induction false} InBoundsIfSound(stages: Stages)
    requires SoundStages(stages)
    ensures InBoundsStages(stages)
  {
    if stages.Cons? {
      InBoundsIfSound(stages.rest);
    }
  }

  /** Stages that have moved on without a report leave the mark as it has to be; after a report it is checked. */
  lemma GrownStages(m: Monitor, after: Stages, reported: bool)
    requires Sound(m) && m.MultiStage? && after.Cons? && ProperStages(after)
    requires SoundStages(after) && InBoundsStages(after)
    requires WeightSum(after) == WeightSum(m.stages) && WeightedSum(after) >= WeightedSum(m.stages)
    requires !reported ==> KnownSum(after) == KnownSum(m.stages) && (CompletedStages(after) ==> CompletedStages(m.stages))
    ensures var n := m.(stages := after);
            Proper(n) && Progress(n) >= Progress(m) && Sound(if reported then Checked(n).0 else n)
    ensures reported ==> Progress(Checked(m.(stages := after)).0) == Progress(m.(stages := after))
  {
    var n := m.(stages := after);
    Quotient(WeightedSum(m.stages), WeightedSum(after), WeightSum(after));
    if reported {
      KnownStagesAreProgress(after);
      Quotient(KnownSum(after), WeightedSum(after), WeightSum(after));
      CheckedIsSound(n);
    } else {
      ProgressIsFraction(n);
      ProgressIsFraction(m);
    }
  }

  // ---------- What one call does ----------

  /** By how much a call at a leaf raises the progress of the monitor: by what it raises the leaf, times the share of each stage on the way. */
  function Rise(m: Monitor, path: seq<nat>, call: Call): real
    requires Proper(m) && Allowed(m, path, call)
  {
    match m
    case Linear(progress, maximum, _) => Ratio((if call.Advance? then call.points else maximum - progress) as real, maximum as real)
    case MultiStage(stages, _) => Ratio(RiseOfStage(stages, path[0], path[1..], call), WeightSum(stages))
    case Observer(monitor, _) => Rise(monitor, path, call)
  }

  function RiseOfStage(stages: Stages, index: nat, path: seq<nat>, call: Call): real
    requires ProperStages(stages) && AllowedStages(stages, index, path, call)
  {
    if index == 0 then Weighted(Rise(stages.monitor, path, call), stages.weight) else RiseOfStage(stages.rest, index - 1, path, call)
  }

  lemma WeightedTotal(a: real, b: real, w: real)
    ensures Weighted(a + b, w) == Weighted(a, w) + Weighted(b, w)
  {
  }

  /** Other stages and reports make no difference to what a call adds to the progress. */
  lemma {:induction false} CallRaisesProgress(m: Monitor, path: seq<nat>, call: Call)
    requires Proper(m) && Allowed(m, path, call)
    ensures Progress(Called(m, path, call).0) == Progress(m) + Rise(m, path, call)
  {
    match m
    case Linear(progress, maximum, _) =>
      var n := CalledLeaf(m, call);
      assert n.progress as real == progress as real + (n.progress - progress) as real;
      RatioOfSum(progress as real, (n.progress - progress) as real, maximum as real);
    case MultiStage(stages, _) =>
      CallRaisesStages(stages, path[0], path[1..], call);
      RatioOfSum(WeightedSum(stages), RiseOfStage(stages, path[0], path[1..], call), WeightSum(stages));
    case Observer(monitor, _) => CallRaisesProgress(monitor, path, call);
  }

  lemma {:induction false} CallRaisesStages(stages: Stages, index: nat, path: seq<nat>, call: Call)
    requires ProperStages(stages) && AllowedStages(stages, index, path, call)
    ensures WeightedSum(CalledStages(stages, index, path, call).0) == WeightedSum(stages) + RiseOfStage(stages, index, path, call)
  {
    if index == 0 {
      CallRaisesProgress(stages.monitor, path, call);
      WeightedTotal(Progress(stages.monitor), Rise(stages.monitor, path, call), stages.weight);
    } else {
      CallRaisesStages(stages.rest, index - 1, path, call);
    }
  }

  // ---------- Runs ----------

  /** The monitors after a run of calls at leaves; None if a call would drive a leaf beyond its maximum. */
  function After(m: Monitor, calls: seq<(seq<nat>, Call)>): (r: Option<Monitor>)
    requires Proper(m)
    ensures r.Some? ==> Proper(r.value)
  {
    if calls == [] then Some(m)
    else match After(m, calls[..|calls| - 1])
      case None => None
      case Some(n) =>
        var (path, call) := calls[|calls| - 1];
        if Allowed(n, path, call) then Some(Called(n, path, call).0) else None
  }

  /** Nothing has happened yet. */
  predicate Initial(m: Monitor) {
    && m.mark.last == 0.0 && m.mark.reports == []
    && match m
       case Linear(progress, _, _) => progress == 0
       case MultiStage(stages, _) => InitialStages(stages)
       case Observer(monitor, _) => Initial(monitor)
  }

  predicate InitialStages(stages: Stages) {
    stages.Cons? ==> Initial(stages.monitor) && InitialStages(stages.rest)
  }

  lemma {:induction false} InitialIsSound(m: Monitor)
    requires Proper(m) && Initial(m)
    ensures Sound(m) && Progress(m) == 0.0
  {
    match m
    case Linear(_, _, _) =>
    case MultiStage(stages, _) => InitialStagesAreSound(stages);
    case Observer(monitor, _) => InitialIsSound(monitor);
  }

  lemma {:induction false} InitialStagesAreSound(stages: Stages)
    requires ProperStages(stages) && InitialStages(stages)
    ensures SoundStages(stages) && InBoundsStages(stages) && WeightedSum(stages) == 0.0 && KnownSum(stages) == 0.0
  {
    if stages.Cons? {
      InitialIsSound(stages.monitor);
      InitialStagesAreSound(stages.rest);
    }
  }

  lemma {:induction false} AlwaysSound(m: Monitor, calls: seq<(seq<nat>, Call)>)
    requires Proper(m) && Initial(m) && After(m, calls).Some?
    ensures Sound(After(m, calls).value)
  {
    if calls == [] {
      InitialIsSound(m);
    } else {
      AlwaysSound(m, calls[..|calls| - 1]);
      var (path, call) := calls[|calls| - 1];
      CallKeepsSound(After(m, calls[..|calls| - 1]).value, path, call);
    }
  }

  // ---------- What every monitor of the tree keeps to ----------

  /** The monitors of a tree. */
  ghost predicate Within(part: Monitor, m: Monitor) {
    || part == m
    || match m
       case Linear(_, _, _) => false
       case MultiStage(stages, _) => WithinStages(part, stages)
       case Observer(monitor, _) => Within(part, monitor)
  }

  ghost predicate WithinStages(part: Monitor, stages: Stages) {
    stages.Cons? && (Within(part, stages.monitor) || WithinStages(part, stages.rest))
  }

  lemma {:induction false} PartsAreSound(part: Monitor, m: Monitor)
    requires Sound(m) && Within(part, m)
    ensures Sound(part)
  {
    if part != m {
      match m
      case MultiStage(stages, _) => StagePartsAreSound(part, stages);
      case Observer(monitor, _) => PartsAreSound(part, monitor);
    }
  }

  lemma {:induction false} StagePartsAreSound(part: Monitor, stages: Stages)
    requires SoundStages(stages) && WithinStages(part, stages)
    ensures Sound(part)
  {
    if Within(part, stages.monitor) {
      PartsAreSound(part, stages.monitor);
    } else {
      StagePartsAreSound(part, stages.rest);
    }
  }

  /** Apart from the last one, the reports are at least as many steps above 0 as there are. */
  lemma {:induction false} ReportsClimb(mark: Mark, i: nat)
    requires mark.step > 0.0 && Rises(mark) && i < |mark.reports| - 1
    ensures mark.reports[i] >= Before(mark.reports, i) + mark.step && mark.reports[i] < 1.0
    ensures mark.reports[i] >= (i + 1) as real * mark.step
  {
    assert RisesAt(mark, i) && RisesAt(mark, i + 1);
    if i > 0 {
      ReportsClimb(mark, i - 1);
    }
    assert (i + 1) as real * mark.step == i as real * mark.step + mark.step;
  }

  lemma ReportsAreFew(mark: Mark)
    requires mark.step > 0.0 && Rises(mark)
    ensures |mark.reports| <= (1.0 / mark.step).Floor + 1
  {
    if |mark.reports| > 1 {
      var n := |mark.reports| - 1;
      ReportsClimb(mark, n - 1);
      Quotient(n as real * mark.step, 1.0, mark.step);
      assert n as real * mark.step / mark.step == n as real;
    } else {
      Quotient(0.0, 1.0, mark.step);
    }
  }

  lemma {:induction false} OneIsLast(mark: Mark)
    requires mark.step > 0.0 && Rises(mark)
    ensures multiset(mark.reports)[1.0] == if mark.reports != [] && mark.last == 1.0 then 1 else 0
  {
    if mark.reports != [] {
      var init := mark.reports[..|mark.reports| - 1];
      assert mark.reports == init + [mark.last];
      forall i | 0 <= i < |init| ensures init[i] != 1.0 {
        ReportsClimb(mark, i);
      }
      assert 1.0 !in init;
    }
  }

  /** How far the progress of a monitor may be ahead of its last report. */
  function Slack(m: Monitor): real
    requires Proper(m)
  {
    match m
    case Linear(_, _, mark) => mark.step
    case MultiStage(stages, mark) => mark.step + Ratio(SlackSum(stages), WeightSum(stages))
    case Observer(monitor, mark) => mark.step + Slack(monitor)
  }

  function SlackSum(stages: Stages): real
    requires ProperStages(stages)
  {
    if stages.Nil? then 0.0 else Weighted(Slack(stages.monitor), stages.weight) + SlackSum(stages.rest)
  }

  lemma {:induction false} LastIsRecent(m: Monitor)
    requires Sound(m)
    ensures Progress(m) <= m.mark.last + Slack(m) && (m.mark.step > 0.0 ==> Progress(m) < m.mark.last + Slack(m))
  {
    match m
    case Linear(_, _, _) =>
    case MultiStage(stages, _) =>
      StagesAreRecent(stages);
      Quotient(WeightedSum(stages), KnownSum(stages) + SlackSum(stages), WeightSum(stages));
      RatioOfSum(KnownSum(stages), SlackSum(stages), WeightSum(stages));
    case Observer(monitor, _) => LastIsRecent(monitor);
  }

  lemma {:induction false} StagesAreRecent(stages: Stages)
    requires ProperStages(stages) && SoundStages(stages)
    ensures WeightedSum(stages) <= KnownSum(stages) + SlackSum(stages)
  {
    if stages.Cons? {
      LastIsRecent(stages.monitor);
      StagesAreRecent(stages.rest);
      ScaledSum(Progress(stages.monitor), stages.monitor.mark.last, Slack(stages.monitor), stages.weight);
    }
  }

  /** What a monitor has reported, and how recently. */
  ghost predicate KeepsItsStep(m: Monitor)
    requires Proper(m)
  {
    var mark := m.mark;
    && (forall i :: 0 <= i < |mark.reports| - 1 ==> mark.reports[i] >= Before(mark.reports, i) + mark.step)
    && (mark.reports != [] ==> mark.last >= Before(mark.reports, |mark.reports| - 1))
    && (Completed(m) <==> mark.last == 1.0)
    && Progress(m) <= mark.last + Slack(m)
    && (mark.step > 0.0 ==>
          && (mark.reports != [] ==> mark.last > Before(mark.reports, |mark.reports| - 1))
          && |mark.reports| <= (1.0 / mark.step).Floor + 1
          && multiset(mark.reports)[1.0] == (if Completed(m) then 1 else 0)
          && Progress(m) < mark.last + Slack(m))
  }

  /**
    After every run from the beginning, for every monitor of the tree: all reports but
    the last one rise by at least the step; the last one is 1 exactly if all leaves below
    are complete; and the progress is ahead of it by no more than the step and the mean
    of what may go unreported below.  With a positive step there are also at most so many
    reports as steps fit into 1, and one more; and 1 has been reported exactly once if all
    leaves below are complete, and not at all otherwise.
   */
  lemma EveryMonitorKeepsItsStep(m: Monitor, calls: seq<(seq<nat>, Call)>, part: Monitor)
    requires Proper(m) && Initial(m) && After(m, calls).Some? && Within(part, After(m, calls).value)
    ensures Proper(part) && KeepsItsStep(part)
  {
    AlwaysSound(m, calls);
    PartsAreSound(part, After(m, calls).value);
    SoundKeepsStep(part);
  }

  lemma SoundKeepsStep(m: Monitor)
    requires Sound(m)
    ensures KeepsItsStep(m)
  {
    var mark := m.mark;
    ProgressIsFraction(m);
    LastIsRecent(m);
    forall i | 0 <= i < |mark.reports| - 1 ensures mark.reports[i] >= Before(mark.reports, i) + mark.step {
      assert RisesAt(mark, i) && RisesAt(mark, i + 1);
    }
    if mark.reports != [] {
      assert RisesAt(mark, |mark.reports| - 1);
    }
    if mark.step > 0.0 {
      ReportsAreFew(mark);
      OneIsLast(mark);
    }
  }

  // ---------- How often completion is reported ----------

  /** All monitors from the root down to the leaf have a minimum step of 0. */
  predicate Eager(m: Monitor, path: seq<nat>) {
    && m.mark.step == 0.0
    && match m
       case Linear(_, _, _) => true
       case MultiStage(stages, _) => path != [] && EagerStages(stages, path[0], path[1..])
       case Observer(monitor, _) => Eager(monitor, path)
  }

  predicate EagerStages(stages: Stages, index: nat, path: seq<nat>) {
    && stages.Cons?
    && if index == 0 then Eager(stages.monitor, path) else EagerStages(stages.rest, index - 1, path)
  }

  /** What has been completed stays so. */
  lemma CompletedStays(m: Monitor, path: seq<nat>, call: Call)
    requires Sound(m) && Allowed(m, path, call) && Completed(m)
    ensures Completed(Called(m, path, call).0)
  {
    CallKeepsSound(m, path, call);
    ProgressIsFraction(m);
    ProgressIsFraction(Called(m, path, call).0);
  }

  /** A monitor at 1 that has reported 1 reports it again exactly if its step is 0. */
  lemma CheckedCompleted(m: Monitor)
    requires Proper(m) && InBounds(m) && Completed(m) && m.mark.last == 1.0
    ensures Checked(m).1 <==> m.mark.step == 0.0
    ensures Checked(m).0.mark.reports == m.mark.reports + if m.mark.step == 0.0 then [1.0] else []
  {
    ProgressIsFraction(m);
  }

  /** In a completed tree, a call makes the root report completion again exactly if no monitor on the path has a positive step. */
  lemma {:induction false} CompletedReportsExactly(m: Monitor, path: seq<nat>, call: Call)
    requires Sound(m) && Completed(m) && Allowed(m, path, call)
    ensures var (n, reported) := Called(m, path, call);
            (reported <==> Eager(m, path)) && n.mark.reports == m.mark.reports + if Eager(m, path) then [1.0] else []
  {
    ProgressIsFraction(m);
    match m
    case Linear(_, _, _) =>
      CheckedCompleted(CalledLeaf(m, call));
    case MultiStage(stages, _) =>
      CompletedStagesReport(stages, path[0], path[1..], call);
      var (after, reported) := CalledStages(stages, path[0], path[1..], call);
      if reported {
        CheckedCompleted(m.(stages := after));
      }
    case Observer(monitor, _) =>
      CompletedReportsExactly(monitor, path, call);
      CompletedStays(monitor, path, call);
      CallKeepsSound(monitor, path, call);
      var (after, reported) := Called(monitor, path, call);
      if reported {
        CheckedCompleted(m.(monitor := after));
      }
  }

  lemma {:induction false} CompletedStagesReport(stages: Stages, index: nat, path: seq<nat>, call: Call)
    requires ProperStages(stages) && SoundStages(stages) && CompletedStages(stages) && AllowedStages(stages, index, path, call)
    ensures var (after, reported) := CalledStages(stages, index, path, call);
            (reported <==> EagerStages(stages, index, path)) && CompletedStages(after) && InBoundsStages(after)
  {
    InBoundsIfSound(stages);
    if index == 0 {
      CompletedReportsExactly(stages.monitor, path, call);
      CompletedStays(stages.monitor, path, call);
      CallKeepsSound(stages.monitor, path, call);
    } else {
      CompletedStagesReport(stages.rest, index - 1, path, call);
    }
  }

  /** If all minimum steps on the way are 0, every call makes the root report the progress that it leads to. */
  lemma {:induction false} EagerReportsAlways(m: Monitor, path: seq<nat>, call: Call)
    requires Sound(m) && Allowed(m, path, call) && Eager(m, path)
    ensures var (n, reported) := Called(m, path, call);
            reported && n.mark.reports == m.mark.reports + [Progress(n)]
  {
    CallKeepsSound(m, path, call);
    match m
    case Linear(_, _, _) =>
    case MultiStage(stages, _) => EagerStageReports(stages, path[0], path[1..], call);
    case Observer(monitor, _) => EagerReportsAlways(monitor, path, call);
  }

  lemma {:induction false} EagerStageReports(stages: Stages, index: nat, path: seq<nat>, call: Call)
    requires ProperStages(stages) && SoundStages(stages) && AllowedStages(stages, index, path, call) && EagerStages(stages, index, path)
    ensures CalledStages(stages, index, path, call).1
  {
    if index == 0 {
      EagerReportsAlways(stages.monitor, path, call);
    } else {
      EagerStageReports(stages.rest, index - 1, path, call);
    }
  }

  /** How many calls of the run found the tree completed and nothing on their way that holds a report back. */
  function Repeats(m: Monitor, calls: seq<(seq<nat>, Call)>): nat
    requires Proper(m) && After(m, calls).Some?
  {
    if calls == [] then 0
    else
      var prev := calls[..|calls| - 1];
      var (path, _) := calls[|calls| - 1];
      Repeats(m, prev) + if Completed(After(m, prev).value) && Eager(After(m, prev).value, path) then 1 else 0
  }

  /** A call that does not complete the tree adds no report of completion; one that does adds one. */
  lemma FirstCompletion(m: Monitor, path: seq<nat>, call: Call)
    requires Sound(m) && !Completed(m) && Allowed(m, path, call)
    ensures var n := Called(m, path, call).0;
            multiset(n.mark.reports)[1.0] == multiset(m.mark.reports)[1.0] + if Completed(n) then 1 else 0
  {
    var n := Called(m, path, call).0;
    CallKeepsSound(m, path, call);
    ProgressIsFraction(m);
    ProgressIsFraction(n);
    OneReportAtMost(m, path, call);
  }

  /** A call adds one report at most, which is the progress that it leads to. */
  lemma OneReportAtMost(m: Monitor, path: seq<nat>, call: Call)
    requires Sound(m) && Allowed(m, path, call)
    ensures var n := Called(m, path, call).0;
            && (n.mark == m.mark || (n.mark.last == Progress(n) && n.mark.reports == m.mark.reports + [Progress(n)]))
  {
    match m
    case MultiStage(stages, _) =>
      CallKeepsStages(stages, path[0], path[1..], call);
    case _ =>
  }

  /**
    How often the root of a tree reports completion in a run from the beginning: once
    when all leaves are complete, and once more for every later call on a path without a
    positive step.  So it does so exactly once if and only if there is no such call.
   */
  lemma {:induction false} CompletionCount(m: Monitor, calls: seq<(seq<nat>, Call)>)
    requires Proper(m) && Initial(m) && After(m, calls).Some?
    ensures var n, ones := After(m, calls).value, multiset(After(m, calls).value.mark.reports)[1.0];
            && ones == Repeats(m, calls) + (if Completed(n) then 1 else 0)
            && (ones == 1 <==> Completed(n) && Repeats(m, calls) == 0)
  {
    if calls == [] {
      InitialIsSound(m);
      ProgressIsFraction(m);
    } else {
      var prev := calls[..|calls| - 1];
      var (path, call) := calls[|calls| - 1];
      var before := After(m, prev).value;
      CompletionCount(m, prev);
      AlwaysSound(m, prev);
      if Completed(before) {
        CompletedReportsExactly(before, path, call);
        CompletedStays(before, path, call);
      } else {
        FirstCompletion(before, path, call);
      }
    }
  }

  /** With the default step of 0, completing a leaf twice reports completion twice. */
  lemma DefaultStepRepeatsCompletion()
    ensures var m := Linear(0, 1, Mark(0.0, 0.0, []));
            var calls: seq<(seq<nat>, Call)> := [([], Complete), ([], Complete)];
            Proper(m) && Initial(m) && After(m, calls).Some? && After(m, calls).value.mark.reports == [1.0, 1.0]
  {
    var m := Linear(0, 1, Mark(0.0, 0.0, []));
    var once, twice: seq<(seq<nat>, Call)> := [([], Complete)], [([], Complete), ([], Complete)];
    var completed := Linear(1, 1, Mark(0.0, 1.0, [1.0]));
    assert once[..0] == [] && twice[..1] == once;
    assert Progress(completed) == 1.0;
    assert Called(m, [], Complete).0.mark == completed.mark;
    assert After(m, once) == Some(completed);
    assert Called(completed, [], Complete).0.mark.reports == [1.0] + [1.0];
  }

  // ---------- Quotients of the platform ----------

  /** A quotient: a number, or what dividing by zero yields. */
  datatype Double = Number(value: real) | NotANumber | Infinite(positive: bool)

  function Divided(a: int, b: int): Double {
    if b != 0 then Number(Ratio(a as real, b as real)) else if a == 0 then NotANumber else Infinite(a > 0)
  }

  predicate Less(a: Double, b: Double) {
    match (a, b)
    case (Number(x), Number(y)) => x < y
    case (Number(_), Infinite(positive)) => positive
    case (Infinite(positive), Number(_)) => !positive
    case (Infinite(positive), Infinite(other)) => !positive && other
    case _ => false
  }

  function Plus(a: Double, step: real): Double {
    if a.Number? then Number(a.value + step) else a
  }

  /** What a monitor remembers, when its progress need not be a number. */
  datatype Memory = Memory(step: real, last: Double, reports: seq<Double>)

  function Looked(l: Memory, progress: Double): Memory {
    if Less(progress, Plus(l.last, l.step)) && (progress != Number(1.0) || l.last == Number(1.0)) then l
    else l.(last := progress, reports := l.reports + [progress])
  }

  function Numbers(reports: seq<real>): seq<Double> {
    seq(|reports|, i requires 0 <= i < |reports| => Number(reports[i]))
  }

  function MemoryOf(mark: Mark): Memory {
    Memory(mark.step, Number(mark.last), Numbers(mark.reports))
  }

  /** As long as progress is a number, monitors work as in the trees above. */
  lemma LookedIsRegister(mark: Mark, progress: real)
    ensures Looked(MemoryOf(mark), Number(progress)) == MemoryOf(Register(mark, progress).0)
  {
    assert Numbers(mark.reports + [progress]) == Numbers(mark.reports) + [Number(progress)];
  }

  /** With a maximum of 0 every look is reported, whatever the step, and completion is not. */
  lemma EmptyMonitorReportsAlways(l: Memory, progress: nat)
    ensures var after := Looked(l, Divided(progress, 0));
            && after.reports == l.reports + [after.last]
            && after.last == (if progress == 0 then NotANumber else Infinite(true))
  {
  }

  // ---------- The monitors themselves ----------

  class LinearProgressMonitor {
    var minimumStep: real
    var lastProgress: Double
    var progress: int
    const maximumProgress: int
    /** The values that were reported to the subscribers. */
    var reports: seq<Double>

    constructor (maximumProgress: int)
      ensures this.maximumProgress == maximumProgress && progress == 0
      ensures View() == Memory(0.0, Number(0.0), [])
    {
      this.maximumProgress := maximumProgress;
      minimumStep, lastProgress, progress, reports := 0.0, Number(0.0), 0, [];
    }

    function View(): Memory
      reads this
    {
      Memory(minimumStep, lastProgress, reports)
    }

    function Fraction(): Double
      reads this
    {
      Divided(progress, maximumProgress)
    }

    /** The object is the given leaf of a tree. */
    ghost predicate Represents(leaf: Monitor)
      reads this
    {
      leaf.Linear? && leaf.progress == progress && leaf.maximum == maximumProgress && MemoryOf(leaf.mark) == View()
    }

    /** Reports the progress if it has grown by the minimum step, or reached 1 for the first time. */
    method RegisterProgessChange()
      modifies this`lastProgress, this`reports
      ensures View() == Looked(old(View()), Fraction())
    {
      if Less(Fraction(), Plus(lastProgress, minimumStep)) {
        if Fraction() != Number(1.0) || lastProgress == Number(1.0) {
          return;
        }
      }
      lastProgress := Fraction();
      reports := reports + [Fraction()];
    }

    method Advance(points: int)
      modifies this`progress, this`lastProgress, this`reports
      ensures progress == old(progress) + points
      ensures View() == Looked(old(View()), Fraction())
      ensures points >= 0 ==> forall leaf :: old(Represents(leaf)) && Proper(leaf) ==>
                Represents(Checked(CalledLeaf(leaf, Call.Advance(points))).0)
    {
      progress := progress + points;
      RegisterProgessChange();
      if points >= 0 {
        forall leaf | old(Represents(leaf)) && Proper(leaf) ensures Represents(Checked(CalledLeaf(leaf, Call.Advance(points))).0) {
          LookedIsRegister(leaf.mark, Progress(CalledLeaf(leaf, Call.Advance(points))));
        }
      }
    }

    method Complete()
      modifies this`progress, this`lastProgress, this`reports
      ensures progress == maximumProgress
      ensures lastProgress == if maximumProgress == 0 then NotANumber else Number(1.0)
      ensures View() == Looked(old(View()), Fraction())
      ensures forall leaf :: old(Represents(leaf)) && Proper(leaf) ==> Represents(Checked(CalledLeaf(leaf, Call.Complete)).0)
    {
      progress := maximumProgress;
      if maximumProgress != 0 {
        RatioOfItself(maximumProgress as real);
      }
      RegisterProgessChange();
      forall leaf | old(Represents(leaf)) && Proper(leaf) ensures Represents(Checked(CalledLeaf(leaf, Call.Complete)).0) {
        LookedIsRegister(leaf.mark, Progress(CalledLeaf(leaf, Call.Complete)));
      }
    }
  }

  /** The sum that the constructor of a multi-stage monitor keeps; None where it throws. */
  method SumWeights(stages: Stages) returns (sum: Option<real>)
    ensures sum == if WeightSum(stages) == 0.0 then None else Some(WeightSum(stages))
  {
    var rest, total := stages, 0.0;
    while rest.Cons?
      decreases rest
      invariant total + WeightSum(rest) == WeightSum(stages)
    {
      total, rest := total + rest.weight, rest.rest;
    }
    sum := if total == 0.0 then None else Some(total);
  }

  /** The progress of a multi-stage monitor: the weighted mean of the progress of its stages. */
  method MultiStageProgress(m: Monitor) returns (progress: real)
    requires Defined(m) && m.MultiStage?
    ensures progress == Progress(m)
  {
    var rest, p := m.stages, 0.0;
    while rest.Cons?
      decreases rest
      invariant DefinedStages(rest) && p + WeightedSum(rest) == WeightedSum(m.stages)
    {
      p, rest := p + Weighted(Progress(rest.monitor), rest.weight), rest.rest;
    }
    progress := p / WeightSum(m.stages);
  }
}
