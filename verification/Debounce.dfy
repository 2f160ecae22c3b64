// The debounced trigger of the config applier, as a state machine over its
// interleavings: internal/services/singbox/apply.go. Any number of mutators
// commit a change and then trigger; one worker waits for a quiet period and
// applies; other callers may apply at any time under the same mutex.
module Debounce {
  const DEBOUNCE: real := 0.8

  datatype Stage =
    | Idle
    | Quiet(deadline: real) // a trigger was taken; the timer is running
    | Due                   // the timer fired; waiting for the mutex
    | Applying

  datatype Holder = Free | HeldByWorker | HeldByOther

  datatype State = State(
    now: real,
    commits: nat,           // changes committed so far, numbered from 1
    untriggered: set<nat>,  // committed changes whose Trigger has not returned yet
    slot: bool,             // the one-element channel is full
    stage: Stage,
    holder: Holder,
    covered: nat,           // the changes that were committed when the last render started
    live: nat,              // the changes the installed config is known to contain
    lastOk: bool,           // whether the last finished apply installed its config
    lastTake: real,         // when the worker last took a trigger
    renderedAt: real)       // when the worker last started a render

  datatype Step =
    | Commit
    | Trigger(change: nat)
    | Take
    | Retake
    | Fire
    | WorkerRenders
    | WorkerEnds(ok: bool)
    | OtherRenders
    | OtherEnds(ok: bool)
    | Pass(d: real)

  ghost predicate Init(s: State) {
    && s.commits == 0 && s.untriggered == {} && !s.slot && s.stage == Idle && s.holder == Free
    && s.covered == 0 && s.live == 0 && s.lastOk
    && s.lastTake == s.renderedAt - DEBOUNCE && s.renderedAt <= s.now
  }

  // Time does not pass while the worker can act: a full slot, an expired timer
  // or a free mutex it waits for.
  predicate MayPass(s: State, d: real) {
    && d > 0.0
    && !(s.stage.Idle? && s.slot)
    && !(s.stage.Quiet? && (s.slot || s.now + d > s.stage.deadline))
    && !(s.stage.Due? && s.holder.Free?)
  }

  predicate Enabled(s: State, step: Step) {
    match step
    case Commit => true
    case Trigger(change) => change in s.untriggered
    case Take => s.stage.Idle? && s.slot
    case Retake => s.stage.Quiet? && s.slot
    case Fire => s.stage.Quiet? && s.now >= s.stage.deadline
    case WorkerRenders => s.stage.Due? && s.holder.Free?
    case WorkerEnds(_) => s.stage.Applying?
    case OtherRenders => s.holder.Free?
    case OtherEnds(_) => s.holder.HeldByOther?
    case Pass(d) => MayPass(s, d)
  }

  // A render reads the database after it has started, so it sees every change
  // committed before.
  function Do(s: State, step: Step): State {
    match step
    case Commit => s.(commits := s.commits + 1, untriggered := s.untriggered + {s.commits + 1})
    case Trigger(change) => s.(slot := true, untriggered := s.untriggered - {change})
    case Take => s.(slot := false, stage := Quiet(s.now + DEBOUNCE), lastTake := s.now)
    case Retake => s.(slot := false, stage := Quiet(s.now + DEBOUNCE), lastTake := s.now)
    case Fire => s.(stage := Due)
    case WorkerRenders => s.(stage := Applying, holder := HeldByWorker, covered := s.commits, renderedAt := s.now)
    case WorkerEnds(ok) => s.(stage := Idle, holder := Free, live := if ok then s.covered else s.live, lastOk := ok)
    case OtherRenders => s.(holder := HeldByOther, covered := s.commits)
    case OtherEnds(ok) => s.(holder := Free, live := if ok then s.covered else s.live, lastOk := ok)
    case Pass(d) => s.(now := s.now + d)
  }

  ghost predicate Run(ss: seq<State>, steps: seq<Step>) {
    && |ss| == |steps| + 1
    && Init(ss[0])
    && forall i :: 0 <= i < |steps| ==> Enabled(ss[i], steps[i]) && ss[i + 1] == Do(ss[i], steps[i])
  }

  predicate Awaited(s: State) {
    s.slot || s.stage.Quiet? || s.stage.Due?
  }

  ghost predicate Inv(s: State) {
    && (forall m :: m in s.untriggered ==> 1 <= m <= s.commits)
    && (forall m :: 1 <= m <= s.commits && m !in s.untriggered ==> m <= s.covered || Awaited(s))
    && s.live <= s.covered <= s.commits
    && (s.stage.Applying? <==> s.holder.HeldByWorker?)
    && (s.holder.Free? && s.lastOk ==> s.live == s.covered)
  }

  lemma {:induction false} StepKeepsInv(s: State, step: Step)
    requires Inv(s) && Enabled(s, step)
    ensures Inv(Do(s, step))
  {
  }

  lemma {:induction false} RunStep(ss: seq<State>, steps: seq<Step>, i: nat)
    requires Run(ss, steps) && i < |steps|
    ensures |ss| == |steps| + 1 && Enabled(ss[i], steps[i]) && ss[i + 1] == Do(ss[i], steps[i])
  {
    hide Enabled, Do, Init;
  }

  lemma {:induction false} InvAlways(ss: seq<State>, steps: seq<Step>, i: nat)
    requires Run(ss, steps) && i < |ss|
    ensures Inv(ss[i])
  {
    if i > 0 {
      InvAlways(ss, steps, i - 1);
      StepKeepsInv(ss[i - 1], steps[i - 1]);
    }
  }

  // No lost update: in every interleaving, a change whose Trigger has returned
  // was committed before some render started, or a render is still to come: the
  // slot is full, the worker is in its quiet window, or it waits for the mutex.
  lemma {:induction false} NoLostUpdate(ss: seq<State>, steps: seq<Step>, i: nat, change: nat)
    requires Run(ss, steps) && i < |ss|
    requires 1 <= change <= ss[i].commits && change !in ss[i].untriggered
    ensures change <= ss[i].covered || ss[i].slot || ss[i].stage.Quiet? || ss[i].stage.Due?
  {
    InvAlways(ss, steps, i);
  }

  // Nothing is going on and nothing is asked for.
  predicate Quiescent(s: State) {
    s.untriggered == {} && !s.slot && s.stage.Idle? && s.holder.Free?
  }

  // When everything has settled, the last render covers every change, and the
  // installed config contains them all if the last apply succeeded.
  lemma {:induction false} SettledIsCurrent(ss: seq<State>, steps: seq<Step>, i: nat)
    requires Run(ss, steps) && i < |ss| && Quiescent(ss[i])
    ensures ss[i].covered == ss[i].commits
    ensures ss[i].lastOk ==> ss[i].live == ss[i].commits
  {
    InvAlways(ss, steps, i);
    var s := ss[i];
    if s.commits > 0 {
      assert s.commits !in s.untriggered;
    }
  }

  predicate Installs(step: Step) {
    (step.WorkerEnds? || step.OtherEnds?) && step.ok
  }

  // Some apply up to here that succeeded had rendered every change there is by now.
  ghost predicate Installed(ss: seq<State>, steps: seq<Step>, i: nat)
    requires |ss| == |steps| + 1 && i < |ss|
  {
    exists j :: 0 <= j < i && Installs(steps[j]) && ss[j].covered >= ss[i].commits
  }

  lemma {:induction false} LiveStep(ss: seq<State>, steps: seq<Step>, i: nat)
    requires Run(ss, steps) && 0 < i < |ss|
    ensures ss[i].live == if Installs(steps[i - 1]) then ss[i - 1].covered else ss[i - 1].live
    ensures ss[i - 1].live <= ss[i - 1].covered
  {
    InvAlways(ss, steps, i - 1);
    RunStep(ss, steps, i - 1);
  }

  // The installed config is that of the last apply that succeeded; no earlier
  // one had rendered more.
  lemma {:induction false} LiveIsLastInstalled(ss: seq<State>, steps: seq<Step>, i: nat)
    requires Run(ss, steps) && i < |ss|
    ensures ss[i].live == 0 || exists j :: 0 <= j < i && Installs(steps[j]) && ss[j].covered == ss[i].live
    ensures forall j :: 0 <= j < i && Installs(steps[j]) ==> ss[j].covered <= ss[i].live
  {
    if i > 0 {
      LiveStep(ss, steps, i);
      LiveIsLastInstalled(ss, steps, i - 1);
      hide Run, Installs;
    }
  }

  // At any moment of any run, settled or not, the installed config contains every
  // change exactly when there is none or an apply that succeeded had rendered
  // them all.
  lemma {:induction false} CurrentIff(ss: seq<State>, steps: seq<Step>, i: nat)
    requires Run(ss, steps) && i < |ss|
    ensures ss[i].live == ss[i].commits <==> ss[i].commits == 0 || Installed(ss, steps, i)
  {
    InvAlways(ss, steps, i);
    LiveIsLastInstalled(ss, steps, i);
  }

  // A failed apply is not repeated: a single failure leaves the panel settled on
  // a config without the change, until another change or an explicit apply.
  lemma {:induction false} FailureLeavesStale(s0: State) returns (ss: seq<State>, steps: seq<Step>)
    requires Init(s0)
    ensures Run(ss, steps) && ss[0] == s0
    ensures var last := ss[|ss| - 1];
            && Quiescent(last) && last.live < last.commits
            && forall step :: Enabled(last, step) ==> step.Commit? || step.OtherRenders? || step.Pass?
  {
    var s1 := Do(s0, Commit);
    var s2 := Do(s1, Trigger(1));
    var s3 := Do(s2, Take);
    var s4 := Do(s3, Pass(DEBOUNCE));
    var s5 := Do(s4, Fire);
    var s6 := Do(s5, WorkerRenders);
    var s7 := Do(s6, WorkerEnds(false));
    ss := [s0, s1, s2, s3, s4, s5, s6, s7];
    steps := [Commit, Trigger(1), Take, Pass(DEBOUNCE), Fire, WorkerRenders, WorkerEnds(false)];
    assert s7.untriggered == {};
  }

  // ---- timing ----------------------------------------------------------------

  ghost predicate Timely(s: State) {
    && s.lastTake <= s.now
    && (s.stage.Quiet? ==> s.stage.deadline == s.lastTake + DEBOUNCE && s.now <= s.stage.deadline)
    && (s.stage.Due? ==> s.lastTake + DEBOUNCE <= s.now && (!s.holder.HeldByOther? ==> Punctual(s, s.now)))
    && (s.stage.Idle? || s.stage.Applying? ==> Punctual(s, s.renderedAt))
  }

  // at is one debounce interval after the last trigger was taken.
  predicate Punctual(s: State, at: real) {
    at == s.lastTake + DEBOUNCE
  }

  predicate Solo(step: Step) {
    !step.OtherRenders? && !step.OtherEnds?
  }

  // From the step at j, which takes a trigger while nobody else holds the mutex,
  // nobody else applies until i.
  ghost predicate Undisturbed(ss: seq<State>, steps: seq<Step>, j: nat, i: nat)
    requires |ss| == |steps| + 1
  {
    && j < i < |ss|
    && (steps[j].Take? || steps[j].Retake?) && !ss[j].holder.HeldByOther?
    && forall k :: j < k < i ==> Solo(steps[k])
  }

  lemma {:induction false} TakeIsTimely(s: State, step: Step)
    requires Enabled(s, step) && (step.Take? || step.Retake?) && !s.holder.HeldByOther?
    ensures Timely(Do(s, step)) && !Do(s, step).holder.HeldByOther?
  {
  }

  lemma {:induction false} StepKeepsTimely(s: State, step: Step)
    requires Timely(s) && !s.holder.HeldByOther? && Inv(s) && Enabled(s, step) && Solo(step)
    ensures Timely(Do(s, step)) && !Do(s, step).holder.HeldByOther?
  {
  }

  lemma {:induction false} TimelySince(ss: seq<State>, steps: seq<Step>, j: nat, i: nat)
    requires Run(ss, steps) && Undisturbed(ss, steps, j, i)
    ensures Timely(ss[i]) && !ss[i].holder.HeldByOther? && Inv(ss[i])
  {
    InvAlways(ss, steps, i);
    InvAlways(ss, steps, i - 1);
    RunStep(ss, steps, i - 1);
    if i == j + 1 {
      hide Run, Inv, Timely, Do, Enabled;
      TakeIsTimely(ss[j], steps[j]);
    } else {
      assert Undisturbed(ss, steps, j, i - 1) && Solo(steps[i - 1]);
      hide *;
      TimelySince(ss, steps, j, i - 1);
      StepKeepsTimely(ss[i - 1], steps[i - 1]);
    }
  }

  // From a trigger on that the worker took while nobody else held the mutex, and
  // for as long as nobody else takes it, the worker starts a render exactly one
  // debounce interval after it took the last trigger, and not before: at any
  // later moment, unless it has taken a new trigger, that render has started.
  lemma {:induction false} RendersOneIntervalAfterLastTake(ss: seq<State>, steps: seq<Step>, j: nat, i: nat)
    requires Run(ss, steps) && Undisturbed(ss, steps, j, i)
    ensures ss[i].now > ss[i].lastTake + 0.8 ==> ss[i].renderedAt == ss[i].lastTake + 0.8
    ensures ss[i].stage.Applying? ==> ss[i].renderedAt == ss[i].lastTake + 0.8
    ensures ss[i].stage.Quiet? ==> ss[i].now <= ss[i].lastTake + 0.8
  {
    TimelySince(ss, steps, j, i);
  }

  // In every run, once its timer has fired the worker lets time pass only while
  // another caller is applying.
  lemma {:induction false} WaitsOnlyForOthers(ss: seq<State>, steps: seq<Step>, i: nat)
    requires Run(ss, steps) && i < |steps| && steps[i].Pass? && ss[i].stage.Due?
    ensures ss[i].holder.HeldByOther?
  {
    InvAlways(ss, steps, i);
  }
}
