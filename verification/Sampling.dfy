/**
 The driver's sampling: a delayed work item that re-arms itself while sampling is enabled,
 switched by writes to the config node. Config writes come one at a time; their single
 atomic actions interleave with those of the tick.
 */
module Sampling {

  datatype Tick =
    | Resting
    | Started                 // about to read the flag
    | Updating                // has read it as set, about to take a sample
    | Rearming                // has sampled, about to schedule the next tick
    | Ending

  datatype Writer =
    | Idle
    | Enabling                // interval stored, about to exchange the flag
    | Scheduling              // flag went from 0 to 1, about to schedule the first tick
    | Disabling               // flag cleared, about to cancel
    | Waiting                 // pending work removed, waits for a running tick; re-arming is refused

  datatype State = State(
    enabled: bool, intervalMs: nat,
    pending: nat,             // armed or queued instances of the work item
    tick: Tick, writer: Writer,
    samples: nat)

  /** What a write asks for: "1" with or without a number, or "0". Other texts change nothing. */
  datatype Step =
    | WriteOne(interval: nat) // 0 when no number, or the number 0, was given
    | Exchange
    | ScheduleFirst
    | WriteZero
    | CancelPending
    | CancelDone
    | Fire
    | ReadFlag
    | Sample
    | Rearm
    | Return

  function Initial(): State {
    State(false, 500, 0, Resting, Idle, 0)
  }

  /** schedule_delayed_work: no effect while the item is pending or being cancelled. */
  function Scheduled(s: State): nat {
    if s.pending > 0 || s.writer.Waiting? then s.pending else s.pending + 1
  }

  predicate Enabled(s: State, step: Step) {
    match step
    case WriteOne(_) => s.writer.Idle?
    case Exchange => s.writer.Enabling?
    case ScheduleFirst => s.writer.Scheduling?
    case WriteZero => s.writer.Idle?
    case CancelPending => s.writer.Disabling?
    case CancelDone => s.writer.Waiting? && s.tick.Resting?
    case Fire => s.pending > 0 && s.tick.Resting?     // the workqueue never runs one item twice at a time
    case ReadFlag => s.tick.Started?
    case Sample => s.tick.Updating?
    case Rearm => s.tick.Rearming?
    case Return => s.tick.Ending?
  }

  function Apply(s: State, step: Step): State
    requires Enabled(s, step)
  {
    match step
    case WriteOne(interval) => s.(intervalMs := if interval > 0 then interval else s.intervalMs, writer := Enabling)
    case Exchange => s.(enabled := true, writer := if s.enabled then Idle else Scheduling)
    case ScheduleFirst => s.(pending := Scheduled(s), writer := Idle)
    case WriteZero => s.(enabled := false, writer := Disabling)
    case CancelPending => s.(pending := 0, writer := Waiting)
    case CancelDone => s.(writer := Idle)
    case Fire => s.(pending := s.pending - 1, tick := Started)
    case ReadFlag => s.(tick := if s.enabled then Updating else Ending)
    case Sample => s.(samples := s.samples + 1, tick := Rearming)
    case Rearm => s.(pending := Scheduled(s), tick := Ending)
    case Return => s.(tick := Resting)
  }

  predicate WriterStep(step: Step) {
    step.WriteOne? || step.Exchange? || step.ScheduleFirst? || step.WriteZero? || step.CancelPending? || step.CancelDone?
  }

  /** A tick that is running and will schedule another one if nothing is written. */
  predicate WillRearm(t: Tick) {
    t.Started? || t.Updating? || t.Rearming?
  }

  function Ticks(s: State): nat {
    s.pending + if WillRearm(s.tick) then 1 else 0
  }

  /** Exactly one tick is under way while enabled, none at all while disabled. */
  predicate Settled(s: State) {
    if s.enabled then Ticks(s) == 1 else s.pending == 0 && s.tick.Resting?
  }

  predicate Inv(s: State) {
    && s.intervalMs > 0
    && s.pending <= 1
    && match s.writer
       case Idle => Settled(s)
       case Enabling => Settled(s)
       case Scheduling => s.enabled && s.pending == 0 && s.tick.Resting?
       case Disabling => !s.enabled && Ticks(s) <= 1
       case Waiting => !s.enabled && s.pending == 0
  }

  ghost predicate IsRun(run: seq<State>, steps: seq<Step>) {
    && |run| == |steps| + 1
    && forall i :: 0 <= i < |steps| ==> Enabled(run[i], steps[i]) && run[i + 1] == Apply(run[i], steps[i])
  }

  lemma {:induction false} RunInv(run: seq<State>, steps: seq<Step>)
    requires IsRun(run, steps) && Inv(run[0])
    ensures forall i :: 0 <= i < |run| ==> Inv(run[i])
    decreases |steps|
  {
    if steps != [] {
      var n := |steps| - 1;
      RunInv(run[..n + 1], steps[..n]);
      assert run[..n + 1][n] == run[n];
      assert Inv(run[n + 1]);
      assert forall i :: 0 <= i <= n ==> run[i] == run[..n + 1][i];
    }
  }

  /**
   In every run from module load, whenever no write is in progress: if enabled, exactly one
   tick is pending or on its way to re-arm; if disabled, none is pending or running; never
   more than one is pending and the interval is positive.
   */
  lemma AtRest(run: seq<State>, steps: seq<Step>, i: nat)
    requires IsRun(run, steps) && run[0] == Initial() && i < |run|
    ensures run[i].pending <= 1 && run[i].intervalMs > 0
    ensures run[i].writer.Idle? && run[i].enabled ==> (run[i].pending == 1) != WillRearm(run[i].tick)
    ensures run[i].writer.Idle? && !run[i].enabled ==> run[i].pending == 0 && run[i].tick.Resting?
  {
    RunInv(run, steps);
  }

  // ----- The configuration is the last one written -----

  /** Whether sampling was last asked for or against, by the steps alone. */
  function Wanted(steps: seq<Step>): bool {
    if steps == [] then false
    else
      match steps[|steps| - 1]
      case WriteOne(_) => true
      case WriteZero => false
      case _ => Wanted(steps[..|steps| - 1])
  }

  /** The last positive interval written. */
  function Interval(steps: seq<Step>): nat {
    if steps == [] then 500
    else
      var step := steps[|steps| - 1];
      if step.WriteOne? && step.interval > 0 then step.interval else Interval(steps[..|steps| - 1])
  }

  predicate Configured(s: State, steps: seq<Step>) {
    && s.intervalMs == Interval(steps)
    && match s.writer
       case Idle => s.enabled == Wanted(steps)
       case Enabling => Wanted(steps)
       case Scheduling => s.enabled && Wanted(steps)
       case Disabling => !s.enabled && !Wanted(steps)
       case Waiting => !s.enabled && !Wanted(steps)
  }

  lemma ConfiguredStep(s: State, steps: seq<Step>, step: Step)
    requires Configured(s, steps) && Enabled(s, step)
    ensures Configured(Apply(s, step), steps + [step])
  {
    assert (steps + [step])[..|steps|] == steps;
  }

  /**
   In every run from module load: the interval is the last positive one written, or 500, and
   between writes sampling is enabled exactly if the last write asked for it.
   */
  lemma {:induction false} ConfigFollowsWrites(run: seq<State>, steps: seq<Step>, i: nat)
    requires IsRun(run, steps) && run[0] == Initial() && i < |run|
    ensures run[i].intervalMs == Interval(steps[..i])
    ensures run[i].writer.Idle? ==> run[i].enabled == Wanted(steps[..i])
    ensures Configured(run[i], steps[..i])
  {
    if i > 0 {
      ConfigFollowsWrites(run, steps, i - 1);
      ConfiguredStep(run[i - 1], steps[..i - 1], steps[i - 1]);
      assert steps[..i] == steps[..i - 1] + [steps[i - 1]];
    }
  }

  /** Samples taken or already decided on. */
  function Committed(s: State): nat {
    s.samples + if s.tick.Updating? then 1 else 0
  }

  lemma DisabledStep(s: State, step: Step)
    requires Inv(s) && !s.enabled && Enabled(s, step) && !step.Exchange?
    ensures var s' := Apply(s, step);
            && Inv(s') && !s'.enabled && Committed(s') == Committed(s)
            && (s.pending == 0 && s.tick.Resting? ==> s'.pending == 0 && s'.tick.Resting?)
  {
  }

  /**
   From the moment the flag is cleared until it is set again, at most the one sample already
   decided on is still taken; once the write has returned, none.
   */
  lemma {:induction false} DisabledIsStill(run: seq<State>, steps: seq<Step>)
    requires IsRun(run, steps) && Inv(run[0]) && !run[0].enabled
    requires forall i :: 0 <= i < |steps| ==> !steps[i].Exchange?
    ensures var s := run[|steps|];
            && Inv(s) && !s.enabled && Committed(s) == Committed(run[0])
            && (run[0].pending == 0 && run[0].tick.Resting? ==>
                  s.pending == 0 && s.tick.Resting? && s.samples == run[0].samples)
    decreases |steps|
  {
    if steps != [] {
      var n := |steps| - 1;
      DisabledIsStill(run[..n + 1], steps[..n]);
      DisabledStep(run[n], steps[n]);
    }
  }

  // ----- Sampling keeps going -----

  /** Actions of the tick left until the next sample. */
  function Distance(s: State): nat {
    match s.tick
    case Updating => 1
    case Started => 2
    case Resting => 3
    case Ending => 4
    case Rearming => 5
  }

  lemma TickProgress(s: State, step: Step)
    requires Inv(s) && s.writer.Idle? && s.enabled && Enabled(s, step) && !WriterStep(step)
    ensures var s' := Apply(s, step);
            && Inv(s') && s'.writer.Idle? && s'.enabled
            && if Distance(s) == 1 then s'.samples == s.samples + 1 && Distance(s') == 5
               else s'.samples == s.samples && Distance(s') == Distance(s) - 1
  {
  }

  /** While enabled some action of the tick is always possible. */
  lemma TickCanMove(s: State) returns (step: Step)
    requires Inv(s) && s.writer.Idle? && s.enabled
    ensures Enabled(s, step) && !WriterStep(step)
  {
    match s.tick {
      case Updating => step := Sample;
      case Started => step := ReadFlag;
      case Resting => step := Fire;
      case Ending => step := Return;
      case Rearming => step := Rearm;
    }
  }

  /** A run of k actions of the work item, with no write in between. */
  ghost predicate TickRun(s: State, k: nat, run: seq<State>, steps: seq<Step>) {
    IsRun(run, steps) && run[0] == s && |steps| == k && forall i :: 0 <= i < |steps| ==> !WriterStep(steps[i])
  }

  /** In any actions of the work item between writes, every fifth is a sample. */
  lemma {:induction false} OneInFive(run: seq<State>, steps: seq<Step>)
    requires IsRun(run, steps) && Inv(run[0]) && run[0].writer.Idle? && run[0].enabled
    requires forall i :: 0 <= i < |steps| ==> !WriterStep(steps[i])
    ensures var s, n := run[|steps|], |steps|;
            && Inv(s) && s.writer.Idle? && s.enabled
            && 5 * (s.samples - run[0].samples) + Distance(run[0]) == n + Distance(s)
    decreases |steps|
  {
    if steps != [] {
      var n := |steps| - 1;
      OneInFive(run[..n + 1], steps[..n]);
      TickProgress(run[n], steps[n]);
    }
  }

  /** From an enabled driver its work item can make any number of actions. */
  lemma {:induction false} TickRuns(s: State, k: nat) returns (run: seq<State>, steps: seq<Step>)
    requires Inv(s) && s.writer.Idle? && s.enabled
    ensures IsRun(run, steps) && run[0] == s && |steps| == k
    ensures forall i :: 0 <= i < |steps| ==> !WriterStep(steps[i])
  {
    if k == 0 {
      return [s], [];
    }
    var before, taken := TickRuns(s, k - 1);
    OneInFive(before, taken);
    var step := TickCanMove(before[k - 1]);
    run, steps := before + [Apply(before[k - 1], step)], taken + [step];
  }

  /**
   Between writes an enabled driver keeps sampling: its work item can always go on, and
   however it does, 5 * n of its actions take exactly n samples.
   */
  lemma SamplesKeepComing(s: State, n: nat)
    requires Inv(s) && s.writer.Idle? && s.enabled
    ensures exists run: seq<State>, steps: seq<Step> :: TickRun(s, 5 * n, run, steps)
    ensures forall run: seq<State>, steps: seq<Step> :: TickRun(s, 5 * n, run, steps) ==> run[5 * n].samples == s.samples + n
  {
    var r, t := TickRuns(s, 5 * n);
    assert TickRun(s, 5 * n, r, t);
    forall run: seq<State>, steps: seq<Step> | TickRun(s, 5 * n, run, steps)
      ensures run[5 * n].samples == s.samples + n
    {
      OneInFive(run, steps);
    }
  }
}
