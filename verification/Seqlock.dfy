/**
 The driver's per-CPU snapshot: written field by field under a seqlock and read without a
 lock. A reader pass counts only if the sequence number it began with is still there at
 its end. The lock word is 32 bits wide, so comparisons are made modulo a parameter.
 */
module Seqlock {

  datatype Snap = Snap(usage: int, ts: int)

  datatype Writer =
    | Outside
    | AtUsage(cpu: nat)       // inside the write section, about to store usage of this CPU
    | AtTs(cpu: nat)          // about to store its time stamp

  datatype Reader =
    | Starting                // about to sample the sequence number
    | AtLoad(seen: nat, start: nat, cpu: nat)                 // about to load usage of this CPU
    | HalfLoaded(seen: nat, start: nat, cpu: nat, usage: int) // about to load its time stamp
    | Finished

  /** `count` is how often the lock word moved; the word itself is the count modulo its range. */
  datatype State = State(
    cpus: seq<Snap>, count: nat,
    clock: int, since: int,          // last time stamp given out, and the last one before the write section
    writer: Writer, reader: Reader,
    output: seq<Snap>,               // every line printed, rejected passes included
    published: seq<seq<Snap>>)       // contents after each completed update, oldest first

  datatype Step =
    | Lock
    | StoreUsage(random: nat)
    | StoreTs(now: int)
    | Unlock
    | Begin
    | LoadUsage
    | LoadTs
    | Check

  function Initial(cpus: seq<Snap>): State {
    State(cpus, 0, 0, 0, Outside, Starting, [], [cpus])
  }

  predicate Enabled(s: State, step: Step) {
    var n := |s.cpus|;
    match step
    case Lock => s.writer.Outside?
    case StoreUsage(_) => s.writer.AtUsage? && s.writer.cpu < n
    case StoreTs(now) => s.writer.AtTs? && s.writer.cpu < n && now >= s.clock    // boot time never runs backwards
    case Unlock => s.writer.AtUsage? && s.writer.cpu == n
    case Begin => s.reader.Starting? && s.count % 2 == 0          // read_seqbegin waits for an even word
    case LoadUsage => s.reader.AtLoad? && s.reader.cpu < n
    case LoadTs => s.reader.HalfLoaded? && s.reader.cpu < n
    case Check => s.reader.AtLoad? && s.reader.cpu == n
  }

  /** `m` is the modulus of the lock word, 2^32 on the real lock. */
  function Apply(m: nat, s: State, step: Step): State
    requires Enabled(s, step) && m > 0
  {
    match step
    case Lock => s.(count := s.count + 1, writer := AtUsage(0), since := s.clock)
    case StoreUsage(random) =>
      var c := s.writer.cpu;
      s.(cpus := s.cpus[c := s.cpus[c].(usage := random % 100)], writer := AtTs(c))
    case StoreTs(now) =>
      var c := s.writer.cpu;
      s.(cpus := s.cpus[c := s.cpus[c].(ts := now)], writer := AtUsage(c + 1), clock := now)
    case Unlock => s.(count := s.count + 1, writer := Outside, published := s.published + [s.cpus])
    case Begin => s.(reader := AtLoad(s.count, |s.output|, 0))
    case LoadUsage => s.(reader := HalfLoaded(s.reader.seen, s.reader.start, s.reader.cpu, s.cpus[s.reader.cpu].usage))
    case LoadTs =>
      var r := s.reader;
      s.(output := s.output + [Snap(r.usage, s.cpus[r.cpu].ts)], reader := AtLoad(r.seen, r.start, r.cpu + 1))
    case Check => s.(reader := if s.count % m == s.reader.seen % m then Finished else Starting)
  }

  // ----- Invariant -----

  predicate WriterOk(s: State) {
    && |s.published| == s.count / 2 + 1
    && (s.writer.Outside? <==> s.count % 2 == 0)
    && (s.writer.Outside? ==> s.cpus == s.published[|s.published| - 1])
    && (forall k :: 0 <= k < |s.published| ==> |s.published[k]| == |s.cpus|)
  }

  /** Lines printed in the running pass. */
  function Lines(s: State): seq<Snap>
    requires (s.reader.AtLoad? || s.reader.HalfLoaded?) && s.reader.start <= |s.output|
  {
    s.output[s.reader.start..]
  }

  /** As long as the lock word has not moved, the pass reads the state published before it. */
  predicate ReaderOk(s: State) {
    match s.reader
    case Starting => true
    case Finished => true
    case AtLoad(seen, start, cpu) =>
      && seen <= s.count && seen % 2 == 0 && start <= |s.output|
      && |Lines(s)| == cpu <= |s.cpus|
      && (s.count == seen ==> Lines(s) == s.cpus[..cpu])
    case HalfLoaded(seen, start, cpu, usage) =>
      && seen <= s.count && seen % 2 == 0 && start <= |s.output|
      && |Lines(s)| == cpu < |s.cpus|
      && (s.count == seen ==> Lines(s) == s.cpus[..cpu] && usage == s.cpus[cpu].usage)
  }

  /** Entries as an update writes them: usages in range, stamped in CPU order up to `to`. */
  predicate Settled(p: seq<Snap>, to: int) {
    && (forall i :: 0 <= i < |p| ==> 0 <= p[i].usage < 100 && p[i].ts <= to)
    && (forall i, j :: 0 <= i < j < |p| ==> p[i].ts <= p[j].ts)
  }

  /** The same, stamped within a period. */
  predicate Sampled(p: seq<Snap>, from: int, to: int) {
    Settled(p, to) && forall i :: 0 <= i < |p| ==> from <= p[i].ts
  }

  /** Every entry of `p` was stamped no later than any entry of `q`. */
  predicate Before(p: seq<Snap>, q: seq<Snap>) {
    forall i, j :: 0 <= i < |p| && 0 <= j < |q| ==> p[i].ts <= q[j].ts
  }

  /** How many CPUs the running update has completely rewritten. */
  function Rewritten(s: State): nat {
    if s.writer.Outside? then 0 else s.writer.cpu
  }

  predicate StampsOk(s: State) {
    && s.since <= s.clock
    && Rewritten(s) <= |s.cpus|
    && Sampled(s.cpus[..Rewritten(s)], s.since, s.clock)
    && (s.writer.AtTs? && s.writer.cpu < |s.cpus| ==> 0 <= s.cpus[s.writer.cpu].usage < 100)
    && History(s.published, if s.writer.Outside? then s.clock else s.since)
  }

  /** What is published: updates in range, one after the other, none stamped after `to`. */
  predicate History(published: seq<seq<Snap>>, to: int) {
    && (forall k :: 1 <= k < |published| ==> Settled(published[k], to))
    && (forall j, k :: 1 <= j < k < |published| ==> Before(published[j], published[k]))
  }

  predicate Inv(s: State) {
    WriterOk(s) && ReaderOk(s) && StampsOk(s)
  }

  lemma HistoryGrows(published: seq<seq<Snap>>, p: seq<Snap>, from: int, to: int)
    requires published != [] && History(published, from) && Sampled(p, from, to) && from <= to
    ensures History(published + [p], to)
  {
    var all := published + [p];
    forall k | 1 <= k < |all| ensures Settled(all[k], to) {
      assert k < |published| ==> all[k] == published[k] && Settled(published[k], from);
    }
    forall j, k | 1 <= j < k < |all| ensures Before(all[j], all[k]) {
      assert all[j] == published[j] && Settled(published[j], from);
      assert k < |published| ==> all[k] == published[k] && Before(published[j], published[k]);
    }
  }

  lemma StampsStep(m: nat, s: State, step: Step)
    requires m > 0 && Inv(s) && Enabled(s, step)
    ensures StampsOk(Apply(m, s, step))
  {
    var s' := Apply(m, s, step);
    match step {
      case StoreUsage(_) => assert s'.cpus[..s.writer.cpu] == s.cpus[..s.writer.cpu];
      case StoreTs(now) =>
        var c := s.writer.cpu;
        assert s'.cpus[..c + 1] == s.cpus[..c] + [s'.cpus[c]];
      case Unlock =>
        assert s.cpus[..|s.cpus|] == s.cpus;
        HistoryGrows(s.published, s.cpus, s.since, s.clock);
      case _ =>
    }
  }

  lemma WriterStep(m: nat, s: State, step: Step)
    requires m > 0 && Inv(s) && Enabled(s, step) && (step.Lock? || step.StoreUsage? || step.StoreTs? || step.Unlock?)
    ensures Inv(Apply(m, s, step))
  {
    StampsStep(m, s, step);
  }

  lemma ReaderStep(m: nat, s: State, step: Step)
    requires m > 0 && Inv(s) && Enabled(s, step) && (step.Begin? || step.LoadUsage? || step.LoadTs? || step.Check?)
    ensures Inv(Apply(m, s, step))
  {
    StampsStep(m, s, step);
    var s' := Apply(m, s, step);
    if step.Begin? {
      assert s'.output[|s.output|..] == [];
    } else if step.LoadTs? {
      assert Lines(s') == Lines(s) + [s'.output[|s.output|]];
    }
  }

  ghost predicate Reaches(m: nat, s: State, steps: seq<Step>, s': State)
    requires m > 0
    decreases |steps|
  {
    if steps == [] then s == s'
    else Enabled(s, steps[0]) && Reaches(m, Apply(m, s, steps[0]), steps[1..], s')
  }

  lemma {:induction false} Chain(m: nat, s: State, a: seq<Step>, mid: State, b: seq<Step>, s': State)
    requires m > 0 && Reaches(m, s, a, mid) && Reaches(m, mid, b, s')
    ensures Reaches(m, s, a + b, s')
    decreases |a|
  {
    if a == [] {
      assert a + b == b;
    } else {
      Chain(m, Apply(m, s, a[0]), a[1..], mid, b, s');
      assert (a + b)[1..] == a[1..] + b;
    }
  }

  lemma Single(m: nat, s: State, step: Step)
    requires m > 0 && Enabled(s, step)
    ensures Reaches(m, s, [step], Apply(m, s, step))
  {
    assert [step][1..] == [];
  }

  lemma {:induction false} RunInv(m: nat, s: State, steps: seq<Step>, s': State)
    requires m > 0 && Inv(s) && Reaches(m, s, steps, s')
    ensures Inv(s') && |s'.cpus| == |s.cpus|
    decreases |steps|
  {
    if steps != [] {
      match steps[0] {
        case Lock => WriterStep(m, s, steps[0]);
        case StoreUsage(_) => WriterStep(m, s, steps[0]);
        case StoreTs(_) => WriterStep(m, s, steps[0]);
        case Unlock => WriterStep(m, s, steps[0]);
        case _ => ReaderStep(m, s, steps[0]);
      }
      RunInv(m, Apply(m, s, steps[0]), steps[1..], s');
    }
  }

  lemma SameWord(m: nat, a: nat, b: nat)
    requires m > 0 && a <= b < a + m && a % m == b % m
    ensures a == b
  {
    var qa, qb := a / m, b / m;
    assert a == m * qa + a % m && b == m * qb + b % m;
    if qb > qa {
      Scaled(m, qa + 1, qb);
    } else {
      Scaled(m, qb, qa);
    }
  }

  lemma Scaled(m: nat, x: int, y: int)
    requires x <= y
    ensures m * x <= m * y
  {
  }

  /**
   Whatever the interleaving: if the lock word did not go all the way round during the pass,
   a pass accepted by the final check printed one line per CPU, and these lines, the last in
   the output, are the contents between two completed updates.
   */
  lemma AcceptedPass(m: nat, cpus: seq<Snap>, steps: seq<Step>, s: State)
    requires m > 0 && Reaches(m, Initial(cpus), steps, s)
    requires Enabled(s, Check) && Apply(m, s, Check).reader.Finished?
    requires s.count - s.reader.seen < m
    ensures |s.output| >= |cpus| && s.reader.seen / 2 < |s.published|
    ensures s.output[|s.output| - |cpus|..] == s.published[s.reader.seen / 2]
  {
    assert Inv(Initial(cpus));
    RunInv(m, Initial(cpus), steps, s);
    SameWord(m, s.reader.seen, s.count);
    assert s.cpus[..|s.cpus|] == s.cpus;
  }

  /**
   In every reachable state each completed update has given every CPU a usage below 100 and a
   time stamp, in CPU order, and no entry of an earlier update is stamped after one of a
   later update.
   */
  lemma UpdatesAreComplete(m: nat, cpus: seq<Snap>, steps: seq<Step>, s: State)
    requires m > 0 && Reaches(m, Initial(cpus), steps, s)
    ensures forall k :: 1 <= k < |s.published| ==> |s.published[k]| == |cpus| && Settled(s.published[k], s.clock)
    ensures forall j, k :: 1 <= j < k < |s.published| ==> Before(s.published[j], s.published[k])
  {
    assert Inv(Initial(cpus));
    RunInv(m, Initial(cpus), steps, s);
  }

  /** Under the same condition a pass is accepted exactly if the lock word did not move since it began; otherwise it starts over. */
  lemma AcceptedIff(m: nat, cpus: seq<Snap>, steps: seq<Step>, s: State)
    requires m > 0 && Reaches(m, Initial(cpus), steps, s)
    requires Enabled(s, Check) && s.count - s.reader.seen < m
    ensures Apply(m, s, Check).reader == if s.count == s.reader.seen then Finished else Starting
  {
    assert Inv(Initial(cpus));
    RunInv(m, Initial(cpus), steps, s);
    if s.count != s.reader.seen && s.count % m == s.reader.seen % m {
      SameWord(m, s.reader.seen, s.count);
    }
  }

  predicate ReaderStepsOnly(steps: seq<Step>) {
    forall i :: 0 <= i < |steps| ==> steps[i].Begin? || steps[i].LoadUsage? || steps[i].LoadTs? || steps[i].Check?
  }

  lemma {:induction false} UndisturbedLoads(m: nat, s: State) returns (steps: seq<Step>, s': State)
    requires m > 0 && s.reader.AtLoad? && s.reader.cpu <= |s.cpus|
    ensures Reaches(m, s, steps, s') && ReaderStepsOnly(steps)
    ensures s' == s.(output := s.output + s.cpus[s.reader.cpu..], reader := AtLoad(s.reader.seen, s.reader.start, |s.cpus|))
    decreases |s.cpus| - s.reader.cpu
  {
    var c := s.reader.cpu;
    if c == |s.cpus| {
      steps, s' := [], s;
      assert s.output + s.cpus[c..] == s.output;
    } else {
      var s1 := Apply(m, s, LoadUsage);
      var s2 := Apply(m, s1, LoadTs);
      Single(m, s, LoadUsage);
      Single(m, s1, LoadTs);
      Chain(m, s, [LoadUsage], s1, [LoadTs], s2);
      var later;
      later, s' := UndisturbedLoads(m, s2);
      steps := [LoadUsage] + [LoadTs] + later;
      Chain(m, s, [LoadUsage] + [LoadTs], s2, later, s');
      assert (s.output + [s.cpus[c]]) + s.cpus[c + 1..] == s.output + s.cpus[c..];
    }
  }

  /** A pass nobody disturbs ends, accepted, after printing one line per CPU, also before the first update. */
  lemma UndisturbedPass(m: nat, s: State) returns (steps: seq<Step>, s': State)
    requires m > 0 && Inv(s) && s.writer.Outside? && s.reader.Starting?
    ensures Reaches(m, s, steps, s') && ReaderStepsOnly(steps)
    ensures s' == s.(output := s.output + s.cpus, reader := Finished)
  {
    var s1 := Apply(m, s, Begin);
    Single(m, s, Begin);
    var loads, s2 := UndisturbedLoads(m, s1);
    assert s.cpus[0..] == s.cpus;
    Chain(m, s, [Begin], s1, loads, s2);
    s' := Apply(m, s2, Check);
    Single(m, s2, Check);
    Chain(m, s, [Begin] + loads, s2, [Check], s');
    steps := [Begin] + loads + [Check];
  }

  // ----- Without that condition a torn pass can be accepted -----

  /** One whole update of a one-CPU system. */
  function Updated(s: State, v: int): State
    requires |s.cpus| == 1
  {
    s.(cpus := [Snap(v, v)], count := s.count + 2, clock := v, since := s.clock, published := s.published + [[Snap(v, v)]])
  }

  lemma UpdateRuns(m: nat, s: State, v: int) returns (steps: seq<Step>)
    requires m > 0 && |s.cpus| == 1 && s.writer.Outside? && s.clock <= v && 0 <= v < 100
    ensures Reaches(m, s, steps, Updated(s, v))
  {
    var s1 := Apply(m, s, Lock);
    var s2 := Apply(m, s1, StoreUsage(v));
    var s3 := Apply(m, s2, StoreTs(v));
    var s4 := Apply(m, s3, Unlock);
    assert s3.cpus == [Snap(v, v)] && s4 == Updated(s, v);
    Single(m, s, Lock);
    Single(m, s1, StoreUsage(v));
    Single(m, s2, StoreTs(v));
    Single(m, s3, Unlock);
    Chain(m, s, [Lock], s1, [StoreUsage(v)], s2);
    Chain(m, s, [Lock] + [StoreUsage(v)], s2, [StoreTs(v)], s3);
    Chain(m, s, [Lock] + [StoreUsage(v)] + [StoreTs(v)], s3, [Unlock], s4);
    steps := [Lock] + [StoreUsage(v)] + [StoreTs(v)] + [Unlock];
  }

  lemma {:induction false} ManyUpdates(m: nat, s: State, v: int, k: nat) returns (steps: seq<Step>, s': State)
    requires m > 0 && |s.cpus| == 1 && s.writer.Outside? && k > 0 && s.clock <= v && 0 <= v < 100
    ensures Reaches(m, s, steps, s')
    ensures s'.cpus == [Snap(v, v)] && s'.count == s.count + 2 * k && s'.writer.Outside?
    ensures s'.reader == s.reader && s'.output == s.output
    ensures forall p :: p in s'.published ==> p in s.published || p == [Snap(v, v)]
    decreases k
  {
    var first := UpdateRuns(m, s, v);
    var s1 := Updated(s, v);
    if k == 1 {
      return first, s1;
    }
    var later;
    later, s' := ManyUpdates(m, s1, v, k - 1);
    steps := first + later;
    Chain(m, s, first, s1, later, s');
  }

  /**
   For every even range of the lock word: a pass during which it moves exactly that often is
   accepted although its line mixes two updates.
   */
  lemma WrappedPass(m: nat) returns (steps: seq<Step>, s: State)
    requires m > 0 && m % 2 == 0
    ensures Reaches(m, Initial([Snap(0, 0)]), steps, s)
    ensures Enabled(s, Check) && Apply(m, s, Check).reader.Finished? && s.count - s.reader.seen == m
    ensures s.output == [Snap(0, 1)] && s.output !in s.published
  {
    var s0 := Initial([Snap(0, 0)]);
    var s1 := Apply(m, s0, Begin);
    var s2 := Apply(m, s1, LoadUsage);
    var many, s3 := ManyUpdates(m, s2, 1, m / 2);
    s := Apply(m, s3, LoadTs);
    Single(m, s0, Begin);
    Single(m, s1, LoadUsage);
    Single(m, s3, LoadTs);
    Chain(m, s0, [Begin], s1, [LoadUsage], s2);
    Chain(m, s0, [Begin] + [LoadUsage], s2, many, s3);
    Chain(m, s0, [Begin] + [LoadUsage] + many, s3, [LoadTs], s);
    steps := [Begin] + [LoadUsage] + many + [LoadTs];
    assert s.count == m && m % m == 0 % m;
  }
}
