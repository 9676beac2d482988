/**
 Reads and writes of procfs nodes as the circuit breaker sees them: what a call tries, how it
 ends and what it reports, and over any sequence of calls which of them trip the breaker and
 which are refused.
 */
module Calls {
  import opened Os
  import opened Breaker

  datatype Rc = Ok | Again | Timeout | IoErr

  /** A read accepts any length; a write must move exactly its length. */
  datatype Operation = Read | Write(len: nat)

  predicate Succeeds(op: Operation, r: IoResult) {
    r.Moved? && (op.Read? || r.n == op.len)
  }

  /** errno decides; after a short write it is whatever an earlier call left behind. */
  predicate Retries(r: IoResult) {
    if r.Moved? then r.staleRetry else r.retry
  }

  // ----- One round and one call -----

  /** How one round of open, poll and transfer ends; Late is a retry found to be past the deadline. */
  datatype Round = Done | Retry | Late | HardOpen | PollExpired | PollBroken | Broken

  /** The results of a round's calls; those of calls it does not get to do not matter. */
  datatype Try = Try(o: OpenResult, p: PollResult, i: IoResult)

  function RoundOf(op: Operation, t: Try): Round {
    if t.o.OpenBusy? then Retry
    else if t.o.OpenHard? then HardOpen
    else
      match t.p
      case Expired => PollExpired
      case Interrupted => Retry
      case PollHard => PollBroken
      case Ready => if Succeeds(op, t.i) then Done else if Retries(t.i) then Retry else Broken
  }

  /** The calls of a round: nothing after a failed open, and a close last after a successful one. */
  function CallsOf(t: Try): seq<Call> {
    if !t.o.Opened? then [Open(t.o)]
    else if !t.p.Ready? then [Open(t.o), Poll(t.p), Close]
    else [Open(t.o), Poll(t.p), Transfer(t.i), Close]
  }

  function AllCalls(ts: seq<Try>): seq<Call> {
    if ts == [] then [] else AllCalls(ts[..|ts| - 1]) + CallsOf(ts[|ts| - 1])
  }

  predicate AllRetry(op: Operation, ts: seq<Try>) {
    forall i :: 0 <= i < |ts| ==> RoundOf(op, ts[i]).Retry?
  }

  /** How a call ends whose last round was `t`. */
  function Ending(op: Operation, t: Try): (r: Round)
    ensures !r.Retry?
  {
    if RoundOf(op, t).Retry? then Late else RoundOf(op, t)
  }

  function EndRc(r: Round): Rc {
    match r
    case Done => Ok
    case PollExpired => Timeout
    case Late => Timeout
    case _ => IoErr
  }

  /** What the breaker is told; of a hard open failure, nothing. */
  function Report(r: Round, at: nat): seq<Event> {
    if r.HardOpen? then [] else [Recorded(r.Done?, at)]
  }

  /** One read or write: refused when it asked the breaker, or served in some rounds and over at `at`. */
  datatype Visit =
    | Refused(asked: nat)
    | Served(op: Operation, asked: nat, retried: seq<Try>, last: Try, end: Round, at: nat)

  function RcOf(v: Visit): Rc {
    match v
    case Refused(_) => Again
    case Served(_, _, _, _, end, _) => EndRc(end)
  }

  /** Retries counted: every round that asks for one, also the last if it came after the deadline. */
  function Retried(v: Visit): nat {
    match v
    case Refused(_) => 0
    case Served(_, _, retried, _, end, _) => |retried| + if end.Late? then 1 else 0
  }

  function VisitCalls(v: Visit): seq<Call> {
    match v
    case Refused(_) => []
    case Served(_, _, retried, last, _, _) => AllCalls(retried + [last])
  }

  function Events(v: Visit): seq<Event> {
    match v
    case Refused(asked) => [Asked(asked)]
    case Served(_, asked, _, _, end, at) => [Asked(asked)] + Report(end, at)
  }

  // ----- What results mean, from the results of the system calls alone -----

  /** The file opened, was ready, and the transfer succeeded: for a write, with every byte. */
  ghost predicate Complete(op: Operation, t: Try) {
    t.o.Opened? && t.p.Ready? && t.i.Moved? && (op.Write? ==> t.i.n == op.len)
  }

  /** Worth another round: open was busy, poll interrupted, or the transfer left EAGAIN or EINTR behind. */
  ghost predicate Transient(op: Operation, t: Try) {
    || t.o.OpenBusy?
    || (t.o.Opened? && t.p.Interrupted?)
    || (t.o.Opened? && t.p.Ready? && !Complete(op, t) && if t.i.Moved? then t.i.staleRetry else t.i.retry)
  }

  /**
   A served call returns success exactly if its last round is complete, a timeout exactly if
   that round is transient or its poll expired, and an error otherwise; the rounds before it
   are transient.
   */
  ghost predicate Meaningful(v: Visit) {
    v.Served? ==>
      && (RcOf(v) == Ok <==> Complete(v.op, v.last))
      && (RcOf(v) == Timeout <==> Transient(v.op, v.last) || (v.last.o.Opened? && v.last.p.Expired?))
      && RcOf(v) != Again
      && forall k :: 0 <= k < |v.retried| ==> Transient(v.op, v.retried[k])
  }

  lemma RoundMeaning(op: Operation, t: Try)
    ensures RoundOf(op, t).Retry? <==> Transient(op, t)
    ensures EndRc(Ending(op, t)) == Ok <==> Complete(op, t)
    ensures EndRc(Ending(op, t)) == Timeout <==> Transient(op, t) || (t.o.Opened? && t.p.Expired?)
  {
  }

  lemma VisitMeaning(v: Visit)
    requires v.Served? ==> AllRetry(v.op, v.retried) && v.end == Ending(v.op, v.last)
    ensures Meaningful(v)
  {
    if v.Served? {
      RoundMeaning(v.op, v.last);
      forall k | 0 <= k < |v.retried|
        ensures Transient(v.op, v.retried[k])
      {
        RoundMeaning(v.op, v.retried[k]);
      }
    }
  }

  // ----- Statistics -----

  datatype Stats = Stats(ioOk: nat, ioRetry: nat, ioTimeout: nat, ioErr: nat, breakerTrips: nat)

  const ZERO_STATS: Stats := Stats(0, 0, 0, 0, 0)

  function Pauses(st: Stats, n: nat): Stats {
    st.(ioRetry := st.ioRetry + n)
  }

  /** The statistics after a call that ends with this round; failures of open and poll are not counted. */
  function Booked(st: Stats, r: Round): Stats {
    match r
    case Done => st.(ioOk := st.ioOk + 1)
    case PollExpired => st.(ioTimeout := st.ioTimeout + 1)
    case Late => st.(ioTimeout := st.ioTimeout + 1)
    case Broken => st.(ioErr := st.ioErr + 1)
    case _ => st
  }

  function StatsAfter(st: Stats, v: Visit): Stats {
    match v
    case Refused(_) => st.(breakerTrips := st.breakerTrips + 1)
    case Served(_, _, _, _, end, _) => Booked(Pauses(st, Retried(v)), end)
  }

  function StatsOf(vs: seq<Visit>): Stats {
    if vs == [] then ZERO_STATS else StatsAfter(StatsOf(vs[..|vs| - 1]), vs[|vs| - 1])
  }

  function CountRc(vs: seq<Visit>, rc: Rc): nat {
    if vs == [] then 0 else CountRc(vs[..|vs| - 1], rc) + if RcOf(vs[|vs| - 1]) == rc then 1 else 0
  }

  /** Calls stopped by a failure of open that is not retried. */
  function HardOpens(vs: seq<Visit>): nat {
    if vs == [] then 0
    else HardOpens(vs[..|vs| - 1]) + if vs[|vs| - 1].Served? && vs[|vs| - 1].end.HardOpen? then 1 else 0
  }

  /** Calls stopped by a failure of poll that is not retried. */
  function HardPolls(vs: seq<Visit>): nat {
    if vs == [] then 0
    else HardPolls(vs[..|vs| - 1]) + if vs[|vs| - 1].Served? && vs[|vs| - 1].end.PollBroken? then 1 else 0
  }

  predicate Concluded(vs: seq<Visit>) {
    forall i :: 0 <= i < |vs| ==> vs[i].Served? ==> !vs[i].end.Retry?
  }

  /** Each counter is the number of calls that returned its code, except that errors of open and poll are missing. */
  lemma {:induction false} StatsCount(vs: seq<Visit>)
    requires Concluded(vs)
    ensures var st := StatsOf(vs);
            && st.ioOk == CountRc(vs, Ok)
            && st.breakerTrips == CountRc(vs, Again)
            && st.ioTimeout == CountRc(vs, Timeout)
            && st.ioErr + HardOpens(vs) + HardPolls(vs) == CountRc(vs, IoErr)
  {
    if vs != [] {
      StatsCount(vs[..|vs| - 1]);
    }
  }

  lemma {:induction false} EveryCallReturns(vs: seq<Visit>)
    ensures |vs| == CountRc(vs, Ok) + CountRc(vs, Again) + CountRc(vs, Timeout) + CountRc(vs, IoErr)
  {
    if vs != [] {
      EveryCallReturns(vs[..|vs| - 1]);
    }
  }

  // ----- Sequences of calls -----

  function Trace(vs: seq<Visit>): seq<Event> {
    if vs == [] then [] else Trace(vs[..|vs| - 1]) + Events(vs[|vs| - 1])
  }

  function RunCalls(vs: seq<Visit>): seq<Call> {
    if vs == [] then [] else RunCalls(vs[..|vs| - 1]) + VisitCalls(vs[|vs| - 1])
  }

  lemma RunCallsSnoc(before: seq<Call>, vs: seq<Visit>, v: Visit)
    ensures (before + RunCalls(vs)) + VisitCalls(v) == before + RunCalls(vs + [v])
  {
    assert (vs + [v])[..|vs|] == vs;
  }

  function Rcs(vs: seq<Visit>): (r: seq<Rc>)
    ensures |r| == |vs| && forall i :: 0 <= i < |vs| ==> r[i] == RcOf(vs[i])
  {
    seq(|vs|, i requires 0 <= i < |vs| => RcOf(vs[i]))
  }

  function EndOf(v: Visit): nat {
    if v.Refused? then v.asked else v.at
  }

  /** When the last call returned, in whole milliseconds. */
  function Clock(vs: seq<Visit>): nat {
    if vs == [] then 0 else EndOf(vs[|vs| - 1])
  }

  /** A call that can follow `vs`: later, properly retried, and refused as the breaker's state says. */
  predicate Follows(l: Limits, vs: seq<Visit>, v: Visit) {
    && Clock(vs) <= v.asked
    && (v.Served? ==> v.asked <= v.at && AllRetry(v.op, v.retried) && v.end == Ending(v.op, v.last))
    && (v.Refused? <==> !Allows(After(l, Trace(vs)), v.asked))
  }

  predicate FollowsAt(l: Limits, vs: seq<Visit>, k: nat)
    requires k < |vs|
  {
    Follows(l, vs[..k], vs[k])
  }

  predicate IsRun(l: Limits, vs: seq<Visit>) {
    forall k: nat :: k < |vs| ==> FollowsAt(l, vs, k)
  }

  lemma RunSnoc(l: Limits, vs: seq<Visit>, v: Visit)
    requires IsRun(l, vs) && Follows(l, vs, v)
    ensures IsRun(l, vs + [v]) && Trace(vs + [v]) == Trace(vs) + Events(v) && Clock(vs + [v]) == EndOf(v)
  {
    var all := vs + [v];
    assert all[..|vs|] == vs;
    forall k: nat | k < |all|
      ensures FollowsAt(l, all, k)
    {
      assert k < |vs| ==> all[..k] == vs[..k] && FollowsAt(l, vs, k);
    }
  }

  lemma RunPrefix(l: Limits, vs: seq<Visit>, k: nat)
    requires IsRun(l, vs) && k <= |vs|
    ensures IsRun(l, vs[..k])
    ensures k < |vs| ==> Follows(l, vs[..k], vs[k])
  {
    assert k < |vs| ==> FollowsAt(l, vs, k);
    forall j: nat | j < k
      ensures FollowsAt(l, vs[..k], j)
    {
      assert vs[..k][..j] == vs[..j] && FollowsAt(l, vs, j);
    }
  }

  lemma RunConcluded(l: Limits, vs: seq<Visit>)
    requires IsRun(l, vs)
    ensures Concluded(vs)
  {
    forall i | 0 <= i < |vs|
      ensures vs[i].Served? ==> !vs[i].end.Retry?
    {
      assert FollowsAt(l, vs, i);
    }
  }

  // ----- Accounting -----

  /** Results recorded with the breaker. */
  function Records(h: seq<Event>): nat {
    if h == [] then 0 else Records(h[..|h| - 1]) + if h[|h| - 1].Recorded? then 1 else 0
  }

  lemma RecordsSnoc(h: seq<Event>, e: Event)
    ensures Records(h + [e]) == Records(h) + if e.Recorded? then 1 else 0
  {
    assert (h + [e])[..|h|] == h;
  }

  lemma VisitRecords(h: seq<Event>, v: Visit)
    ensures Records(h + Events(v)) == Records(h) + if v.Refused? || v.end.HardOpen? then 0 else 1
  {
    var asked := h + [Asked(v.asked)];
    RecordsSnoc(h, Asked(v.asked));
    if v.Refused? || v.end.HardOpen? {
      assert h + Events(v) == asked;
    } else {
      var e := Recorded(v.end.Done?, v.at);
      assert h + Events(v) == asked + [e];
      RecordsSnoc(asked, e);
    }
  }

  lemma {:induction false} TraceRecords(vs: seq<Visit>)
    ensures Records(Trace(vs)) == |vs| - CountRc(vs, Again) - HardOpens(vs)
  {
    if vs != [] {
      var n := |vs| - 1;
      TraceRecords(vs[..n]);
      VisitRecords(Trace(vs[..n]), vs[n]);
    }
  }

  /**
   Every call is accounted for: in the statistics, or as a failure of open or poll; and the
   breaker heard once of each call that was neither refused nor stopped by a hard open failure.
   */
  lemma Accounts(vs: seq<Visit>)
    requires Concluded(vs)
    ensures var st := StatsOf(vs);
            && |vs| == st.ioOk + st.breakerTrips + st.ioTimeout + st.ioErr + HardOpens(vs) + HardPolls(vs)
            && Records(Trace(vs)) == |vs| - st.breakerTrips - HardOpens(vs)
  {
    StatsCount(vs);
    EveryCallReturns(vs);
    TraceRecords(vs);
  }

  // ----- Files -----

  /** Files opened and not closed. */
  function OpenFiles(cs: seq<Call>): int {
    if cs == [] then 0
    else
      OpenFiles(cs[..|cs| - 1]) +
      match cs[|cs| - 1]
      case Open(o) => if o.Opened? then 1 else 0
      case Close => -1
      case _ => 0
  }

  lemma {:induction false} OpenFilesAppend(a: seq<Call>, b: seq<Call>)
    ensures OpenFiles(a + b) == OpenFiles(a) + OpenFiles(b)
  {
    if b == [] {
      assert a + b == a;
    } else {
      OpenFilesAppend(a, b[..|b| - 1]);
      assert (a + b)[..|a + b| - 1] == a + b[..|b| - 1];
    }
  }

  lemma RoundCloses(t: Try)
    ensures OpenFiles(CallsOf(t)) == 0
  {
    var cs := CallsOf(t);
    if t.o.Opened? {
      var n := |cs| - 1;
      var middle := if t.p.Ready? then [Poll(t.p), Transfer(t.i)] else [Poll(t.p)];
      assert cs == [Open(t.o)] + middle + [Close];
      assert middle[..|middle| - 1] == if t.p.Ready? then [Poll(t.p)] else [];
      assert OpenFiles([Poll(t.p)]) == 0;
      OpenFilesAppend([Open(t.o)], middle);
      OpenFilesAppend([Open(t.o)] + middle, [Close]);
    }
  }

  lemma {:induction false} RoundsClose(ts: seq<Try>)
    ensures OpenFiles(AllCalls(ts)) == 0
  {
    if ts != [] {
      var n := |ts| - 1;
      RoundsClose(ts[..n]);
      RoundCloses(ts[n]);
      OpenFilesAppend(AllCalls(ts[..n]), CallsOf(ts[n]));
    }
  }

  /** After any calls, and after every round of each, every file that was opened has been closed. */
  lemma {:induction false} FilesClosed(vs: seq<Visit>)
    ensures OpenFiles(RunCalls(vs)) == 0
  {
    if vs != [] {
      var n := |vs| - 1;
      FilesClosed(vs[..n]);
      if vs[n].Served? {
        RoundsClose(vs[n].retried + [vs[n].last]);
      }
      OpenFilesAppend(RunCalls(vs[..n]), VisitCalls(vs[n]));
    }
  }

  /** A poll only follows a successful open, and a transfer only a poll that reported the file ready. */
  ghost predicate Disciplined(cs: seq<Call>) {
    && (forall i :: 0 <= i < |cs| && cs[i].Poll? ==> i >= 1 && cs[i - 1] == Open(Opened))
    && (forall i :: 0 <= i < |cs| && cs[i].Transfer? ==> i >= 1 && cs[i - 1] == Poll(Ready))
  }

  lemma DisciplinedAppend(a: seq<Call>, b: seq<Call>)
    requires Disciplined(a) && Disciplined(b)
    ensures Disciplined(a + b)
  {
    var cs := a + b;
    assert forall i :: 0 <= i < |cs| ==> cs[i] == if i < |a| then a[i] else b[i - |a|];
  }

  lemma {:induction false} RoundsDisciplined(ts: seq<Try>)
    ensures Disciplined(AllCalls(ts))
  {
    if ts != [] {
      RoundsDisciplined(ts[..|ts| - 1]);
      assert Disciplined(CallsOf(ts[|ts| - 1]));
      DisciplinedAppend(AllCalls(ts[..|ts| - 1]), CallsOf(ts[|ts| - 1]));
    }
  }

  lemma {:induction false} CallsDisciplined(vs: seq<Visit>)
    ensures Disciplined(RunCalls(vs))
  {
    if vs != [] {
      var n := |vs| - 1;
      CallsDisciplined(vs[..n]);
      if vs[n].Served? {
        RoundsDisciplined(vs[n].retried + [vs[n].last]);
      }
      DisciplinedAppend(RunCalls(vs[..n]), VisitCalls(vs[n]));
    }
  }

  // ----- The same by looking at the calls alone -----

  /** A failure the breaker hears of: timeout, poll error or failed transfer, but no hard open failure. */
  predicate Fails(v: Visit) {
    v.Served? && !v.end.Done? && !v.end.HardOpen?
  }

  function FailuresSinceSuccess(vs: seq<Visit>): nat {
    if vs == [] then 0
    else
      var before := FailuresSinceSuccess(vs[..|vs| - 1]);
      var v := vs[|vs| - 1];
      if Fails(v) then before + 1 else if RcOf(v) == Ok then 0 else before
  }

  /** The last call is a failure, and the number of failures since the last success is a multiple of the threshold. */
  predicate Trips(l: Limits, vs: seq<Visit>)
    requires l.threshold > 0
  {
    vs != [] && Fails(vs[|vs| - 1]) && FailuresSinceSuccess(vs) % l.threshold == 0
  }

  datatype Moment = Never | At(ms: nat)

  /** When the latest tripping call returned. */
  function LastTrip(l: Limits, vs: seq<Visit>): Moment
    requires l.threshold > 0
  {
    if vs == [] then Never
    else if Trips(l, vs) then At(EndOf(vs[|vs| - 1]))
    else LastTrip(l, vs[..|vs| - 1])
  }

  // ----- Both agree -----

  /** The breaker's state after a run, by its calls. */
  predicate Explained(l: Limits, vs: seq<Visit>, m: Mode)
    requires l.threshold > 0
  {
    && m.fails == FailuresSinceSuccess(vs) % l.threshold
    && if LastTrip(l, vs).Never? then m.Closed?
       else if m.Tripped? then m == Tripped(0, LastTrip(l, vs).ms + l.halfOpen)
       else Clock(vs) >= LastTrip(l, vs).ms + l.halfOpen
  }

  lemma NextMod(x: nat, t: nat)
    requires t > 0
    ensures (x + 1) % t == if x % t + 1 >= t then 0 else x % t + 1
  {
    var q, r := x / t, x % t;
    assert x == t * q + r;
    if r + 1 == t {
      assert x + 1 == t * (q + 1);
      ModOf(x + 1, t, q + 1, 0);
    } else {
      ModOf(x + 1, t, q, r + 1);
    }
  }

  lemma ModOf(x: nat, t: nat, q: nat, r: nat)
    requires t > 0 && x == t * q + r && r < t
    ensures x % t == r
  {
    assert x == t * (x / t) + x % t;
    if x / t > q {
      Scaled(t, q + 1, x / t);
    } else {
      Scaled(t, x / t, q);
      Scaled(t, x / t, q - 1);
    }
  }

  lemma Scaled(t: nat, a: int, b: int)
    ensures a <= b ==> t * a <= t * b
  {
  }

  lemma AskedStep(l: Limits, vs: seq<Visit>, asked: nat)
    requires l.threshold > 0 && Explained(l, vs, After(l, Trace(vs))) && Clock(vs) <= asked
    requires Allows(After(l, Trace(vs)), asked)
    ensures var m := React(l, After(l, Trace(vs)), Asked(asked));
            && m == Closed(FailuresSinceSuccess(vs) % l.threshold)
            && (LastTrip(l, vs).At? ==> asked >= LastTrip(l, vs).ms + l.halfOpen)
  {
  }

  /** The breaker after a served call, from the counter before it. */
  function ModeAfter(l: Limits, fails: nat, r: Round, at: nat): Mode {
    if r.HardOpen? then Closed(fails)
    else if r.Done? then Closed(0)
    else if fails + 1 >= l.threshold then Tripped(0, at + l.halfOpen)
    else Closed(fails + 1)
  }

  lemma ServedMode(l: Limits, h: seq<Event>, v: Visit, fails: nat)
    requires v.Served? && React(l, After(l, h), Asked(v.asked)) == Closed(fails)
    ensures After(l, h + Events(v)) == ModeAfter(l, fails, v.end, v.at)
  {
    var r := v.end;
    AfterSnoc(l, h, Asked(v.asked));
    if r.HardOpen? {
      assert h + Events(v) == h + [Asked(v.asked)];
    } else {
      assert h + Events(v) == h + [Asked(v.asked)] + [Recorded(r.Done?, v.at)];
      AfterSnoc(l, h + [Asked(v.asked)], Recorded(r.Done?, v.at));
    }
  }

  lemma FailuresSnoc(vs: seq<Visit>, v: Visit)
    requires v.Served?
    ensures var r := v.end;
            FailuresSinceSuccess(vs + [v]) ==
            if r.HardOpen? then FailuresSinceSuccess(vs) else if r.Done? then 0 else FailuresSinceSuccess(vs) + 1
  {
    assert (vs + [v])[..|vs|] == vs;
  }

  lemma CountedModulo(l: Limits, n: nat, r: Round, at: nat)
    requires l.threshold > 0
    ensures var m := ModeAfter(l, n % l.threshold, r, at);
            var n' := if r.HardOpen? then n else if r.Done? then 0 else n + 1;
            && m.fails == n' % l.threshold
            && (m.Tripped? <==> !r.HardOpen? && !r.Done? && n' % l.threshold == 0)
  {
    NextMod(n, l.threshold);
  }

  /** Counting failures modulo the threshold is what the breaker does. */
  lemma CountedMode(l: Limits, vs: seq<Visit>, v: Visit)
    requires l.threshold > 0 && v.Served?
    ensures var m := ModeAfter(l, FailuresSinceSuccess(vs) % l.threshold, v.end, v.at);
            && m.fails == FailuresSinceSuccess(vs + [v]) % l.threshold
            && (m.Tripped? <==> Trips(l, vs + [v]))
  {
    FailuresSnoc(vs, v);
    CountedModulo(l, FailuresSinceSuccess(vs), v.end, v.at);
  }

  lemma LastTripSnoc(l: Limits, vs: seq<Visit>, v: Visit)
    requires l.threshold > 0
    ensures LastTrip(l, vs + [v]) == if Trips(l, vs + [v]) then At(EndOf(v)) else LastTrip(l, vs)
  {
    assert (vs + [v])[..|vs|] == vs;
  }

  lemma ServedStep(l: Limits, vs: seq<Visit>, v: Visit)
    requires l.threshold > 0 && Follows(l, vs, v) && v.Served?
    requires Explained(l, vs, After(l, Trace(vs)))
    ensures Explained(l, vs + [v], After(l, Trace(vs) + Events(v)))
  {
    AskedStep(l, vs, v.asked);
    ServedMode(l, Trace(vs), v, FailuresSinceSuccess(vs) % l.threshold);
    CountedMode(l, vs, v);
    LastTripSnoc(l, vs, v);
  }

  lemma RefusedStep(l: Limits, vs: seq<Visit>, v: Visit)
    requires l.threshold > 0 && Follows(l, vs, v) && v.Refused?
    requires Explained(l, vs, After(l, Trace(vs)))
    ensures Explained(l, vs + [v], After(l, Trace(vs) + Events(v)))
  {
    assert (vs + [v])[..|vs|] == vs;
    AfterSnoc(l, Trace(vs), Asked(v.asked));
  }

  lemma VisitStep(l: Limits, vs: seq<Visit>, v: Visit)
    requires l.threshold > 0 && Follows(l, vs, v)
    requires Explained(l, vs, After(l, Trace(vs)))
    ensures Explained(l, vs + [v], After(l, Trace(vs + [v])))
  {
    assert (vs + [v])[..|vs|] == vs;
    if v.Served? {
      ServedStep(l, vs, v);
    } else {
      RefusedStep(l, vs, v);
    }
  }

  /** After every run the counter is the number of failures since the last success, modulo the threshold. */
  lemma {:induction false} RunExplained(l: Limits, vs: seq<Visit>)
    requires l.threshold > 0 && IsRun(l, vs)
    ensures Explained(l, vs, After(l, Trace(vs)))
  {
    if vs != [] {
      var n := |vs| - 1;
      RunPrefix(l, vs, n);
      RunExplained(l, vs[..n]);
      assert vs == vs[..n] + [vs[n]];
      VisitStep(l, vs[..n], vs[n]);
    }
  }

  /**
   In every run: a call opens the breaker exactly when it is a failure and the failures since
   the last success, itself included, are a multiple of the threshold. Hard open failures and
   refused calls neither count nor interrupt the counting.
   */
  lemma TripsExactly(l: Limits, vs: seq<Visit>, k: nat)
    requires l.threshold > 0 && IsRun(l, vs) && k < |vs|
    ensures vs[k].Served? && After(l, Trace(vs[..k + 1])).Tripped? <==> Trips(l, vs[..k + 1])
    ensures Trips(l, vs[..k + 1]) ==> After(l, Trace(vs[..k + 1])) == Tripped(0, vs[k].at + l.halfOpen)
  {
    var before, v := vs[..k], vs[k];
    RunPrefix(l, vs, k);
    RunExplained(l, before);
    assert vs[..k + 1] == before + [v] && (before + [v])[..k] == before;
    if v.Served? {
      AskedStep(l, before, v.asked);
      ServedMode(l, Trace(before), v, FailuresSinceSuccess(before) % l.threshold);
      CountedMode(l, before, v);
    }
  }

  /**
   In every run: a call is refused exactly when a call before it tripped the breaker, the last
   such at T, and it asks before T + half_open_ms.
   */
  lemma RefusedExactly(l: Limits, vs: seq<Visit>, k: nat)
    requires l.threshold > 0 && IsRun(l, vs) && k < |vs|
    ensures vs[k].Refused? <==> var trip := LastTrip(l, vs[..k]); trip.At? && vs[k].asked < trip.ms + l.halfOpen
  {
    RunPrefix(l, vs, k);
    RunExplained(l, vs[..k]);
  }
}
