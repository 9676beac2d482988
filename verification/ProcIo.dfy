/**
 Reading and writing a procfs node: non-blocking open, poll, transfer, with retries,
 exponential backoff, a deadline, statistics and the circuit breaker.
 */
module ProcIo {
  import opened Os
  import opened Backoff
  import opened Breaker
  import opened Calls

  datatype Config = Config(timeoutMs: uint32, backoffInitUs: uint32, backoffMaxUs: uint32)

  // ----- Sleeping -----

  function Sum(xs: seq<nat>): nat {
    if xs == [] then 0 else Sum(xs[..|xs| - 1]) + xs[|xs| - 1]
  }

  /** The delays the backoff prescribes for so many sleeps. */
  function Schedule(init: nat, max: nat, count: nat): (s: seq<nat>)
    ensures |s| == count && forall k :: 0 <= k < count ==> s[k] == Delay(init, max, k)
  {
    seq(count, k requires 0 <= k < count => Delay(init, max, k))
  }

  lemma ScheduleSnoc(init: nat, max: nat, count: nat)
    ensures Schedule(init, max, count + 1) == Schedule(init, max, count) + [Delay(init, max, count)]
  {
  }

  lemma SumSnoc(xs: seq<nat>, x: nat)
    ensures Sum(xs + [x]) == Sum(xs) + x && (xs + [x])[..|xs|] == xs
  {
    assert (xs + [x])[..|xs|] == xs;
  }

  lemma {:induction false} SumAtLeast(xs: seq<nat>, m: nat)
    requires forall k :: 0 <= k < |xs| ==> xs[k] >= m
    ensures Sum(xs) >= |xs| * m
  {
    if xs != [] {
      SumAtLeast(xs[..|xs| - 1], m);
    }
  }

  lemma ScheduleSum(init: nat, max: nat, count: nat)
    ensures Sum(Schedule(init, max, count)) >= count * Min(init, max)
  {
    forall k | 0 <= k < count
      ensures Schedule(init, max, count)[k] >= Min(init, max)
    {
      DelayAtLeast(init, max, k);
    }
    SumAtLeast(Schedule(init, max, count), Min(init, max));
  }

  lemma SlowedDown(init: nat, max: nat, count: nat, k: nat, limit: nat)
    requires k <= count && Sum(Schedule(init, max, count)) < limit
    ensures k * Min(init, max) < limit
  {
    ScheduleSum(init, max, count);
    Scaled(k, count, Min(init, max));
  }

  lemma Scaled(a: nat, b: nat, m: nat)
    requires a <= b
    ensures a * m <= b * m
  {
  }

  /** Whole-millisecond readings that differ by less than T are less than T milliseconds apart. */
  lemma MsGap(start: nat, end: nat, limit: nat)
    requires start <= end && end / NS_PER_MS - start / NS_PER_MS < limit
    ensures end - start < limit * NS_PER_MS
  {
  }

  lemma CallsSnoc(before: seq<Call>, ts: seq<Try>, t: Try)
    ensures (before + AllCalls(ts)) + CallsOf(t) == before + AllCalls(ts + [t])
  {
    assert (ts + [t])[..|ts|] == ts;
  }

  lemma EventsJoined(h: seq<Event>, v: Visit)
    ensures v.Refused? ==> h + [Asked(v.asked)] == h + Events(v)
    ensures v.Served? ==> (h + [Asked(v.asked)]) + Report(v.end, v.at) == h + Events(v)
  {
  }

  /** The breaker has heard exactly what the calls up to `ms` report. */
  ghost predicate Heard(l: Limits, history: seq<Event>, vs: seq<Visit>, ms: nat) {
    history == Trace(vs) && IsRun(l, vs) && Clock(vs) <= ms
  }

  lemma HeardLater(l: Limits, history: seq<Event>, vs: seq<Visit>, ms: nat, v: Visit)
    requires Heard(l, history, vs, ms) && ms <= v.asked <= EndOf(v)
    requires v.Served? ==> AllRetry(v.op, v.retried) && v.end == Ending(v.op, v.last)
    requires v.Refused? <==> !Allows(After(l, history), v.asked)
    ensures Heard(l, history + Events(v), vs + [v], EndOf(v))
  {
    RunSnoc(l, vs, v);
  }

  lemma StatsJoined(st: Stats, v: Visit)
    ensures v.Refused? ==> st.(breakerTrips := st.breakerTrips + 1) == StatsAfter(st, v)
    ensures v.Served? ==> Booked(Pauses(st, |v.retried| + if v.end.Late? then 1 else 0), v.end) == StatsAfter(st, v)
  {
  }

  lemma StatsSnoc(vs: seq<Visit>, since: nat, v: Visit)
    requires since <= |vs|
    ensures StatsOf((vs + [v])[since..]) == StatsAfter(StatsOf(vs[since..]), v)
  {
    assert (vs + [v])[since..] == vs[since..] + [v];
    assert (vs[since..] + [v])[..|vs| - since] == vs[since..];
  }

  /** The time, the file operations and sleeps so far and the statistics when a call begins. */
  datatype Begun = Begun(at: nat, calls: seq<Call>, slept: seq<nat>, stats: Stats)

  class Pm {
    const world: World
    const cb: CircuitBreaker
    const cfg: Config
    var stats: Stats
    ghost var visits: seq<Visit>       // every call since the breaker was set up
    ghost var since: nat               // how many of them before the statistics were last reset

    ghost function First(): nat {
      OrDefault(cfg.backoffInitUs, 100)
    }

    ghost function Longest(): nat {
      OrDefault(cfg.backoffMaxUs, 20000)
    }

    /** Between calls. */
    ghost predicate Valid()
      reads this, cb, world
    {
      && cb.Valid()
      && since <= |visits| && stats == StatsOf(visits[since..])
      && Heard(cb.Bounds(), cb.history, visits, world.now / NS_PER_MS)
    }

    /**
     Since the last reset every call is in the statistics or was stopped by a failure of open or
     poll; and since the breaker was set up it heard once of each call that was neither refused
     nor stopped by a hard open failure.
     */
    lemma Accounted()
      requires Valid()
      ensures var vs := visits[since..];
              |vs| == stats.ioOk + stats.breakerTrips + stats.ioTimeout + stats.ioErr + HardOpens(vs) + HardPolls(vs)
      ensures Records(cb.history) == |visits| - CountRc(visits, Again) - HardOpens(visits)
    {
      RunConcluded(cb.Bounds(), visits);
      Accounts(visits[since..]);
      TraceRecords(visits);
    }

    /** The breaker's fields, from the calls alone. */
    lemma BreakerExplained()
      requires Valid()
      ensures cb.failN == FailuresSinceSuccess(visits) % cb.tripThreshold
      ensures var trip := LastTrip(cb.Bounds(), visits);
              if trip.Never? then !cb.open
              else if cb.open then Ms(cb.openUntil) == trip.ms + cb.halfOpenMs
              else world.now / NS_PER_MS >= trip.ms + cb.halfOpenMs
    {
      RunExplained(cb.Bounds(), visits);
    }

    /** pm_init with the values of a configuration. */
    constructor (world: World, cfg: Config, threshold: uint32, halfOpen: uint32)
      ensures Valid() && this.world == world && this.cfg == cfg && visits == [] && since == 0 && fresh(cb)
      ensures stats == ZERO_STATS
    {
      this.world := world;
      this.cfg := cfg;
      cb := new CircuitBreaker(threshold, halfOpen);
      stats := ZERO_STATS;
      visits, since := [], 0;
    }

    method ResetStats()
      requires Valid()
      modifies this`stats, this`since
      ensures Valid() && since == |visits| && stats == ZERO_STATS
    {
      stats := ZERO_STATS;
      since := |visits|;
    }

    /** One round: whatever happens after a successful open, the file is closed once. */
    method Attempt(op: Operation) returns (r: Round, ghost t: Try)
      modifies world
      ensures r == RoundOf(op, t) && world.calls == old(world.calls) + CallsOf(t)
      ensures world.now >= old(world.now) && world.slept == old(world.slept)
      ensures world.NothingOpens() ==> r.HardOpen?
    {
      var fd := world.OpenFile();
      t := Try(fd, Ready, IoFailed(false));
      if !fd.Opened? {
        r := if fd.OpenBusy? then Retry else HardOpen;
        return;
      }
      var pr := world.PollFile();
      t := t.(p := pr);
      if pr.Expired? {
        r := PollExpired;
      } else if !pr.Ready? {
        r := if pr.Interrupted? then Retry else PollBroken;
      } else {
        var n := world.TransferData();
        t := t.(i := n);
        r := if Succeeds(op, n) then Done else if Retries(n) then Retry else Broken;
      }
      world.CloseFile();
    }

    /** The end of a call with this round. */
    method Settle(r: Round) returns (rc: Rc)
      requires cb.Valid() && !r.Retry?
      modifies this`stats, cb, world
      ensures cb.Valid() && cb.Bounds() == old(cb.Bounds())
      ensures rc == EndRc(r) && stats == Booked(old(stats), r)
      ensures cb.history == old(cb.history) + Report(r, world.now / NS_PER_MS)
      ensures r.HardOpen? ==> cb.View() == old(cb.View())
      ensures world.now >= old(world.now)
      ensures world.slept == old(world.slept) && world.calls == old(world.calls)
    {
      match r {
        case Done => rc := Ok; stats := stats.(ioOk := stats.ioOk + 1);
        case PollExpired => rc := Timeout; stats := stats.(ioTimeout := stats.ioTimeout + 1);
        case Late => rc := Timeout; stats := stats.(ioTimeout := stats.ioTimeout + 1);
        case Broken => rc := IoErr; stats := stats.(ioErr := stats.ioErr + 1);
        case _ => rc := IoErr;
      }
      if !r.HardOpen? {
        cb.Record(world, r.Done?);
      }
    }

    /** The delays of so many sleeps. */
    ghost function Sleeps(n: nat): (s: seq<nat>)
      ensures |s| == n
    {
      Schedule(First(), Longest(), n)
    }

    /** All sleeps of a call but the last fit in the time limit. */
    ghost predicate Paced(n: nat) {
      n > 0 ==> Sum(Sleeps(n - 1)) < 1000 * cfg.timeoutMs
    }

    /** How many retries the time limit allows. */
    ghost predicate RetriesBounded(n: nat) {
      n >= 2 ==> (n - 2) * Min(First(), Longest()) < 1000 * cfg.timeoutMs
    }

    lemma OneMoreSleep(before: seq<nat>, n: nat)
      requires Sum(Sleeps(n)) < 1000 * cfg.timeoutMs
      ensures var v := Delay(First(), Longest(), n);
              && (before + Sleeps(n)) + [v] == before + Sleeps(n + 1)
              && Sum(Sleeps(n + 1)) == Sum(Sleeps(n)) + v
              && Paced(n + 1)
    {
      ScheduleSnoc(First(), Longest(), n);
      SumSnoc(Sleeps(n), Delay(First(), Longest(), n));
    }

    /** A call that was let through at `g` has been retried after these rounds, sleeping on schedule. */
    ghost predicate Ongoing(op: Operation, bo: Timer, g: Begun, retried: seq<Try>)
      reads this, bo, world
    {
      && Rested(bo, g, |retried|)
      && AllRetry(op, retried) && world.calls == g.calls + AllCalls(retried)
      && stats == Pauses(g.stats, |retried|)
    }

    ghost predicate Rested(bo: Timer, g: Begun, n: nat)
      reads bo, world
    {
      && bo.Valid() && bo.first == First() && bo.max == Longest() && bo.calls == n
      && world.slept == g.slept + Sleeps(n) && Paced(n)
      && world.now >= g.at + Sum(Sleeps(n)) * NS_PER_US
    }

    /** Such a call is over with the round `last`. */
    ghost predicate Over(op: Operation, g: Begun, r: Round, retried: seq<Try>, last: Try)
      reads this, world
    {
      && AllRetry(op, retried) && r == Ending(op, last)
      && world.calls == g.calls + AllCalls(retried + [last])
      && world.slept == g.slept + Sleeps(|retried|) && Paced(|retried|) && world.now >= g.at
      && stats == Pauses(g.stats, |retried| + if r.Late? then 1 else 0)
      && (r.Late? ==> world.now / NS_PER_MS >= g.at / NS_PER_MS + cfg.timeoutMs)
      && (world.NothingOpens() ==> r.HardOpen?)
    }

    /** The retry label: counts, checks the deadline, sleeps. */
    method Pause(bo: Timer, t0: nat, ghost g: Begun, ghost n: nat) returns (late: bool)
      requires Rested(bo, g, n) && t0 == g.at / NS_PER_MS
      modifies this`stats, bo, world
      ensures stats == Pauses(old(stats), 1) && world.calls == old(world.calls)
      ensures late ==> world.slept == old(world.slept) && world.now >= old(world.now)
      ensures late ==> world.now / NS_PER_MS >= t0 + cfg.timeoutMs
      ensures !late ==> Rested(bo, g, n + 1)
      ensures !late ==> old(world.now) < world.now && old(world.now) < (t0 + cfg.timeoutMs) * NS_PER_MS
    {
      stats := stats.(ioRetry := stats.ioRetry + 1);
      var t := world.ClockGet();
      MsOfTime(world.now);
      if Ms(t) - t0 >= cfg.timeoutMs {
        return true;
      }
      MsGap(g.at, world.now, cfg.timeoutMs);
      OneMoreSleep(g.slept, n);
      var v := bo.Next();
      world.USleep(v);
      return false;
    }

    /** The breaker's answer at the start of a call; a refusal touches no file. */
    method Enter() returns (ok: bool)
      requires cb.Valid()
      modifies this`stats, cb, world
      ensures cb.Valid() && cb.Bounds() == old(cb.Bounds())
      ensures cb.history == old(cb.history) + [Asked(world.now / NS_PER_MS)]
      ensures ok <==> Allows(old(cb.View()), world.now / NS_PER_MS)
      ensures stats == if ok then old(stats) else old(stats).(breakerTrips := old(stats.breakerTrips) + 1)
      ensures !ok || !old(cb.open) ==> cb.View() == old(cb.View())
      ensures world.now >= old(world.now)
      ensures world.slept == old(world.slept) && world.calls == old(world.calls)
    {
      ok := cb.Allow(world);
      if !ok {
        stats := stats.(breakerTrips := stats.breakerTrips + 1);
      }
    }

    /** One turn of the loop: a round, and if it has to be retried a pause. */
    method Turn(op: Operation, bo: Timer, t0: nat, ghost g: Begun, ghost retried: seq<Try>) returns (r: Round, ghost t: Try)
      requires Ongoing(op, bo, g, retried) && t0 == g.at / NS_PER_MS
      modifies this`stats, bo, world
      ensures if r.Retry? then Ongoing(op, bo, g, retried + [t]) else Over(op, g, r, retried, t)
      ensures r.Retry? ==> old(world.now) < world.now && old(world.now) < (t0 + cfg.timeoutMs) * NS_PER_MS
    {
      r, t := Attempt(op);
      CallsSnoc(g.calls, retried, t);
      if r.Retry? {
        var late := Pause(bo, t0, g, |retried|);
        if late {
          r := Late;
        }
      }
    }

    /** The loop; what shrinks is the time left until the deadline. */
    method Rounds(op: Operation) returns (r: Round, ghost retried: seq<Try>, ghost last: Try)
      modifies this`stats, world
      ensures Over(op, old(Begun(world.now, world.calls, world.slept, stats)), r, retried, last)
    {
      var t := world.ClockGet();
      ghost var g := Begun(world.now, world.calls, world.slept, stats);
      MsOfTime(g.at);
      var t0 := Ms(t);
      var bo := new Timer(cfg.backoffInitUs, cfg.backoffMaxUs);
      retried := [];
      r, last := Retry, Try(OpenBusy, Ready, IoFailed(false));
      while r.Retry?
        invariant fresh(bo)
        invariant if r.Retry? then Ongoing(op, bo, g, retried) else Over(op, g, r, retried, last)
        decreases r.Retry?, (t0 + cfg.timeoutMs) * NS_PER_MS - world.now
      {
        r, last := Turn(op, bo, t0, g, retried);
        if r.Retry? {
          retried := retried + [last];
        }
      }
    }

    /** A call the breaker has let through. */
    method Work(op: Operation) returns (rc: Rc, ghost end: Round, ghost retried: seq<Try>, ghost last: Try)
      requires cb.Valid()
      modifies this`stats, cb, world
      ensures cb.Valid() && cb.Bounds() == old(cb.Bounds()) && world.now >= old(world.now)
      ensures AllRetry(op, retried) && end == Ending(op, last) && rc == EndRc(end)
      ensures cb.history == old(cb.history) + Report(end, world.now / NS_PER_MS)
      ensures end.HardOpen? ==> cb.View() == old(cb.View())
      ensures stats == Booked(Pauses(old(stats), |retried| + if end.Late? then 1 else 0), end)
      ensures RetriesBounded(|retried| + if end.Late? then 1 else 0)
      ensures world.calls == old(world.calls) + AllCalls(retried + [last])
      ensures world.slept == old(world.slept) + Sleeps(|retried|)
      ensures world.NothingOpens() ==> end.HardOpen?
      ensures end.Late? ==> world.now / NS_PER_MS >= old(world.now) / NS_PER_MS + cfg.timeoutMs
    {
      var r;
      r, retried, last := Rounds(op);
      end := r;
      PacedRetries(|retried|, |retried| + if r.Late? then 1 else 0);
      rc := Settle(r);
    }

    /** The body of a read or write. */
    method Perform(op: Operation) returns (rc: Rc, ghost v: Visit)
      requires cb.Valid()
      modifies this`stats, cb, world
      ensures cb.Valid() && cb.Bounds() == old(cb.Bounds()) && cb.history == old(cb.history) + Events(v)
      ensures rc == RcOf(v) && stats == StatsAfter(old(stats), v) && world.calls == old(world.calls) + VisitCalls(v)
      ensures v.Served? ==> v.op == op && AllRetry(op, v.retried) && v.end == Ending(op, v.last)
      ensures old(world.now) / NS_PER_MS <= v.asked <= EndOf(v) == world.now / NS_PER_MS
      ensures v.Refused? <==> !Allows(old(cb.View()), v.asked)
      ensures v.Refused? || (v.end.HardOpen? && !old(cb.open)) ==> cb.View() == old(cb.View())
      ensures world.slept == old(world.slept) + Sleeps(if v.Refused? then 0 else |v.retried|)
      ensures v.Served? && world.NothingOpens() ==> v.end.HardOpen?
      ensures RetriesBounded(Retried(v))
      ensures v.Served? && v.end.Late? ==> world.now / NS_PER_MS >= old(world.now) / NS_PER_MS + cfg.timeoutMs
    {
      var ok := Enter();
      ghost var asked := world.now / NS_PER_MS;
      if !ok {
        rc, v := Again, Refused(asked);
      } else {
        ghost var end, retried, last;
        rc, end, retried, last := Work(op);
        v := Served(op, asked, retried, last, end, world.now / NS_PER_MS);
      }
      EventsJoined(old(cb.history), v);
      StatsJoined(old(stats), v);
    }

    /**
     One read or write. It always ends. It is refused exactly while the breaker is open at the
     time it asks, and then without a file operation; otherwise its rounds decide the return
     code, the statistics and what the breaker hears when it returns. Its sleeps follow the
     schedule and R retries satisfy (R - 2) * min(init, max) < 1000 * timeout.
     */
    method Transact(op: Operation) returns (rc: Rc, ghost v: Visit)
      requires Valid()
      modifies this`stats, this`visits, cb, world
      ensures Valid() && cb.Bounds() == old(cb.Bounds())
      ensures visits == old(visits) + [v] && rc == RcOf(v)
      ensures stats == StatsAfter(old(stats), v) && world.calls == old(world.calls) + VisitCalls(v)
      ensures old(world.now) / NS_PER_MS <= v.asked <= EndOf(v) == world.now / NS_PER_MS
      ensures v.Refused? <==> !Allows(old(cb.View()), v.asked)
      ensures Meaningful(v)
      ensures v.Served? ==> v.op == op && (world.NothingOpens() ==> v.end.HardOpen?)
      ensures v.Refused? || (v.end.HardOpen? && !old(cb.open)) ==> cb.View() == old(cb.View())
      ensures world.slept == old(world.slept) + Sleeps(if v.Refused? then 0 else |v.retried|)
      ensures v.Served? && v.end.Late? ==> world.now / NS_PER_MS >= old(world.now) / NS_PER_MS + cfg.timeoutMs
      ensures RetriesBounded(Retried(v))
    {
      rc, v := Perform(op);
      VisitMeaning(v);
      HeardLater(cb.Bounds(), old(cb.history), visits, old(world.now) / NS_PER_MS, v);
      StatsSnoc(visits, since, v);
      assert Heard(cb.Bounds(), cb.history, visits + [v], world.now / NS_PER_MS);
      assert stats == StatsOf((visits + [v])[since..]);
      visits := visits + [v];
    }

    lemma PacedRetries(n: nat, retries: nat)
      requires Paced(n) && n <= retries <= n + 1
      ensures RetriesBounded(retries)
    {
      if retries >= 2 {
        SlowedDown(First(), Longest(), n - 1, retries - 2, 1000 * cfg.timeoutMs);
      }
    }
  }

  // ----- Any sequence of calls -----

  /** One call for each operation. */
  predicate Serving(vs: seq<Visit>, ops: seq<Operation>) {
    |vs| == |ops| && forall k :: 0 <= k < |vs| ==> vs[k].Served? ==> vs[k].op == ops[k]
  }

  lemma SessionSnoc(before: seq<Visit>, vs: seq<Visit>, v: Visit, ops: seq<Operation>, i: nat)
    requires i < |ops| && Serving(vs, ops[..i]) && (v.Served? ==> v.op == ops[i])
    ensures (before + vs) + [v] == before + (vs + [v])
    ensures Rcs(vs + [v]) == Rcs(vs) + [RcOf(v)]
    ensures Serving(vs + [v], ops[..i + 1])
  {
  }

  /**
   Reads and writes one after another, from any state. What each returns is decided by its own
   rounds, and over all calls since the breaker was set up one is refused, without a file
   operation, exactly if it asks less than half_open_ms after the latest trip.
   */
  method Session(pm: Pm, ops: seq<Operation>) returns (rcs: seq<Rc>, ghost vs: seq<Visit>)
    requires pm.Valid()
    modifies pm, pm.cb, pm.world
    ensures pm.Valid() && pm.cb.Bounds() == old(pm.cb.Bounds())
    ensures pm.visits == old(pm.visits) + vs && rcs == Rcs(vs)
    ensures Serving(vs, ops) && pm.world.calls == old(pm.world.calls) + RunCalls(vs)
    ensures forall k :: 0 <= k < |pm.visits| ==> Meaningful(pm.visits[k])
    ensures forall k :: 0 <= k < |pm.visits| ==>
              (RcOf(pm.visits[k]) == Again <==>
               var trip := LastTrip(pm.cb.Bounds(), pm.visits[..k]);
               trip.At? && pm.visits[k].asked < trip.ms + pm.cb.halfOpenMs)
  {
    var i := 0;
    rcs, vs := [], [];
    while i < |ops|
      invariant i <= |ops| && pm.visits == old(pm.visits) + vs && rcs == Rcs(vs)
      invariant pm.Valid() && pm.cb.Bounds() == old(pm.cb.Bounds())
      invariant Serving(vs, ops[..i]) && pm.world.calls == old(pm.world.calls) + RunCalls(vs)
    {
      var rc;
      ghost var v;
      rc, v := pm.Transact(ops[i]);
      RunCallsSnoc(old(pm.world.calls), vs, v);
      SessionSnoc(old(pm.visits), vs, v, ops, i);
      rcs, vs := rcs + [rc], vs + [v];
      i := i + 1;
    }
    assert ops[..i] == ops;
    AllExplained(pm.cb.Bounds(), pm.visits);
  }

  lemma AllExplained(l: Limits, vs: seq<Visit>)
    requires l.threshold > 0 && IsRun(l, vs)
    ensures forall k :: 0 <= k < |vs| ==> Meaningful(vs[k])
    ensures forall k :: 0 <= k < |vs| ==>
              (RcOf(vs[k]) == Again <==> var trip := LastTrip(l, vs[..k]); trip.At? && vs[k].asked < trip.ms + l.halfOpen)
  {
    forall k | 0 <= k < |vs|
      ensures RcOf(vs[k]) == Again <==> var trip := LastTrip(l, vs[..k]); trip.At? && vs[k].asked < trip.ms + l.halfOpen
    {
      RefusedExactly(l, vs, k);
    }
    forall k | 0 <= k < |vs|
      ensures Meaningful(vs[k])
    {
      assert FollowsAt(l, vs, k);
      VisitMeaning(vs[k]);
    }
  }

  /**
   Calls on a path that does not exist: a hard open failure is not recorded, so however
   often it is repeated the breaker never trips and no call is refused.
   */
  method RepeatOnMissingPath(pm: Pm, n: nat) returns (rcs: seq<Rc>)
    requires pm.Valid() && pm.world.NothingOpens() && !pm.cb.open
    modifies pm, pm.cb, pm.world
    ensures pm.Valid() && pm.cb.View() == old(pm.cb.View())
    ensures rcs == seq(n, _ => IoErr)
  {
    rcs := [];
    while |rcs| < n
      invariant |rcs| <= n && rcs == seq(|rcs|, _ => IoErr)
      invariant pm.Valid() && pm.cb.View() == old(pm.cb.View())
    {
      var rc, _ := pm.Transact(Read);
      rcs := rcs + [rc];
    }
  }
}
