/**
 The circuit breaker: opens after a number of consecutive recorded failures and refuses
 calls for a fixed time. The source keeps the end of that time as seconds and
 nanoseconds; the reference works on whole milliseconds.
 */
module Breaker {
  import opened Os

  // ----- Reference on milliseconds -----

  datatype Event = Asked(at: nat) | Recorded(ok: bool, at: nat)

  datatype Mode = Closed(fails: nat) | Tripped(fails: nat, until: nat)

  datatype Limits = Limits(threshold: nat, halfOpen: nat)

  predicate Allows(m: Mode, at: nat) {
    m.Closed? || at >= m.until
  }

  function React(l: Limits, m: Mode, e: Event): Mode {
    match e
    case Asked(at) => if m.Tripped? && at >= m.until then Closed(0) else m
    case Recorded(ok, at) =>
      if ok then m.(fails := 0)
      else if m.fails + 1 >= l.threshold then Tripped(0, at + l.halfOpen)
      else m.(fails := m.fails + 1)
  }

  function After(l: Limits, h: seq<Event>): Mode {
    if h == [] then Closed(0) else React(l, After(l, h[..|h| - 1]), h[|h| - 1])
  }

  lemma AfterSnoc(l: Limits, h: seq<Event>, e: Event)
    ensures After(l, h + [e]) == React(l, After(l, h), e)
  {
    assert (h + [e])[..|h|] == h;
  }

  /** The k-th event of a history is a success, a trip or an expiry. */
  predicate Resets(l: Limits, h: seq<Event>, k: nat)
    requires k < |h|
    decreases k, 1
  {
    match h[k]
    case Asked(at) => After(l, h[..k]).Tripped? && at >= After(l, h[..k]).until
    case Recorded(ok, _) => ok || FailuresSinceReset(l, h[..k]) + 1 >= l.threshold
  }

  /** Failures recorded since the last reset. */
  function FailuresSinceReset(l: Limits, h: seq<Event>): nat
    decreases |h|, 0
  {
    if h == [] then 0
    else
      var k := |h| - 1;
      if Resets(l, h, k) then 0
      else FailuresSinceReset(l, h[..k]) + if h[k].Recorded? then 1 else 0
  }

  /** The counter is the number of failures since the last reset, and below the threshold. */
  lemma {:induction false} FailsCountFailures(l: Limits, h: seq<Event>)
    requires l.threshold > 0
    ensures After(l, h).fails == FailuresSinceReset(l, h) < l.threshold
  {
    if h != [] {
      FailsCountFailures(l, h[..|h| - 1]);
    }
  }

  /** A recorded failure trips the breaker exactly when it is the threshold-th since the last reset. */
  lemma {:induction false} TripsAtThreshold(l: Limits, h: seq<Event>, at: nat)
    requires l.threshold > 0
    ensures After(l, h + [Recorded(false, at)]) ==
            if FailuresSinceReset(l, h) + 1 == l.threshold then Tripped(0, at + l.halfOpen)
            else After(l, h).(fails := FailuresSinceReset(l, h) + 1)
  {
    FailsCountFailures(l, h);
    assert (h + [Recorded(false, at)])[..|h|] == h;
  }

  predicate AllAsked(h: seq<Event>, before: nat) {
    forall i :: 0 <= i < |h| ==> h[i].Asked? && h[i].at < before
  }

  /** From a trip at T every question before T + halfOpen is refused and changes nothing; the next one is granted. */
  lemma {:induction false} RefusedUntil(l: Limits, h: seq<Event>, at: nat, asked: seq<Event>, t: nat)
    requires l.threshold > 0 && FailuresSinceReset(l, h) + 1 == l.threshold
    requires AllAsked(asked, at + l.halfOpen)
    ensures var m := After(l, h + [Recorded(false, at)] + asked);
            m == Tripped(0, at + l.halfOpen) && (Allows(m, t) <==> t >= at + l.halfOpen)
    decreases |asked|
  {
    var trip := h + [Recorded(false, at)];
    if asked == [] {
      FailsCountFailures(l, h);
      assert trip[..|h|] == h && trip + asked == trip;
    } else {
      var n := |asked| - 1;
      RefusedUntil(l, h, at, asked[..n], t);
      assert (trip + asked)[..|trip| + n] == trip + asked[..n];
      assert asked[n].Asked?;
    }
  }

  // ----- The breaker as the source holds it -----

  class CircuitBreaker {
    var failN: uint32
    var tripThreshold: uint32
    var halfOpenMs: uint32
    var openUntil: Timespec
    var open: bool
    ghost var history: seq<Event>

    ghost function Bounds(): Limits
      reads this
    {
      Limits(tripThreshold, halfOpenMs)
    }

    ghost function View(): Mode
      reads this
    {
      if open then Tripped(failN, Ms(openUntil)) else Closed(failN)
    }

    ghost predicate Valid()
      reads this
    {
      tripThreshold > 0 && halfOpenMs > 0 && failN < tripThreshold && View() == After(Bounds(), history)
    }

    constructor (threshold: uint32, halfOpen: uint32)
      ensures Valid() && history == []
      ensures Bounds() == Limits(if threshold != 0 then threshold else 8, if halfOpen != 0 then halfOpen else 200)
    {
      failN, openUntil, open := 0, Timespec(0, 0), false;
      tripThreshold := if threshold != 0 then threshold else 8;
      halfOpenMs := if halfOpen != 0 then halfOpen else 200;
      history := [];
    }

    /** Reads the clock only while open. */
    method Allow(world: World) returns (ok: bool)
      requires Valid()
      modifies this, world
      ensures Valid() && Bounds() == old(Bounds()) && world.now >= old(world.now)
      ensures history == old(history) + [Asked(world.now / NS_PER_MS)]
      ensures ok <==> Allows(old(View()), world.now / NS_PER_MS)
      ensures world.slept == old(world.slept) && world.calls == old(world.calls)
      ensures !ok || !old(open) ==> View() == old(View())
      ensures ok ==> !open
    {
      ok := true;
      if open {
        var t := world.ClockGet();
        MsOfTime(world.now);
        if Ms(t) >= Ms(openUntil) {
          open, failN := false, 0;
        } else {
          ok := false;
        }
      }
      AfterSnoc(Bounds(), history, Asked(world.now / NS_PER_MS));
      history := history + [Asked(world.now / NS_PER_MS)];
    }

    /** Sets the end of the refusal time: the carry into seconds loses no millisecond. */
    method Trip(world: World)
      modifies this`open, this`openUntil, this`failN, world
      ensures open && failN == 0 && world.now >= old(world.now)
      ensures Ms(openUntil) == world.now / NS_PER_MS + halfOpenMs
      ensures world.slept == old(world.slept) && world.calls == old(world.calls)
    {
      open := true;
      var t := world.ClockGet();
      var ns: nat := t.nsec + halfOpenMs as int * NS_PER_MS;
      openUntil := Timespec(t.sec + ns / NS_PER_S, ns % NS_PER_S);
      failN := 0;
      CarryIsExact(world.now, halfOpenMs);
    }

    method Record(world: World, ok: bool)
      requires Valid()
      modifies this, world
      ensures Valid() && Bounds() == old(Bounds()) && world.now >= old(world.now)
      ensures history == old(history) + [Recorded(ok, world.now / NS_PER_MS)]
      ensures world.slept == old(world.slept) && world.calls == old(world.calls)
    {
      ghost var m := View();
      if ok {
        failN := 0;
        assert View() == m.(fails := 0);
      } else if failN + 1 >= tripThreshold {
        Trip(world);
        assert View() == Tripped(0, world.now / NS_PER_MS + halfOpenMs);
      } else {
        failN := failN + 1;
        assert View() == m.(fails := m.fails + 1);
      }
      ghost var e := Recorded(ok, world.now / NS_PER_MS);
      assert View() == React(Bounds(), m, e);
      AfterSnoc(Bounds(), history, e);
      history := history + [e];
    }
  }

  lemma CarryIsExact(now: nat, half: nat)
    ensures var t := ToTimespec(now);
            var ns := t.nsec + half * NS_PER_MS;
            Ms(Timespec(t.sec + ns / NS_PER_S, ns % NS_PER_S)) == now / NS_PER_MS + half
  {
    var t := ToTimespec(now);
    var ns := t.nsec + half * NS_PER_MS;
    var total := now + half * NS_PER_MS;
    assert total == t.sec * NS_PER_S + ns;
    assert total / NS_PER_S == t.sec + ns / NS_PER_S && total % NS_PER_S == ns % NS_PER_S;
    MsOfTime(total);
    assert total / NS_PER_MS == now / NS_PER_MS + half;
  }
}
