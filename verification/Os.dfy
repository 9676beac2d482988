/**
 What libpm sees of the operating system: a monotone clock and system calls whose
 outcomes and durations are arbitrary. `script(i)` decides the i-th call, for ever.
 */
module Os {

  const NS_PER_US: nat := 1_000
  const NS_PER_MS: nat := 1_000_000
  const NS_PER_S: nat := 1_000_000_000

  type uint32 = x: int | 0 <= x < 0x1_0000_0000

  datatype OpenResult = Opened | OpenBusy | OpenHard                        // OpenBusy: EAGAIN or EMFILE
  datatype PollResult = Ready | Expired | Interrupted | PollHard
  datatype IoResult = Moved(n: nat, staleRetry: bool) | IoFailed(retry: bool)   // errno left behind, or set

  datatype Outcome = Outcome(delay: nat, open: OpenResult, poll: PollResult, io: IoResult)

  datatype Call = Open(o: OpenResult) | Poll(p: PollResult) | Transfer(i: IoResult) | Close

  datatype Timespec = Timespec(sec: nat, nsec: nat)

  function ToTimespec(ns: nat): Timespec {
    Timespec(ns / NS_PER_S, ns % NS_PER_S)
  }

  /** now_ms: seconds and the whole milliseconds of the rest. */
  function Ms(t: Timespec): nat {
    t.sec * 1000 + t.nsec / NS_PER_MS
  }

  /** Splitting a time and truncating to milliseconds is truncating the time. */
  lemma MsOfTime(ns: nat)
    ensures Ms(ToTimespec(ns)) == ns / NS_PER_MS
  {
    assert ns == (ns / NS_PER_S) * 1000 * NS_PER_MS + ns % NS_PER_S;
  }

  class World {
    const script: nat -> Outcome
    var at: nat
    var now: nat
    ghost var calls: seq<Call>     // every file operation with its result
    ghost var slept: seq<nat>      // every usleep argument, in microseconds

    constructor (script: nat -> Outcome, now: nat)
      ensures this.script == script && this.now == now && slept == [] && calls == []
    {
      this.script := script;
      this.at := 0;
      this.now := now;
      slept, calls := [], [];
    }

    /** Every open fails for good, as for a path that does not exist. */
    ghost predicate NothingOpens() {
      forall i :: script(i).open.OpenHard?
    }

    /** Some call takes some time. */
    method Pass() returns (o: Outcome)
      modifies this
      ensures now >= old(now) && slept == old(slept) && calls == old(calls)
      ensures exists i :: o == script(i)
    {
      o := script(at);
      at := at + 1;
      now := now + o.delay;
    }

    method ClockGet() returns (t: Timespec)
      modifies this
      ensures now >= old(now) && t == ToTimespec(now)
      ensures slept == old(slept) && calls == old(calls)
    {
      var _ := Pass();
      t := ToTimespec(now);
    }

    method OpenFile() returns (r: OpenResult)
      modifies this
      ensures now >= old(now) && slept == old(slept)
      ensures NothingOpens() ==> r.OpenHard?
      ensures calls == old(calls) + [Open(r)]
    {
      var o := Pass();
      r := o.open;
      calls := calls + [Open(r)];
    }

    method PollFile() returns (r: PollResult)
      modifies this
      ensures now >= old(now) && slept == old(slept)
      ensures calls == old(calls) + [Poll(r)]
    {
      var o := Pass();
      r := o.poll;
      calls := calls + [Poll(r)];
    }

    method TransferData() returns (r: IoResult)
      modifies this
      ensures calls == old(calls) + [Transfer(r)]
      ensures now >= old(now) && slept == old(slept)
    {
      var o := Pass();
      r := o.io;
      calls := calls + [Transfer(r)];
    }

    method CloseFile()
      modifies this
      ensures now >= old(now) && slept == old(slept)
      ensures calls == old(calls) + [Close]
    {
      var _ := Pass();
      calls := calls + [Close];
    }

    /** usleep: at least as long as asked. */
    method USleep(us: nat)
      modifies this
      ensures now >= old(now) + us * NS_PER_US
      ensures slept == old(slept) + [us] && calls == old(calls)
    {
      now := now + us * NS_PER_US;
      var _ := Pass();
      slept := slept + [us];
    }
  }
}
