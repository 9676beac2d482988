/** Exponential backoff between retries, in 32-bit microseconds. */
module Backoff {
  import opened Os

  function Pow2(k: nat): nat {
    if k == 0 then 1 else 2 * Pow2(k - 1)
  }

  function Min(a: nat, b: nat): nat {
    if a < b then a else b
  }

  function OrDefault(x: uint32, default: uint32): uint32 {
    if x != 0 then x else default
  }

  /** The k-th delay: the initial value first, then twice the one before, capped. */
  function Delay(init: nat, max: nat, k: nat): nat {
    if k == 0 then init else Min(2 * Delay(init, max, k - 1), max)
  }

  /** In closed form: the initial value, then min(2^k * init, max). */
  lemma {:induction false} DelayClosedForm(init: nat, max: nat, k: nat)
    ensures Delay(init, max, k) == if k == 0 then init else Min(Pow2(k) * init, max)
  {
    if k > 0 {
      DelayClosedForm(init, max, k - 1);
      assert Pow2(k) * init == 2 * (Pow2(k - 1) * init);
    }
  }

  lemma {:induction false} DelayAtLeast(init: nat, max: nat, k: nat)
    ensures Delay(init, max, k) >= Min(init, max)
  {
    if k > 0 {
      DelayAtLeast(init, max, k - 1);
    }
  }

  class Timer {
    var cur: uint32
    var max: uint32
    ghost var first: nat
    ghost var calls: nat

    ghost predicate Valid()
      reads this
    {
      first > 0 && max > 0 && cur == Delay(first, max, calls)
    }

    constructor (init: uint32, limit: uint32)
      ensures Valid() && calls == 0
      ensures first == (if init != 0 then init else 100) && max == (if limit != 0 then limit else 20000)
    {
      cur := OrDefault(init, 100);
      max := OrDefault(limit, 20000);
      first, calls := OrDefault(init, 100), 0;
    }

    /** The doubling is done in 64 bits, so the stored value never wraps. */
    method Next() returns (v: uint32)
      requires Valid()
      modifies this
      ensures Valid() && first == old(first) && max == old(max) && calls == old(calls) + 1
      ensures v == Delay(first, max, old(calls)) && v > 0
    {
      DelayAtLeast(first, max, calls);
      v := cur;
      var nxt: nat := cur as int * 2;
      cur := if nxt > max then max else nxt;
      calls := calls + 1;
    }
  }
}
