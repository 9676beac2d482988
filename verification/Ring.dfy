/**
 The message ring between the FIFO reader and the log writer, used by one thread at a
 time: it behaves as a sequence of at most cap - 1 messages that forgets its oldest one.
 */
module Ring {
  import opened FieldCodec

  function NextIndex(i: nat, cap: nat): nat {
    if i + 1 == cap then 0 else i + 1
  }

  /** Slot of the k-th message when the oldest is in slot `head`. */
  function Slot(head: nat, k: nat, cap: nat): nat {
    if head + k < cap then head + k else head + k - cap
  }

  /** Only max_depth ever moves: the statements meant to count the rest have no effect. */
  datatype Metrics = Metrics(pushes: nat, pops: nat, drops: nat, maxDepth: nat)

  class Fifo {
    const buf: array<Option<string>>
    var head: nat
    var tail: nat
    var m: Metrics

    ghost var contents: seq<string>
    ghost var pushed: seq<string>      // everything ever pushed
    ghost var popped: nat              // how many left through Pop
    ghost var dropped: nat             // how many were overwritten
    ghost var removed: seq<string>     // all that left, in order
    ghost var peak: nat                // largest depth right after a push

    ghost predicate Shaped()
      reads this, buf
    {
      && 2 <= buf.Length && head < buf.Length && |contents| < buf.Length
      && tail == Slot(head, |contents|, buf.Length)
      && (forall k :: 0 <= k < |contents| ==> buf[Slot(head, k, buf.Length)] == Some(contents[k]))
      && (forall k :: |contents| <= k < buf.Length ==> buf[Slot(head, k, buf.Length)] == None)
    }

    ghost predicate Valid()
      reads this, buf
    {
      && Shaped()
      && removed + contents == pushed
      && |removed| == popped + dropped
      && m == Metrics(0, 0, 0, peak)
    }

    constructor (cap: nat)
      requires cap >= 2
      ensures Valid() && fresh(buf) && buf.Length == cap
      ensures contents == [] && pushed == [] && popped == dropped == peak == 0
    {
      buf := new Option<string>[cap](_ => None);
      head, tail, m := 0, 0, Metrics(0, 0, 0, 0);
      contents, pushed, popped, dropped, removed, peak := [], [], 0, 0, [], 0;
    }

    method Depth() returns (d: nat)
      requires Shaped()
      ensures d == |contents|
    {
      d := if tail >= head then tail - head else buf.Length - (head - tail);
    }

    /** Empties the oldest slot and moves the head past it. */
    method DropHead()
      requires Shaped() && contents != []
      modifies buf, `head, `contents
      ensures Shaped() && contents == old(contents)[1..] && tail == old(tail)
    {
      var cap := buf.Length;
      buf[head] := None;
      assert forall k :: 0 <= k < cap - 1 ==> Slot(NextIndex(head, cap), k, cap) == Slot(head, k + 1, cap);
      assert Slot(NextIndex(head, cap), cap - 1, cap) == head;
      head := NextIndex(head, cap);
      contents := contents[1..];
    }

    /** Fills the slot at the tail and publishes it. */
    method FillTail(msg: string)
      requires Shaped() && |contents| < buf.Length - 1
      modifies buf, `tail, `contents
      ensures Shaped() && contents == old(contents) + [msg]
    {
      var n := |contents|;
      buf[tail] := Some(msg);
      tail := NextIndex(tail, buf.Length);
      contents := contents + [msg];
    }

    method UpdateDepth()
      requires Shaped() && m == Metrics(0, 0, 0, peak)
      modifies `m, `peak
      ensures m == Metrics(0, 0, 0, peak)
      ensures peak == if old(peak) < |contents| then |contents| else old(peak)
    {
      var d := Depth();
      if d > m.maxDepth {
        m := m.(maxDepth := d);
        peak := d;
      }
    }

    /** The full branch of a push. */
    method MakeRoom() returns (room: bool)
      requires Valid()
      modifies this, buf
      ensures Valid() && |contents| < buf.Length - 1 && tail == old(tail)
      ensures room <==> |old(contents)| < buf.Length - 1
      ensures contents == old(contents)[if room then 0 else 1..]
      ensures removed == old(removed) + old(contents)[..if room then 0 else 1]
      ensures dropped == old(dropped) + if room then 0 else 1
      ensures pushed == old(pushed) && popped == old(popped) && peak == old(peak)
    {
      room := NextIndex(tail, buf.Length) != head;
      if !room {
        DropHead();
        removed := removed + old(contents)[..1];
        dropped := dropped + 1;
        assert old(contents) == old(contents)[..1] + contents;
        assert removed + contents == old(removed) + old(contents);
      }
    }

    /** Drop-oldest push; false tells that an older message was lost. */
    method Push(msg: string) returns (kept: bool)
      requires Valid()
      modifies this, buf
      ensures Valid()
      ensures kept <==> |old(contents)| < buf.Length - 1
      ensures contents == old(contents)[if kept then 0 else 1..] + [msg]
      ensures removed == old(removed) + old(contents)[..if kept then 0 else 1]
      ensures pushed == old(pushed) + [msg] && popped == old(popped)
      ensures dropped == old(dropped) + if kept then 0 else 1
      ensures peak == if old(peak) < |contents| then |contents| else old(peak)
    {
      kept := MakeRoom();
      ghost var rest := contents;
      FillTail(msg);
      pushed := pushed + [msg];
      assert removed + (rest + [msg]) == (removed + rest) + [msg];
      UpdateDepth();
    }

    method Pop() returns (out: Option<string>)
      requires Valid()
      modifies this, buf
      ensures Valid()
      ensures out == if old(contents) == [] then None else Some(old(contents)[0])
      ensures contents == if old(contents) == [] then [] else old(contents)[1..]
      ensures pushed == old(pushed) && dropped == old(dropped) && peak == old(peak)
      ensures popped == old(popped) + if out.None? then 0 else 1
      ensures removed == old(removed) + if out.None? then [] else [out.value]
    {
      if head == tail {
        return None;
      }
      out := buf[Slot(head, 0, buf.Length)];
      DropHead();
      removed := removed + [out.value];
      popped := popped + 1;
      assert removed + contents == old(removed) + ([out.value] + contents);
    }

    /** The consumer's shutdown loop: pops until nothing is left, and so always ends. */
    method Drain() returns (logged: seq<string>)
      requires Valid()
      modifies this, buf
      ensures Valid() && contents == [] && logged == old(contents)
      ensures pushed == old(pushed) && dropped == old(dropped) && popped == old(popped) + |logged|
    {
      logged := [];
      var more := true;
      while more
        invariant Valid()
        invariant logged + contents == old(contents)
        invariant !more ==> contents == []
        invariant pushed == old(pushed) && dropped == old(dropped) && popped == old(popped) + |logged|
        decreases |contents|, more
      {
        var out := Pop();
        if out.None? {
          more := false;
        } else {
          logged := logged + [out.value];
        }
      }
    }

    /** Releases every message still in the ring. */
    method Free()
      requires Valid()
      modifies this, buf
      ensures forall i :: 0 <= i < buf.Length ==> buf[i] == None
    {
      var h := head;
      ghost var k := 0;
      while h != tail
        invariant k <= |contents| && h == Slot(head, k, buf.Length)
        invariant head == old(head) && tail == old(tail) && contents == old(contents)
        invariant forall j :: 0 <= j < buf.Length && (j < k || |contents| <= j) ==> buf[Slot(head, j, buf.Length)] == None
        decreases |contents| - k
      {
        buf[h] := None;
        h := NextIndex(h, buf.Length);
        k := k + 1;
      }
      forall i | 0 <= i < buf.Length
        ensures buf[i] == None
      {
        assert i == Slot(head, if i >= head then i - head else i + buf.Length - head, buf.Length);
      }
    }
  }
}
