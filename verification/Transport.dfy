/**
 The sending side: frames written to a descriptor whose `write` may accept any part
 of what it is given, be interrupted, or fail. `Wire.script` says what each coming
 call does, so a statement about every script is one about every partial-write pattern.
 */
module Transport {
  import opened Framing

  datatype WriteOutcome = Accepts(count: nat) | Interrupted | Broken

  /** What the next call returns for so many bytes; an exhausted script reports errors. */
  function Taken(script: seq<WriteOutcome>, len: nat): (n: int)
    ensures -1 <= n <= len
  {
    if script == [] || !script[0].Accepts? then -1 else if script[0].count <= len then script[0].count else len
  }

  class Wire {
    var sent: seq<byte>
    var script: seq<WriteOutcome>

    constructor (script: seq<WriteOutcome>)
      ensures sent == [] && this.script == script
    {
      sent := [];
      this.script := script;
    }

    /** write(2): the number of bytes taken, or -1 with `eintr` telling EINTR from other errors. */
    method Write(data: seq<byte>) returns (n: int, eintr: bool)
      modifies this
      ensures n == Taken(old(script), |data|) && (eintr <==> old(script) != [] && old(script)[0].Interrupted?)
      ensures sent == old(sent) + data[..if n < 0 then 0 else n]
      ensures script == if old(script) == [] then [] else old(script)[1..]
    {
      n, eintr := -1, false;
      if script != [] {
        match script[0] {
          case Accepts(count) => n := if count <= |data| then count else |data|;
          case Interrupted => eintr := true;
          case Broken =>
        }
        script := script[1..];
      }
      sent := sent + data[..if n < 0 then 0 else n];
    }
  }

  // ----- Writing a number of bytes -----

  /** How many bytes get out, and the script for the calls after that. */
  datatype Progress = Progress(out: nat, rest: seq<WriteOutcome>)

  /**
   By the script alone: a call that takes nothing ends the writing, except that interrupted
   calls are repeated if `patient`.
   */
  function Written(script: seq<WriteOutcome>, len: nat, patient: bool): (p: Progress)
    ensures p.out <= len
    decreases |script|
  {
    if len == 0 then Progress(0, script)
    else if script == [] then Progress(0, [])
    else
      match script[0]
      case Interrupted => if patient then Written(script[1..], len, patient) else Progress(0, script[1..])
      case Broken => Progress(0, script[1..])
      case Accepts(count) =>
        if count == 0 then Progress(0, script[1..])
        else if count >= len then Progress(len, script[1..])
        else
          var p := Written(script[1..], len - count, patient);
          Progress(count + p.out, p.rest)
  }

  /** No call of these takes nothing, interrupted ones aside if `patient`. */
  predicate Willing(script: seq<WriteOutcome>, patient: bool) {
    forall i :: 0 <= i < |script| ==>
      (patient && script[i].Interrupted?) || (script[i].Accepts? && script[i].count > 0)
  }

  function Offered(script: seq<WriteOutcome>): nat {
    if script == [] then 0 else (if script[0].Accepts? then script[0].count else 0) + Offered(script[1..])
  }

  /** Everything gets out exactly when the calls up to some point all are willing and offer enough. */
  lemma {:induction false} WrittenWhole(script: seq<WriteOutcome>, len: nat, patient: bool)
    ensures Written(script, len, patient).out == len <==>
            exists k: nat :: k <= |script| && Willing(script[..k], patient) && Offered(script[..k]) >= len
    decreases |script|
  {
    if len == 0 {
      assert Willing(script[..0], patient) && Offered(script[..0]) >= 0;
    } else if script != [] {
      var left := if script[0].Accepts? then len - script[0].count else len;
      if script[0].Accepts? && left <= 0 {
        assert script[..1][1..] == [];
        assert Willing(script[..1], patient) && Offered(script[..1]) >= len;
      } else {
        WrittenWhole(script[1..], left, patient);
        if k: nat :| k <= |script[1..]| && Willing(script[1..][..k], patient) && Offered(script[1..][..k]) >= left {
          OfferedCons(script, k + 1, patient);
        }
        if k: nat :| k <= |script| && Willing(script[..k], patient) && Offered(script[..k]) >= len {
          OfferedCons(script, k, patient);
        }
      }
    }
  }

  lemma OfferedCons(script: seq<WriteOutcome>, k: nat, patient: bool)
    requires 0 < k <= |script|
    ensures Offered(script[..k]) == (if script[0].Accepts? then script[0].count else 0) + Offered(script[1..][..k - 1])
    ensures Willing(script[..k], patient) <==> Willing(script[..1], patient) && Willing(script[1..][..k - 1], patient)
  {
    assert script[..k][1..] == script[1..][..k - 1];
    assert script[..k] == script[..1] + script[1..][..k - 1];
  }

  // ----- Server side -----

  /** write_full: until everything is out, retrying interrupted calls. */
  method WriteFull(wire: Wire, data: seq<byte>) returns (n: int)
    modifies wire
    ensures var p := Written(old(wire.script), |data|, true);
            && wire.sent == old(wire.sent) + data[..p.out] && wire.script == p.rest
            && (n == |data| <==> p.out == |data|)
    ensures n != |data| ==> n <= 0
  {
    var off := 0;
    while off < |data|
      invariant 0 <= off <= |data|
      invariant wire.sent == old(wire.sent) + data[..off]
      invariant Written(old(wire.script), |data|, true) == var p := Written(wire.script, |data| - off, true); Progress(off + p.out, p.rest)
      decreases |wire.script|
    {
      var w, eintr := wire.Write(data[off..]);
      if w > 0 {
        assert data[..off] + data[off..][..w] == data[..off + w];
        off := off + w;
      } else if !eintr {
        return w;
      }
    }
    return off;
  }

  /** What a reply puts on the wire: the part of the header and the part of the body that get out. */
  function Replied(script: seq<WriteOutcome>, data: seq<byte>): seq<byte>
    requires |data| < TWO_TO_THE_32
  {
    var header := Written(script, 4, true);
    Be32(|data|)[..header.out] + data[..Written(header.rest, |data|, true).out]
  }

  /** Both results of `WriteFull` are ignored, so the payload is written even when the header was not. */
  method SendLengthPrefixed(wire: Wire, data: seq<byte>)
    requires |data| < TWO_TO_THE_32
    modifies wire
    ensures wire.sent == old(wire.sent) + Replied(old(wire.script), data)
    ensures wire.script == Written(Written(old(wire.script), 4, true).rest, |data|, true).rest
  {
    var _ := WriteFull(wire, Be32(|data|));
    var _ := WriteFull(wire, data);
    ghost var header := Written(old(wire.script), 4, true);
    AppendAssoc(old(wire.sent), Be32(|data|)[..header.out], data[..Written(header.rest, |data|, true).out]);
  }

  /**
   The wire gains exactly one frame if and only if the script lets both writes finish, and a
   part of one unless some of the body follows an unfinished header.
   */
  lemma ReplyIsFrame(script: seq<WriteOutcome>, data: seq<byte>)
    requires |data| < TWO_TO_THE_32
    ensures Replied(script, data) == Encode(data) <==>
            Written(script, 4, true).out == 4 && Written(Written(script, 4, true).rest, |data|, true).out == |data|
    ensures Written(script, 4, true).out == 4 || Written(Written(script, 4, true).rest, |data|, true).out == 0 ==>
              Replied(script, data) <= Encode(data)
  {
    var header := Written(script, 4, true);
    PartOfFrame(Be32(|data|), data, header.out, Written(header.rest, |data|, true).out);
  }

  lemma PartOfFrame(head: seq<byte>, data: seq<byte>, h: nat, b: nat)
    requires h <= |head| && b <= |data|
    ensures head[..h] + data[..b] == head + data <==> h == |head| && b == |data|
    ensures h == |head| || b == 0 ==> head[..h] + data[..b] <= head + data
  {
    assert |head[..h] + data[..b]| == h + b;
  }

  /** A failed header does not keep the body back: a reader takes the first bytes of the body for a length. */
  lemma BodyWithoutHeader(data: seq<byte>)
    requires |data| < TWO_TO_THE_32
    ensures Replied([Broken, Accepts(|data|)], data) == data
    ensures Replied([Broken, Accepts(|data|)], data) != Encode(data)
  {
    var script := [Broken, Accepts(|data|)];
    assert script[1..] == [Accepts(|data|)];
    assert Written(script, 4, true) == Progress(0, script[1..]);
    assert data[..|data|] == data && Be32(|data|)[..0] == [];
    assert |data| < |Encode(data)|;
  }

  // ----- Client side -----

  /** A frame of `len` payload bytes: the header must go out in one call, the payload may be split anywhere. */
  function Framed(script: seq<WriteOutcome>, len: nat): (p: Progress)
    ensures p.out <= 4 + len
  {
    var n := Taken(script, 4);
    var rest := if script == [] then [] else script[1..];
    if n == 4 then
      var p := Written(rest, len, false);
      Progress(4 + p.out, p.rest)
    else Progress(if n < 0 then 0 else n, rest)
  }

  method SendFrame(wire: Wire, payload: seq<byte>) returns (ok: bool)
    requires |payload| < TWO_TO_THE_32
    modifies wire
    ensures var p := Framed(old(wire.script), |payload|);
            && wire.sent == old(wire.sent) + Encode(payload)[..p.out] && wire.script == p.rest
            && (ok <==> p.out == |Encode(payload)|)
  {
    var header := Be32(|payload|);
    var w, eintr := wire.Write(header);
    if w != 4 {
      assert header[..if w < 0 then 0 else w] == Encode(payload)[..if w < 0 then 0 else w];
      return false;
    }
    ghost var rest := wire.script;
    ok := SendPayload(wire, payload);
    PartsOfFrame(old(wire.sent), header, payload, Written(rest, |payload|, false).out);
  }

  lemma PartsOfFrame(before: seq<byte>, header: seq<byte>, payload: seq<byte>, k: nat)
    requires k <= |payload|
    ensures (before + header[..|header|]) + payload[..k] == before + (header + payload)[..|header| + k]
  {
  }

  /** The payload part of a frame; an interrupted call counts as a failure here. */
  method SendPayload(wire: Wire, payload: seq<byte>) returns (ok: bool)
    modifies wire
    ensures var p := Written(old(wire.script), |payload|, false);
            && wire.sent == old(wire.sent) + payload[..p.out] && wire.script == p.rest
            && (ok <==> p.out == |payload|)
  {
    var off := 0;
    while off < |payload|
      invariant 0 <= off <= |payload|
      invariant wire.sent == old(wire.sent) + payload[..off]
      invariant Written(old(wire.script), |payload|, false) ==
                var p := Written(wire.script, |payload| - off, false); Progress(off + p.out, p.rest)
      decreases |wire.script|
    {
      var w, eintr := wire.Write(payload[off..]);
      if w <= 0 {
        return false;
      }
      assert payload[..off] + payload[off..][..w] == payload[..off + w];
      off := off + w;
    }
    return true;
  }

  /** How many frames go out whole. */
  function FramesSent(script: seq<WriteOutcome>, payloads: seq<seq<byte>>): (n: nat)
    ensures n <= |payloads|
    decreases |payloads|
  {
    if payloads == [] then 0
    else
      var p := Framed(script, |payloads[0]|);
      if p.out == 4 + |payloads[0]| then 1 + FramesSent(p.rest, payloads[1..]) else 0
  }

  /** Sends payloads in turn and stops at the first failure; reports how many went out whole. */
  method SendAll(wire: Wire, payloads: seq<seq<byte>>) returns (count: nat)
    requires AllLegal(payloads) && wire.sent == []
    modifies wire
    ensures count == FramesSent(old(wire.script), payloads)
    ensures count == |payloads| ==> wire.sent == Stream(payloads)
    ensures Stream(payloads[..count]) <= wire.sent <= Stream(payloads)
  {
    count := 0;
    assert payloads[..0] == [] && payloads[0..] == payloads;
    while count < |payloads|
      invariant count <= |payloads|
      invariant wire.sent == Stream(payloads[..count])
      invariant FramesSent(old(wire.script), payloads) == count + FramesSent(wire.script, payloads[count..])
    {
      StreamSnoc(payloads, count);
      StreamPrefix(payloads, count + 1);
      assert payloads[count..][1..] == payloads[count + 1..];
      ghost var frame := Encode(payloads[count]);
      var ok := SendFrame(wire, payloads[count]);
      if !ok {
        return;
      }
      assert frame[..|frame|] == frame;
      count := count + 1;
    }
    assert payloads[..count] == payloads;
  }

  /** The next n calls each take at least four bytes. */
  predicate Generous(script: seq<WriteOutcome>, n: nat) {
    n <= |script| && forall i :: 0 <= i < n ==> script[i].Accepts? && script[i].count >= 4
  }

  lemma {:induction false} GenerousWrite(script: seq<WriteOutcome>, len: nat, more: nat)
    requires Generous(script, len + more)
    ensures var p := Written(script, len, false);
            p.out == len && Generous(p.rest, more)
    decreases |script|
  {
    if len > 0 && script[0].count < len {
      GenerousWrite(script[1..], len - script[0].count, more);
    }
  }

  /** With as many such calls as there are bytes, every frame goes out. */
  lemma {:induction false} GenerousStream(script: seq<WriteOutcome>, payloads: seq<seq<byte>>)
    requires AllLegal(payloads) && Generous(script, |Stream(payloads)|)
    ensures FramesSent(script, payloads) == |payloads|
    decreases |payloads|
  {
    if payloads != [] {
      var len, later := |payloads[0]|, |Stream(payloads[1..])|;
      GenerousWrite(script[1..], len, later);
      GenerousStream(Framed(script, len).rest, payloads[1..]);
    }
  }

  lemma StreamPrefix(payloads: seq<seq<byte>>, k: nat)
    requires AllLegal(payloads) && k <= |payloads|
    ensures Stream(payloads[..k]) <= Stream(payloads)
  {
    assert payloads == payloads[..k] + payloads[k..];
    StreamAppend(payloads[..k], payloads[k..]);
  }

  lemma StreamSnoc(payloads: seq<seq<byte>>, k: nat)
    requires AllLegal(payloads) && k < |payloads|
    ensures Stream(payloads[..k + 1]) == Stream(payloads[..k]) + Encode(payloads[k])
  {
    assert payloads[..k + 1] == payloads[..k] + [payloads[k]];
    StreamAppend(payloads[..k], [payloads[k]]);
    StreamOne(payloads[k]);
  }
}
