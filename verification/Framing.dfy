/**
 The wire format shared by every TCP peer of the VTS daemon: a 4-byte big-endian
 length followed by that many payload bytes. `Decode` is the one-shot reading of a
 whole byte stream; the incremental reader in `Connection` is proved equal to it.
 */
module Framing {

  type byte = x: int | 0 <= x < 256

  const MAX_FRAME: nat := 0x10_0000
  const TWO_TO_THE_32: nat := 0x1_0000_0000

  /** What is left of a stream after its complete frames. */
  datatype Rest =
    | Header(bytes: seq<byte>)                    // fewer than four header bytes
    | Payload(len: nat, got: seq<byte>)           // a legal header and part of its payload
    | BadLength(len: nat, unread: seq<byte>)      // an illegal header; nothing after it is interpreted

  datatype Decoded = Decoded(frames: seq<seq<byte>>, rest: Rest)

  function Be32(n: nat): (r: seq<byte>)
    requires n < TWO_TO_THE_32
    ensures |r| == 4 && FromBe32(r) == n
    ensures r[0] == n / 0x100_0000 && r[1] == n / 0x1_0000 % 0x100 && r[2] == n / 0x100 % 0x100 && r[3] == n % 0x100
  {
    var hi3 := n / 0x100;
    var hi2 := hi3 / 0x100;
    [hi2 / 0x100, hi2 % 0x100, hi3 % 0x100, n % 0x100]
  }

  function FromBe32(b: seq<byte>): (n: nat)
    requires |b| == 4
    ensures n < TWO_TO_THE_32
  {
    b[0] as int * 0x100_0000 + b[1] as int * 0x1_0000 + b[2] as int * 0x100 + b[3]
  }

  predicate Legal(n: nat) {
    0 < n <= MAX_FRAME
  }

  predicate AllLegal(payloads: seq<seq<byte>>) {
    forall i :: 0 <= i < |payloads| ==> Legal(|payloads[i]|)
  }

  function Encode(payload: seq<byte>): seq<byte>
    requires |payload| < TWO_TO_THE_32
  {
    Be32(|payload|) + payload
  }

  /** The bytes on the wire after sending every payload in turn. */
  function Stream(payloads: seq<seq<byte>>): seq<byte>
    requires AllLegal(payloads)
  {
    if payloads == [] then [] else Encode(payloads[0]) + Stream(payloads[1..])
  }

  function Decode(s: seq<byte>): Decoded
    decreases |s|
  {
    if |s| < 4 then
      Decoded([], Header(s))
    else
      var n := FromBe32(s[..4]);
      if !Legal(n) then
        Decoded([], BadLength(n, s[4..]))
      else if |s| < 4 + n then
        Decoded([], Payload(n, s[4..]))
      else
        var d := Decode(s[4 + n..]);
        Decoded([s[4..4 + n]] + d.frames, d.rest)
  }

  lemma Be32OfFromBe32(b: seq<byte>)
    requires |b| == 4
    ensures Be32(FromBe32(b)) == b
  {
    var n := FromBe32(b);
    assert n / 0x100 == b[0] as int * 0x1_0000 + b[1] as int * 0x100 + b[2];
    assert n / 0x100 / 0x100 == b[0] as int * 0x100 + b[1];
  }

  lemma ConsAppend<T>(x: T, xs: seq<T>, ys: seq<T>)
    ensures [x] + (xs + ys) == ([x] + xs) + ys
  {
  }

  lemma DecodeEncoded(payload: seq<byte>, tail: seq<byte>)
    requires Legal(|payload|)
    ensures var d := Decode(tail);
            Decode(Encode(payload) + tail) == Decoded([payload] + d.frames, d.rest)
  {
    var s := Encode(payload) + tail;
    assert s[..4] == Be32(|payload|);
    assert s[4..4 + |payload|] == payload;
    assert s[4 + |payload|..] == tail;
  }

  /** Complete frames at the front of a stream come out in order, whatever follows them. */
  lemma {:induction false} DecodeStream(payloads: seq<seq<byte>>, tail: seq<byte>)
    requires AllLegal(payloads)
    ensures var d := Decode(tail);
            Decode(Stream(payloads) + tail) == Decoded(payloads + d.frames, d.rest)
  {
    if payloads == [] {
      assert Stream(payloads) + tail == tail;
    } else {
      var head, later := Encode(payloads[0]), Stream(payloads[1..]) + tail;
      assert (head + Stream(payloads[1..])) + tail == head + later;
      assert payloads == [payloads[0]] + payloads[1..];
      DecodeEncoded(payloads[0], later);
      DecodeStream(payloads[1..], tail);
      ConsAppend(payloads[0], payloads[1..], Decode(tail).frames);
    }
  }

  lemma AppendAssoc(a: seq<byte>, b: seq<byte>, c: seq<byte>)
    ensures (a + b) + c == a + (b + c)
  {
  }

  lemma {:induction false} StreamAppend(a: seq<seq<byte>>, b: seq<seq<byte>>)
    requires AllLegal(a) && AllLegal(b)
    ensures AllLegal(a + b) && Stream(a + b) == Stream(a) + Stream(b)
  {
    if a == [] {
      assert a + b == b;
    } else {
      StreamAppend(a[1..], b);
      assert (a + b)[0] == a[0] && (a + b)[1..] == a[1..] + b;
      AppendAssoc(Encode(a[0]), Stream(a[1..]), Stream(b));
    }
  }

  lemma StreamOne(payload: seq<byte>)
    requires Legal(|payload|)
    ensures Stream([payload]) == Encode(payload)
  {
    var one := [payload];
    assert Stream(one[1..]) == [];
  }

  /** Decoding what was encoded returns every payload and leaves nothing over. */
  lemma {:induction false} FrameRoundTrip(payloads: seq<seq<byte>>)
    requires AllLegal(payloads)
    ensures Decode(Stream(payloads)) == Decoded(payloads, Header([]))
  {
    DecodeStream(payloads, []);
    assert Stream(payloads) + [] == Stream(payloads);
  }

  /** A stream cut at any byte decodes to a prefix of the payloads, never to anything else. */
  lemma {:induction false} DecodePrefix(payloads: seq<seq<byte>>, cut: seq<byte>)
    requires AllLegal(payloads) && cut <= Stream(payloads)
    ensures Decode(cut).frames <= payloads
    ensures !Decode(cut).rest.BadLength?
    decreases |payloads|
  {
    if payloads != [] {
      var first := Encode(payloads[0]);
      if |cut| < |first| {
        assert cut == first[..|cut|];
        if |cut| >= 4 {
          assert cut[..4] == Be32(|payloads[0]|);
        }
      } else {
        var tail := cut[|first|..];
        assert cut == first + tail;
        assert tail == Stream(payloads)[|first|..|cut|];
        DecodePrefix(payloads[1..], tail);
        DecodeEncoded(payloads[0], tail);
      }
    }
  }
}
