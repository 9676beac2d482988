/**
 The receiving side: `read_from_conn`, which assembles frames from whatever pieces the
 kernel hands out, over any number of readiness events.
 */
module Connection {
  import opened Framing
  import opened Transport

  datatype ReadOutcome = Offers(count: nat) | Blocks | Closes | Fails

  datatype ReadResult = Data(bytes: seq<byte>) | WouldBlock | Eof | Failed

  /** Before n reads have offered data, the others only have none at the moment. */
  predicate Supplies(script: seq<ReadOutcome>, n: nat)
    decreases |script|
  {
    n == 0 || (script != [] &&
      match script[0]
      case Offers(_) => Supplies(script[1..], n - 1)
      case Blocks => Supplies(script[1..], n)
      case _ => false)
  }

  /** How many those are. */
  function Waits(script: seq<ReadOutcome>, n: nat): nat {
    if n == 0 || script == [] then 0
    else
      match script[0]
      case Offers(_) => Waits(script[1..], n - 1)
      case Blocks => 1 + Waits(script[1..], n)
      case _ => 0
  }

  lemma {:induction false} FewerBytes(script: seq<ReadOutcome>, m: nat, n: nat)
    requires m <= n
    ensures Waits(script, m) <= Waits(script, n)
    ensures Supplies(script, n) ==> Supplies(script, m)
    decreases |script|
  {
    if m > 0 && script != [] {
      match script[0] {
        case Offers(_) => FewerBytes(script[1..], m - 1, n - 1);
        case Blocks => FewerBytes(script[1..], m, n);
        case _ =>
      }
    }
  }

  function OfferCount(script: seq<ReadOutcome>): nat {
    if script == [] then 0 else (if script[0].Offers? then 1 else 0) + OfferCount(script[1..])
  }

  /** Reads that only offer data or have none at the moment supply as many bytes as there are offers. */
  lemma {:induction false} SuppliedByCount(script: seq<ReadOutcome>, n: nat)
    requires (forall i :: 0 <= i < |script| ==> script[i].Offers? || script[i].Blocks?) && n <= OfferCount(script)
    ensures Supplies(script, n) && Waits(script, n) <= |script| - OfferCount(script)
    decreases |script|
  {
    if script != [] {
      if n > 0 {
        SuppliedByCount(script[1..], if script[0].Offers? then n - 1 else n);
      } else {
        SuppliedByCount(script[1..], 0);
      }
    }
  }

  /** A non-blocking stream socket; `script` decides how much each coming read returns. */
  class Socket {
    var pending: seq<byte>
    var script: seq<ReadOutcome>
    ghost var consumed: seq<byte>
    ghost var last: ReadResult         // what the latest read returned

    constructor (pending: seq<byte>, script: seq<ReadOutcome>)
      ensures this.pending == pending && this.script == script && consumed == []
    {
      this.pending := pending;
      this.script := script;
      consumed, last := [], WouldBlock;
    }

    /** Everything the peer has sent. */
    ghost function Total(): seq<byte>
      reads this
    {
      consumed + pending
    }

    /** So many reads offer data that, at one byte each, they return everything pending. */
    ghost predicate Plenty()
      reads this
    {
      Supplies(script, |pending|)
    }

    /** How often a read will find nothing before everything pending has been returned. */
    ghost function Gaps(): nat
      reads this
    {
      Waits(script, |pending|)
    }

    method Read(want: nat) returns (r: ReadResult)
      requires want > 0
      modifies this
      ensures r.Data? ==> 0 < |r.bytes| <= want && old(pending) == r.bytes + pending
      ensures !r.Data? ==> pending == old(pending)
      ensures consumed == old(consumed) + if r.Data? then r.bytes else []
      ensures Total() == old(Total()) && last == r
      ensures if old(script) == [] then script == [] && r == WouldBlock else script == old(script)[1..]
      ensures old(Plenty()) ==> Plenty() && Gaps() <= old(Gaps())
      ensures old(Plenty()) && old(pending) != [] && !r.Data? ==> r == WouldBlock && Gaps() < old(Gaps())
    {
      r := WouldBlock;
      if script != [] {
        match script[0] {
          case Offers(count) =>
            var n := if count == 0 then 1 else count;
            n := if n <= want then n else want;
            n := if n <= |pending| then n else |pending|;
            if n > 0 {
              r := Data(pending[..n]);
              consumed := consumed + pending[..n];
              AppendAssoc(old(consumed), pending[..n], pending[n..]);
              FewerBytes(script[1..], |pending| - n, |pending| - 1);
              pending := pending[n..];
            }
          case Blocks =>
          case Closes => r := Eof;
          case Fails => r := Failed;
        }
        script := script[1..];
      }
      last := r;
    }
  }

  /** The return value for the read that ended the call; data only ends it by a bad length. */
  function ReturnCode(r: ReadResult): int {
    match r
    case Eof => 0
    case WouldBlock => 1
    case Failed => -1
    case Data(_) => -1
  }

  /** Stores `bytes` at offset `at`, as the read into the buffer does. */
  method Copy(buffer: array<byte>, at: nat, bytes: seq<byte>)
    requires at + |bytes| <= buffer.Length
    modifies buffer
    ensures buffer[..at + |bytes|] == old(buffer[..at]) + bytes
  {
    forall i | 0 <= i < |bytes| {
      buffer[at + i] := bytes[i];
    }
  }

  class Conn {
    const sock: Socket
    const header: array<byte>
    var headerRead: nat
    var payloadLen: nat
    var payload: array?<byte>
    var payloadRead: nat
    /** Frames handed to the request queue, oldest first. */
    var pushed: seq<seq<byte>>

    ghost predicate Fields()
      reads this, payload
    {
      && header.Length == 4
      && headerRead <= 4
      && AllLegal(pushed)
      && (payload == null ==> payloadLen == payloadRead == 0)
      && (payload != null ==>
            && payload != header
            && headerRead == 4
            && Legal(payloadLen)
            && payload.Length == payloadLen
            && payloadRead <= payloadLen)
    }

    /** Bytes received since the last complete frame. */
    ghost function Tail(): seq<byte>
      requires Fields()
      reads this, header, payload
    {
      header[..headerRead] + if payload == null then [] else payload[..payloadRead]
    }

    /** The unfinished part of the stream, as the fields of the connection hold it. */
    ghost function Leftover(): Rest
      requires Fields()
      reads this, header, payload
    {
      if headerRead < 4 then Header(header[..headerRead])
      else if payload == null then BadLength(FromBe32(header[..]), [])
      else Payload(payloadLen, payload[..payloadRead])
    }

    ghost predicate Assembling()
      reads this, header, payload, sock
    {
      && Fields()
      && sock.consumed == Stream(pushed) + Tail()
      && (headerRead == 4 ==> payload != null && FromBe32(header[..]) == payloadLen)
    }

    ghost predicate Rejected()
      reads this, header, payload, sock
    {
      && Fields()
      && sock.consumed == Stream(pushed) + header[..]
      && headerRead == 4 && payload == null
      && !Legal(FromBe32(header[..]))
    }

    /** Between calls: a frame is never left complete but unpushed. */
    ghost predicate Idle()
      reads this, header, payload, sock
    {
      Assembling() && (payload != null ==> payloadRead < payloadLen)
    }

    constructor (sock: Socket)
      requires sock.consumed == []
      ensures Idle() && this.sock == sock && pushed == [] && payload == null && fresh(header)
    {
      this.sock := sock;
      header := new byte[4];
      headerRead, payloadLen, payload, payloadRead, pushed := 0, 0, null, 0, [];
    }

    /** The header is complete: either its length is refused or a payload buffer is set up. */
    method CheckLength() returns (stop: bool, rc: int)
      requires Fields() && headerRead == 4 && payload == null
      requires sock.consumed == Stream(pushed) + header[..headerRead]
      modifies this
      ensures pushed == old(pushed)
      ensures if stop then rc == -1 && Rejected() else rc == 1 && Idle() && fresh(payload)
      ensures stop <==> FromBe32(header[..]) == 0 || FromBe32(header[..]) > 1048576
    {
      assert header[..4] == header[..];
      var plen := FromBe32(header[..]);
      if !Legal(plen) {
        return true, -1;
      }
      payloadLen := plen;
      payload := new byte[plen];
      payloadRead := 0;
      assert payload[..0] == [] && Tail() == header[..4];
      return false, 1;
    }

    /** One more piece of the header; rc as in the source when the call must return. */
    method ReadHeader() returns (stop: bool, rc: int)
      requires Assembling() && headerRead < 4
      modifies this, header, sock
      ensures pushed == old(pushed)
      ensures sock.Total() == old(sock.Total())
      ensures stop ==> rc == ReturnCode(sock.last) && if sock.last.Data? then Rejected() else Idle()
      ensures !stop ==> Assembling() && (payload == null ==> headerRead < 4)
      ensures payload == null || fresh(payload)
      ensures !stop ==> |sock.script| < |old(sock.script)|
      ensures old(sock.Plenty()) ==> sock.Plenty() && sock.Gaps() <= old(sock.Gaps())
      ensures old(sock.Plenty()) && stop && !sock.last.Data? && sock.pending != [] ==>
                sock.last == WouldBlock && sock.Gaps() < old(sock.Gaps())
    {
      var r := sock.Read(4 - headerRead);
      match r {
        case Eof => return true, 0;
        case WouldBlock => return true, 1;
        case Failed => return true, -1;
        case Data(bytes) =>
          Copy(header, headerRead, bytes);
          AppendAssoc(Stream(pushed), old(header[..headerRead]), bytes);
          headerRead := headerRead + |bytes|;
          assert Tail() == header[..headerRead];
          if headerRead < 4 {
            return false, 1;
          }
          stop, rc := CheckLength();
      }
    }

    /** One more piece of the payload. */
    method ReadPayload() returns (stop: bool, rc: int)
      requires Idle() && payload != null
      modifies this, payload, sock
      ensures payload == old(payload) && pushed == old(pushed)
      ensures sock.Total() == old(sock.Total())
      ensures stop ==> rc == ReturnCode(sock.last) && !sock.last.Data? && Idle()
      ensures !stop ==> Assembling() && |sock.script| < |old(sock.script)|
      ensures old(sock.Plenty()) ==> sock.Plenty() && sock.Gaps() <= old(sock.Gaps())
      ensures old(sock.Plenty()) && stop && sock.pending != [] ==>
                sock.last == WouldBlock && sock.Gaps() < old(sock.Gaps())
    {
      var r := sock.Read(payloadLen - payloadRead);
      match r {
        case Eof => return true, 0;
        case WouldBlock => return true, 1;
        case Failed => return true, -1;
        case Data(bytes) =>
          Copy(payload, payloadRead, bytes);
          AppendAssoc(header[..headerRead], old(payload[..payloadRead]), bytes);
          AppendAssoc(Stream(pushed), old(Tail()), bytes);
          payloadRead := payloadRead + |bytes|;
          return false, 1;
      }
    }

    /** Hands the finished frame over and starts the next header. */
    method HandleFrame()
      requires Assembling() && payload != null && payloadRead == payloadLen
      modifies this
      ensures pushed == old(pushed) + [old(payload[..])]
      ensures Idle() && headerRead == 0 && payload == null
    {
      ghost var frame := payload[..];
      assert Encode(frame) == Tail() by {
        Be32OfFromBe32(header[..]);
        assert header[..4] == header[..];
        assert payload[..payloadRead] == frame;
      }
      StreamAppend(pushed, [frame]);
      StreamOne(frame);
      headerRead := 0;
      pushed := pushed + [payload[..]];
      payload, payloadLen, payloadRead := null, 0, 0;
      assert Tail() == [];
    }

    /**
     Whatever the reads return, the frames pushed so far and the fields left behind are
     the one-shot decoding of every byte received since the connection was opened; a bad
     length stops the connection right after its header. If enough reads offer data, the call
     goes on to the next read that has none.
     */
    method ReadFromConn() returns (rc: int)
      requires Idle()
      modifies this, header, payload, sock
      ensures rc == ReturnCode(sock.last)
      ensures -1 <= rc <= 1 && (rc == 1 <==> sock.last.WouldBlock?) && (rc == 0 <==> sock.last.Eof?)
      ensures sock.last.Data? ==> FromBe32(header[..]) == 0 || FromBe32(header[..]) > 1048576
      ensures sock.Total() == old(sock.Total())
      ensures if sock.last.Data? then Rejected() else Idle()
      ensures payload == old(payload) || payload == null || fresh(payload)
      ensures old(pushed) <= pushed
      ensures Decode(sock.consumed) == Decoded(pushed, Leftover())
      ensures old(sock.Plenty()) ==> sock.Plenty() && sock.Gaps() <= old(sock.Gaps())
      ensures old(sock.Plenty()) && !sock.last.Data? && sock.pending != [] ==>
                sock.last == WouldBlock && sock.Gaps() < old(sock.Gaps())
    {
      var stop := false;
      rc := 1;
      while !stop
        invariant sock.Total() == old(sock.Total())
        invariant old(pushed) <= pushed
        invariant payload == old(payload) || payload == null || fresh(payload)
        invariant !stop ==> Idle()
        invariant stop ==> rc == ReturnCode(sock.last) && if sock.last.Data? then Rejected() else Idle()
        invariant old(sock.Plenty()) ==> sock.Plenty() && sock.Gaps() <= old(sock.Gaps())
        invariant old(sock.Plenty()) && stop && !sock.last.Data? && sock.pending != [] ==>
                    sock.last == WouldBlock && sock.Gaps() < old(sock.Gaps())
        decreases !stop, |sock.script|
      {
        if payload == null {
          stop, rc := ReadHeader();
        } else {
          stop, rc := ReadPayload();
        }
        if !stop && payload != null && payloadRead == payloadLen {
          HandleFrame();
        }
      }
      Explain();
    }

    lemma Explain()
      requires Idle() || Rejected()
      ensures Decode(sock.consumed) == Decoded(pushed, Leftover())
    {
      var tail := if Idle() then Tail() else header[..];
      assert sock.consumed == Stream(pushed) + tail;
      if headerRead < 4 {
        assert tail == header[..headerRead];
      } else {
        assert header[..4] == header[..];
        assert tail[..4] == header[..];
        if Idle() {
          assert tail[4..] == payload[..payloadRead];
        } else {
          assert tail[4..] == [];
        }
      }
      assert Decode(tail) == Decoded([], Leftover());
      DecodeStream(pushed, tail);
      assert pushed + [] == pushed;
    }
  }

  /** Readiness events one after another, until the connection is closed. */
  method Serve(c: Conn, events: nat)
    requires c.Idle()
    modifies c, c.header, c.payload, c.sock
    ensures c.Idle() || c.Rejected()
    ensures c.sock.Total() == old(c.sock.Total())
    ensures Decode(c.sock.consumed) == Decoded(c.pushed, c.Leftover())
    ensures old(c.sock.Plenty()) && old(c.sock.Gaps()) < events ==> c.sock.pending == [] || c.Rejected()
  {
    c.Explain();
    var i, rc := 0, 1;
    while i < events && rc > 0
      invariant (rc > 0 ==> c.Idle()) && (i == 0 ==> rc > 0)
      invariant c.Idle() || c.Rejected()
      invariant c.sock.Total() == old(c.sock.Total())
      invariant c.payload == old(c.payload) || c.payload == null || fresh(c.payload)
      invariant Decode(c.sock.consumed) == Decoded(c.pushed, c.Leftover())
      invariant old(c.sock.Plenty()) ==> c.sock.Plenty()
      invariant old(c.sock.Plenty()) && c.sock.pending != [] && !c.Rejected() ==> rc > 0 && c.sock.Gaps() + i <= old(c.sock.Gaps())
    {
      rc := c.ReadFromConn();
      i := i + 1;
    }
  }

  lemma Delivered(payloads: seq<seq<byte>>, wire: seq<byte>, consumed: seq<byte>, unread: seq<byte>)
    requires AllLegal(payloads) && wire <= Stream(payloads) && consumed + unread == wire
    ensures Decode(consumed).frames <= payloads && !Decode(consumed).rest.BadLength?
    ensures wire == Stream(payloads) && unread == [] ==> Decode(consumed).frames == payloads
  {
    assert consumed <= Stream(payloads);
    DecodePrefix(payloads, consumed);
    if wire == Stream(payloads) && unread == [] {
      assert consumed == wire;
      FrameRoundTrip(payloads);
    }
  }

  /**
   From client to request queue, under any partial writes and any partial reads: what is
   delivered is always a prefix of what was given to the sender, in order, and once every
   send succeeded and every byte was read it is all of it, with nothing left over. Every send
   succeeds if enough writes take four bytes or more; every byte is read if enough reads offer
   data and there are more events than reads that find none.
   */
  method Transfer(payloads: seq<seq<byte>>, writeScript: seq<WriteOutcome>, readScript: seq<ReadOutcome>, events: nat)
    returns (sent: nat, delivered: seq<seq<byte>>, unread: seq<byte>)
    requires AllLegal(payloads)
    ensures sent <= |payloads| && delivered <= payloads
    ensures sent == |payloads| && unread == [] ==> delivered == payloads
    ensures Generous(writeScript, |Stream(payloads)|) ==> sent == |payloads|
    ensures Supplies(readScript, |Stream(payloads)|) && Waits(readScript, |Stream(payloads)|) < events ==> unread == []
  {
    var wire := new Wire(writeScript);
    sent := SendAll(wire, payloads);
    if Generous(writeScript, |Stream(payloads)|) {
      GenerousStream(writeScript, payloads);
    }
    FewerBytes(readScript, |wire.sent|, |Stream(payloads)|);
    var sock := new Socket(wire.sent, readScript);
    var c := new Conn(sock);
    Serve(c, events);
    delivered, unread := c.pushed, sock.pending;
    Delivered(payloads, wire.sent, sock.consumed, unread);
  }
}
