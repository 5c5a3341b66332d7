/**
  The XKOP sender: after every round of sending, what the peer has been told equals the
  signal table.  The peer's view is defined through the receiver's parser.
 */
module XkopSender {
  import opened Bytes
  import opened XkopCheckCode
  import opened XkopWire

  const KEEP_ALIVE: seq<byte> := [0xca, 0x35, 0x02, 0, 0, 0, 0, 0, 0, 0, 0, 0, 0, 0, 0, 0x9b, 0xa0]
  const NEVER_SENT := -1

  /** Its last two octets are the check code of those between the header and them. */
  lemma KeepAliveIsChecked()
    ensures var code := Code(Bits(KEEP_ALIVE[2..15])); [code.crc1 as int, code.crc0 as int] == KEEP_ALIVE[15..]
  {
    hide Run, Step;
    assert Bits(KEEP_ALIVE[2..15]) == [2] + ZEROS;
    RunCons(Register(0, 0), 2, ZEROS);
    FirstSteps();
    SecondSteps();
    MiddleSteps();
    LastSteps();
    RunCons(Register(0x12, 0x1f), 0, ZEROS[1..]);
    assert ZEROS[0..] == [0] + ZEROS[1..];
    RunCons(Register(0x8c, 0xef), 0, ZEROS[2..]);
    assert ZEROS[1..] == [0] + ZEROS[2..];
    RunCons(Register(0x8b, 0xc6), 0, ZEROS[3..]);
    assert ZEROS[2..] == [0] + ZEROS[3..];
    RunCons(Register(0x1d, 0xe8), 0, ZEROS[4..]);
    assert ZEROS[3..] == [0] + ZEROS[4..];
    RunCons(Register(0x8c, 0xbd), 0, ZEROS[5..]);
    assert ZEROS[4..] == [0] + ZEROS[5..];
    RunCons(Register(0xd9, 0xc6), 0, ZEROS[6..]);
    assert ZEROS[5..] == [0] + ZEROS[6..];
    RunCons(Register(0x8a, 0xc5), 0, ZEROS[7..]);
    assert ZEROS[6..] == [0] + ZEROS[7..];
    RunCons(Register(0x97, 0xe7), 0, ZEROS[8..]);
    assert ZEROS[7..] == [0] + ZEROS[8..];
    RunCons(Register(0xd1, 0x5a), 0, ZEROS[9..]);
    assert ZEROS[8..] == [0] + ZEROS[9..];
    RunCons(Register(0x5e, 0xb9), 0, ZEROS[10..]);
    assert ZEROS[9..] == [0] + ZEROS[10..];
    RunCons(Register(0x42, 0x6f), 0, ZEROS[11..]);
    assert ZEROS[10..] == [0] + ZEROS[11..];
    RunCons(Register(0x79, 0xdd), 0, ZEROS[12..]);
    assert ZEROS[11..] == [0] + ZEROS[12..];
    RunNothing(Register(0x9b, 0xa0));
  }

  const ZEROS: seq<bv8> := [0, 0, 0, 0, 0, 0, 0, 0, 0, 0, 0, 0]

  lemma FirstSteps()
    ensures Step(XKOP, Register(0x00, 0x00), 2) == Register(0x12, 0x1f)
    ensures Step(XKOP, Register(0x12, 0x1f), 0) == Register(0x8c, 0xef)
    ensures Step(XKOP, Register(0x8c, 0xef), 0) == Register(0x8b, 0xc6)
  {}

  lemma SecondSteps()
    ensures Step(XKOP, Register(0x8b, 0xc6), 0) == Register(0x1d, 0xe8)
    ensures Step(XKOP, Register(0x1d, 0xe8), 0) == Register(0x8c, 0xbd)
    ensures Step(XKOP, Register(0x8c, 0xbd), 0) == Register(0xd9, 0xc6)
  {}

  lemma MiddleSteps()
    ensures Step(XKOP, Register(0xd9, 0xc6), 0) == Register(0x8a, 0xc5)
    ensures Step(XKOP, Register(0x8a, 0xc5), 0) == Register(0x97, 0xe7)
    ensures Step(XKOP, Register(0x97, 0xe7), 0) == Register(0xd1, 0x5a)
  {}

  lemma LastSteps()
    ensures Step(XKOP, Register(0xd1, 0x5a), 0) == Register(0x5e, 0xb9)
    ensures Step(XKOP, Register(0x5e, 0xb9), 0) == Register(0x42, 0x6f)
    ensures Step(XKOP, Register(0x42, 0x6f), 0) == Register(0x79, 0xdd)
    ensures Step(XKOP, Register(0x79, 0xdd), 0) == Register(0x9b, 0xa0)
  {}

  lemma RunCons(r: Register<bv8>, d: bv8, more: seq<bv8>)
    ensures Run(XKOP, r, [d] + more) == Run(XKOP, Step(XKOP, r, d), more)
  {
    assert ([d] + more)[1..] == more;
  }

  lemma RunNothing(r: Register<bv8>)
    ensures Run(XKOP, r, []) == r
  {}

  /** What a peer knows that has seen this byte stream. */
  function View(sent: seq<byte>): map<byte, int> {
    Applied(map[], Parse(sent))
  }

  function Applied(view: map<byte, int>, updates: seq<Update>): map<byte, int>
    decreases |updates|
  {
    if updates == [] then view else Applied(view[updates[0].index := updates[0].value], updates[1..])
  }

  lemma {:induction false} AppliedAppend(view: map<byte, int>, a: seq<Update>, b: seq<Update>)
    ensures Applied(view, a + b) == Applied(Applied(view, a), b)
    decreases |a|
  {
    if a == [] {
      assert a + b == b;
    } else {
      assert (a + b)[1..] == a[1..] + b;
      AppliedAppend(view[a[0].index := a[0].value], a[1..], b);
    }
  }

  /** The updates due for the given outputs, in order. */
  function Pending(outputs: seq<byte>, lastSent: map<byte, int>, read: byte -> int): seq<Update> {
    if outputs == [] then []
    else
      var o := outputs[0];
      (if o in lastSent && lastSent[o] == read(o) then [] else [Update(o, read(o))])
      + Pending(outputs[1..], lastSent, read)
  }

  function Recorded(outputs: seq<byte>, lastSent: map<byte, int>, read: byte -> int): map<byte, int> {
    lastSent + (map o | o in outputs :: read(o))
  }

  /** On a new connection every output is sent, except those that read -1. */
  lemma {:induction false} FirstRound(outputs: seq<byte>, lastSent: map<byte, int>, read: byte -> int, u: Update)
    requires forall o :: o in outputs ==> o in lastSent && lastSent[o] == NEVER_SENT
    ensures u in Pending(outputs, lastSent, read) <==> u.index in outputs && u.value == read(u.index) && u.value != -1
    decreases |outputs|
  {
    if outputs != [] {
      FirstRound(outputs[1..], lastSent, read, u);
    }
  }

  /** The packets for a list of updates, four to a packet. */
  function Packets(updates: seq<Update>): seq<byte> {
    if |updates| <= 4 then (if updates == [] then [] else Packet(updates))
    else Packet(updates[..4]) + Packets(updates[4..])
  }

  predicate Usable(outputs: seq<byte>) {
    && UNUSED !in outputs
    && forall i, j :: 0 <= i < j < |outputs| ==> outputs[i] != outputs[j]
  }

  /** Every update is decoded from exactly one packet, in order. */
  lemma {:induction false} PacketsRoundTrip(updates: seq<Update>, later: seq<byte>)
    requires forall u :: u in updates ==> u.index != UNUSED
    ensures Parse(Packets(updates) + later) == OnWire(updates) + Parse(later)
    ensures Rest(Packets(updates) + later) == Rest(later)
    ensures Misaligned(Packets(updates) + later) == Misaligned(later)
    decreases |updates|
  {
    hide Parse, Rest, Misaligned, Decode, Packet;
    if updates == [] {
      assert Packets(updates) + later == later;
    } else if |updates| <= 4 {
      OnePacket(updates, later);
    } else {
      var first, more := updates[..4], updates[4..];
      OnePacket(first, Packets(more) + later);
      PacketsRoundTrip(more, later);
      assert Packets(updates) + later == Packet(first) + (Packets(more) + later);
      assert OnWire(updates) == OnWire(first) + OnWire(more);
    }
  }

  lemma OnePacket(updates: seq<Update>, later: seq<byte>)
    requires |updates| <= 4 && forall u :: u in updates ==> u.index != UNUSED
    ensures Parse(Packet(updates) + later) == OnWire(updates) + Parse(later)
    ensures Rest(Packet(updates) + later) == Rest(later)
    ensures Misaligned(Packet(updates) + later) == Misaligned(later)
  {
    hide Parse, Rest, Decode, Code, Bits, Body;
    var p := Packet(updates);
    assert p[..2] == HEADER;
    ParsePacket(p, later);
    PacketRoundTrip(updates);
    assert (p + later)[..2] == p[..2] && (p + later)[PACKET_LENGTH..] == later;
  }

  /** The view agrees with what the sender believes it has sent. */
  ghost predicate Mirrors(outputs: seq<byte>, lastSent: map<byte, int>, sent: seq<byte>) {
    && Rest(sent) == [] && Misaligned(sent) == []
    && forall o :: o in outputs ==>
         o in lastSent && (lastSent[o] != NEVER_SENT ==> o in View(sent) && View(sent)[o] == lastSent[o] % 65536)
  }

  /** How applying the pending updates changes a view. */
  lemma {:induction false} AppliedPending(outputs: seq<byte>, lastSent: map<byte, int>, read: byte -> int,
        view: map<byte, int>)
    requires Usable(outputs)
    ensures var after := Applied(view, OnWire(Pending(outputs, lastSent, read)));
            && (forall o :: o in outputs && !(o in lastSent && lastSent[o] == read(o))
                  ==> o in after && after[o] == read(o) % 65536)
            && (forall o :: o in outputs && o in lastSent && lastSent[o] == read(o) && o in view
                  ==> o in after && after[o] == view[o])
            && (forall k :: k !in outputs ==> (k in after <==> k in view) && (k in view ==> after[k] == view[k]))
    decreases |outputs|
  {
    if outputs != [] {
      var o, rest := outputs[0], outputs[1..];
      var head := if o in lastSent && lastSent[o] == read(o) then [] else [Update(o, read(o))];
      var tail := Pending(rest, lastSent, read);
      assert o !in rest;
      assert OnWire(head + tail) == OnWire(head) + OnWire(tail);
      AppliedAppend(view, OnWire(head), OnWire(tail));
      if head != [] {
        assert OnWire(head) == [Update(o, read(o) % 65536)];
      }
      AppliedPending(rest, lastSent, read, Applied(view, OnWire(head)));
      assert forall p :: p in outputs <==> p == o || p in rest;
    }
  }

  lemma {:induction false} PendingIndices(outputs: seq<byte>, lastSent: map<byte, int>, read: byte -> int)
    requires UNUSED !in outputs
    ensures forall u :: u in Pending(outputs, lastSent, read) ==> u.index != UNUSED
  {
    if outputs != [] {
      PendingIndices(outputs[1..], lastSent, read);
    }
  }

  /** A round without send errors brings the view up to date, whatever the values read. */
  lemma RoundMirrors(outputs: seq<byte>, lastSent: map<byte, int>, read: byte -> int, sent: seq<byte>)
    requires Usable(outputs) && Mirrors(outputs, lastSent, sent)
    ensures var sent' := sent + Packets(Pending(outputs, lastSent, read));
            && Mirrors(outputs, Recorded(outputs, lastSent, read), sent')
            && View(sent') == Applied(View(sent), OnWire(Pending(outputs, lastSent, read)))
            && forall o :: o in outputs ==> (o in View(sent') && View(sent')[o] == read(o) <==> 0 <= read(o) < 65536)
  {
    hide Parse, Rest, Misaligned, Packets, Pending, OnWire, Applied;
    var pending := Pending(outputs, lastSent, read);
    PendingIndices(outputs, lastSent, read);
    AppendPackets(sent, pending);
    AppliedAppend(map[], Parse(sent), OnWire(pending));
    AppliedPending(outputs, lastSent, read, View(sent));
    WireValues(sent + Packets(pending));
  }

  lemma AppendPackets(sent: seq<byte>, pending: seq<Update>)
    requires Rest(sent) == [] && Misaligned(sent) == []
    requires forall u :: u in pending ==> u.index != UNUSED
    ensures Parse(sent + Packets(pending)) == Parse(sent) + OnWire(pending)
    ensures Rest(sent + Packets(pending)) == [] && Misaligned(sent + Packets(pending)) == []
  {
    hide Parse, Rest, Misaligned, Packets, OnWire;
    ParseAppend(sent, Packets(pending));
    PacketsRoundTrip(pending, []);
    assert [] + Packets(pending) == Packets(pending) == Packets(pending) + [];
    assert Parse([]) == [] && Rest([]) == [] && Misaligned([]) == [] by { ShortParse([]); ShortMisaligned([]); }
    MisalignedAppend(sent, Packets(pending));
  }

  lemma WireValues(sent: seq<byte>)
    ensures forall o :: o in View(sent) ==> 0 <= View(sent)[o] < 65536
  {
    ParsedValues(sent);
    AppliedValues(map[], Parse(sent));
  }

  lemma {:induction false} AppliedValues(view: map<byte, int>, updates: seq<Update>)
    requires forall o :: o in view ==> 0 <= view[o] < 65536
    requires forall u :: u in updates ==> 0 <= u.value < 65536
    ensures forall o :: o in Applied(view, updates) ==> 0 <= Applied(view, updates)[o] < 65536
    decreases |updates|
  {
    if updates != [] {
      AppliedValues(view[updates[0].index := updates[0].value], updates[1..]);
    }
  }

  lemma KeepAliveIsQuiet(sent: seq<byte>)
    requires Rest(sent) == [] && Misaligned(sent) == []
    ensures Parse(sent + KEEP_ALIVE) == Parse(sent)
    ensures Rest(sent + KEEP_ALIVE) == [] && Misaligned(sent + KEEP_ALIVE) == []
  {
    hide Parse, Rest, Misaligned;
    assert KEEP_ALIVE[..2] == HEADER && KEEP_ALIVE[2] != DATA_PACKET;
    ParseAppend(sent, KEEP_ALIVE);
    MisalignedAppend(sent, KEEP_ALIVE);
    ParsePacket(KEEP_ALIVE, []);
    MisalignedPacket(KEEP_ALIVE);
    ShortParse([]);
    assert [] + KEEP_ALIVE == KEEP_ALIVE == KEEP_ALIVE + [];
  }

  lemma MisalignedPacket(packet: seq<byte>)
    requires |packet| == PACKET_LENGTH && packet[..2] == HEADER
    ensures Misaligned(packet) == []
  {
    ShortMisaligned(packet[PACKET_LENGTH..]);
  }

  lemma PendingStep(outputs: seq<byte>, i: nat, lastSent: map<byte, int>, read: byte -> int)
    requires i < |outputs|
    ensures forall o :: o in outputs[..i + 1] <==> o in outputs[..i] || o == outputs[i]
    ensures Recorded(outputs[..i + 1], lastSent, read)
       == Recorded(outputs[..i], lastSent, read)[outputs[i] := read(outputs[i])]
    ensures outputs[i..][0] == outputs[i] && outputs[i..][1..] == outputs[i + 1..]
  {
    assert outputs[..i + 1] == outputs[..i] + [outputs[i]];
  }

  lemma NothingRecorded(lastSent: map<byte, int>, read: byte -> int)
    ensures Recorded([], lastSent, read) == lastSent
  {}

  class Sender {
    const outputs: seq<byte>
    var lastSent: map<byte, int>
    var sent: seq<byte>     // everything sent on the current connection
    var connected: bool

    ghost predicate Valid()
      reads this
    {
      && Usable(outputs)
      && (connected ==> Mirrors(outputs, lastSent, sent))
    }

    constructor (outputs: seq<byte>)
      requires Usable(outputs)
      ensures Valid() && this.outputs == outputs && !connected
    {
      this.outputs := outputs;
      lastSent := map o | o in outputs :: NEVER_SENT;
      sent, connected := [], false;
    }

    /** A new connection; whether the first keep-alive gets through does not matter. */
    method Connect(keepAliveSent: bool)
      requires Valid() && !connected
      modifies this
      ensures Valid() && connected
      ensures lastSent == map o | o in outputs :: -1
      ensures sent == if keepAliveSent then KEEP_ALIVE else []
    {
      hide Parse, Rest, Misaligned;
      lastSent := map o | o in outputs :: NEVER_SENT;
      sent, connected := [], true;
      ShortParse([]);
      ShortMisaligned([]);
      if keepAliveSent {
        KeepAliveIsQuiet([]);
        assert [] + KEEP_ALIVE == KEEP_ALIVE;
        sent := KEEP_ALIVE;
      }
    }

    /** Collects the changed outputs, recording them as sent. */
    method CollectPending(read: byte -> int) returns (pending: seq<Update>)
      requires Valid() && connected
      modifies this`lastSent
      ensures pending == Pending(outputs, old(lastSent), read)
      ensures lastSent == Recorded(outputs, old(lastSent), read)
    {
      hide Parse, Rest, Misaligned, Applied, Recorded;
      ghost var last0 := lastSent;
      pending := [];
      assert Recorded(outputs[..0], last0, read) == last0 by { NothingRecorded(last0, read); }
      for i := 0 to |outputs|
        invariant lastSent == Recorded(outputs[..i], last0, read)
        invariant forall o :: o in outputs ==> o in lastSent && (o !in outputs[..i] ==> lastSent[o] == last0[o])
        invariant pending + Pending(outputs[i..], last0, read) == Pending(outputs, last0, read)
      {
        PendingStep(outputs, i, last0, read);
        var value := read(outputs[i]);
        if lastSent[outputs[i]] != value {
          pending := pending + [Update(outputs[i], value)];
          lastSent := lastSent[outputs[i] := value];
        }
      }
      assert outputs[..|outputs|] == outputs;
    }

    /** Sends the updates four to a packet, until done or until a transmission fails. */
    method SendBatches(updates: seq<Update>, goodSends: nat) returns (left: nat)
      requires connected
      modifies this`sent, this`connected
      ensures connected ==> sent == old(sent) + Packets(updates)
    {
      hide Packet;
      var unsent := updates;
      left := goodSends;
      while unsent != [] && connected
        invariant connected ==> sent + Packets(unsent) == old(sent) + Packets(updates)
        decreases |unsent|
      {
        var batch := if |unsent| <= 4 then unsent else unsent[..4];
        unsent := if |unsent| <= 4 then [] else unsent[4..];
        var packet := MakePacket(batch);
        if left == 0 {
          connected := false;
        } else {
          sent, left := sent + packet[..], left - 1;
        }
      }
    }

    /** One pass of the send loop.  Only the first goodSends transmissions succeed; silent says that the
        peer has not been heard for too long.  Returns whether the connection survives. */
    method SendRound(read: byte -> int, goodSends: nat, keepAliveDue: bool, silent: bool) returns (alive: bool)
      requires Valid() && connected
      modifies this
      ensures Valid() && alive == connected
      ensures lastSent == Recorded(outputs, old(lastSent), read)
      ensures alive ==> sent == old(sent) + Packets(Pending(outputs, old(lastSent), read))
                                + (if keepAliveDue then KEEP_ALIVE else [])
      ensures alive ==> forall o :: o in outputs
                          ==> (o in View(sent) && View(sent)[o] == read(o) <==> 0 <= read(o) < 65536)
    {
      hide Parse, Rest, Misaligned, Packets, Pending, Recorded, Applied;
      RoundMirrors(outputs, lastSent, read, sent);
      var pending := CollectPending(read);
      var left := SendBatches(pending, goodSends);
      if connected && keepAliveDue {
        if left == 0 {
          connected := false;
        } else {
          KeepAliveIsQuiet(sent);
          sent := sent + KEEP_ALIVE;
        }
      }
      if silent {
        connected := false;
      }
      return connected;
    }
  }

  /** However the peer's reads cut what was sent, it has made every write as soon as it is complete. */
  lemma PeerIsUpToDate(outputs: seq<byte>, lastSent: map<byte, int>, sent: seq<byte>, chunks: seq<seq<byte>>)
    requires Mirrors(outputs, lastSent, sent) && Stream(chunks) == sent
    ensures Applied(map[], Received([], chunks)) == View(sent)
    ensures Buffered([], chunks) == []
  {
    hide Parse, Rest, Misaligned, Received, Buffered, Applied;
    assert [] + sent == sent;
    AlignedIsImmediate([], chunks);
  }
}
