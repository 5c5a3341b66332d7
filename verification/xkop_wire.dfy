/**
  XKOP packets, and the reassembly of a received byte stream into signal writes.

  The receive loop handles one chunk at a time and stops looking at its buffer after
  discarding a single misaligned byte.  ReceiveRefinesParse shows that neither matters in the
  end: what has been written, followed by what a one-pass parser finds in the left-over
  buffer, is what that parser finds in the whole stream.
 */
module XkopWire {
  import opened Bytes
  import opened XkopCheckCode

  const PACKET_LENGTH := 17
  const HEADER: seq<byte> := [0xca, 0x35]
  const DATA_PACKET: byte := 0x00
  const UNUSED: byte := 0xff

  /** A value for the signal with this XKOP index. */
  datatype Update = Update(index: byte, value: int)

  // ---- Building a packet ---------------------------------------------------------------

  function HighOf(value: int): byte { value / 256 % 256 }
  function LowOf(value: int): byte { value % 256 }
  function Word(high: byte, low: byte): int { high * 256 + low }

  function Slot(updates: seq<Update>, i: nat): seq<byte> {
    if i < |updates| then [updates[i].index, HighOf(updates[i].value), LowOf(updates[i].value)]
    else [UNUSED, 0, 0]
  }

  function Slots(updates: seq<Update>, n: nat): (slots: seq<byte>)
    ensures |slots| == 3 * n
  {
    if n == 0 then [] else Slots(updates, n - 1) + Slot(updates, n - 1)
  }

  /** The thirteen bytes covered by the check code: the packet type and four slots. */
  function Body(updates: seq<Update>): seq<byte> {
    [DATA_PACKET] + Slots(updates, 4)
  }

  function Packet(updates: seq<Update>): (packet: seq<byte>)
    ensures |packet| == PACKET_LENGTH
  {
    var code := Code(Bits(Body(updates)));
    HEADER + Body(updates) + [code.crc1 as int, code.crc0 as int]
  }

  /** The packet buffer after n of the four slots have been filled in. */
  function Filled(updates: seq<Update>, n: nat): (packet: seq<byte>)
    requires n <= 4
    ensures |packet| == PACKET_LENGTH
  {
    HEADER + [DATA_PACKET] + Slots(updates, n) + seq(14 - 3 * n, _ => 0)
  }

  lemma FillOneSlot(updates: seq<Update>, n: nat)
    requires n < 4
    ensures var slot := Slot(updates, n);
            Filled(updates, n + 1)
                == Filled(updates, n)[3 + 3 * n := slot[0]][4 + 3 * n := slot[1]][5 + 3 * n := slot[2]]
  {}

  lemma NothingFilled(updates: seq<Update>)
    ensures Filled(updates, 0) == HEADER + [DATA_PACKET] + seq(14, _ => 0)
  {}

  lemma StillZero(updates: seq<Update>, n: nat)
    requires n < 4
    ensures Filled(updates, n)[4 + 3 * n] == 0 && Filled(updates, n)[5 + 3 * n] == 0
  {}

  lemma FilledBody(updates: seq<Update>)
    ensures Filled(updates, 4)[2..15] == Body(updates)
    ensures var code := Code(Bits(Body(updates)));
            Filled(updates, 4)[15 := code.crc1 as int][16 := code.crc0 as int] == Packet(updates)
  {
    hide Code, Bits;
  }

  /** Fills a packet with the first four of the given updates. */
  method MakePacket(updates: seq<Update>) returns (packet: array<byte>)
    ensures fresh(packet) && packet[..] == Packet(updates)
  {
    hide Code, Bits, Body, Packet, Filled;
    NothingFilled(updates);
    packet := new byte[PACKET_LENGTH](_ => 0);
    packet[0], packet[1] := HEADER[0], HEADER[1];
    packet[2] := DATA_PACKET;
    assert packet[..] == Filled(updates, 0);
    for i := 0 to 4
      invariant packet[..] == Filled(updates, i)
    {
      FillOneSlot(updates, i);
      StillZero(updates, i);
      if i < |updates| {
        packet[3 + i * 3] := updates[i].index;
        packet[4 + i * 3] := HighOf(updates[i].value);
        packet[5 + i * 3] := LowOf(updates[i].value);
      } else {
        packet[3 + i * 3] := UNUSED;
      }
    }
    FilledBody(updates);
    WriteCheckCode(packet, 15, 2);
  }

  // ---- Reading a packet ----------------------------------------------------------------

  function SlotAt(packet: seq<byte>, s: nat): seq<Update>
    requires |packet| == PACKET_LENGTH && s < 4
  {
    if packet[3 + 3 * s] == UNUSED then []
    else [Update(packet[3 + 3 * s], Word(packet[4 + 3 * s], packet[5 + 3 * s]))]
  }

  function SlotsFrom(packet: seq<byte>, s: nat): seq<Update>
    requires |packet| == PACKET_LENGTH && s <= 4
    decreases 4 - s
  {
    if s == 4 then [] else SlotAt(packet, s) + SlotsFrom(packet, s + 1)
  }

  /** The writes a packet causes; packets of other types cause none. */
  function Decode(packet: seq<byte>): seq<Update>
    requires |packet| == PACKET_LENGTH
  {
    if packet[2] == DATA_PACKET then SlotsFrom(packet, 0) else []
  }

  /** The octets of a packet: header, type, four slots of index, high and low octet, unused ones with index 255, and the
      check code of all but the header. */
  lemma PacketLayout(updates: seq<Update>, s: nat)
    requires s < 4
    ensures var p := Packet(updates);
            && |p| == 17 && p[0] == 0xca && p[1] == 0x35 && p[2] == 0
            && (if s < |updates|
                then p[3 + 3 * s] == updates[s].index
                     && p[4 + 3 * s] as int * 256 + p[5 + 3 * s] as int == updates[s].value % 65536
                else p[3 + 3 * s] == 255 && p[4 + 3 * s] == 0 && p[5 + 3 * s] == 0)
            && (var code := Code(Bits(p[2..15])); p[15] == code.crc1 as int && p[16] == code.crc0 as int)
  {
    hide Code, Bits, Packet;
    var p := Packet(updates);
    PacketSlot(updates, s);
    PacketEnds(updates);
    if s < |updates| {
      WordRoundTrip(updates[s].value);
    }
    hide HighOf, LowOf, Slots;
    var slot := p[3 + 3 * s..6 + 3 * s];
    assert slot[0] == p[3 + 3 * s] && slot[1] == p[4 + 3 * s] && slot[2] == p[5 + 3 * s];
  }

  lemma PacketEnds(updates: seq<Update>)
    ensures var p := Packet(updates);
            && p[..2] == HEADER && p[0] == HEADER[0] && p[1] == HEADER[1] && p[2..15] == Body(updates)
                 && p[2] == DATA_PACKET
            && (var code := Code(Bits(Body(updates))); p[15] == code.crc1 as int && p[16] == code.crc0 as int)
  {
    hide Code, Bits;
  }

  /** What the wire makes of an update: the value survives modulo 65536. */
  function OnWire(updates: seq<Update>): (r: seq<Update>)
    ensures |r| == |updates|
    ensures forall i :: 0 <= i < |r| ==> r[i] == Update(updates[i].index, updates[i].value % 65536)
  {
    seq(|updates|, i requires 0 <= i < |updates| => Update(updates[i].index, updates[i].value % 65536))
  }

  lemma {:induction false} SlotInSlots(updates: seq<Update>, n: nat, s: nat)
    requires s < n
    ensures Slots(updates, n)[3 * s..3 * s + 3] == Slot(updates, s)
  {
    if s < n - 1 {
      SlotInSlots(updates, n - 1, s);
      assert Slots(updates, n)[3 * s..3 * s + 3] == Slots(updates, n - 1)[3 * s..3 * s + 3];
    }
  }

  lemma PacketSlot(updates: seq<Update>, s: nat)
    requires s < 4
    ensures Packet(updates)[3 + 3 * s..6 + 3 * s] == Slot(updates, s)
    ensures Packet(updates)[2] == DATA_PACKET
  {
    hide Code, Bits;
    SlotInSlots(updates, 4, s);
    var slots := Slots(updates, 4);
    assert Packet(updates)[3..15] == slots;
    assert Packet(updates)[3..15][3 * s..3 * s + 3] == Packet(updates)[3 + 3 * s..6 + 3 * s];
  }

  lemma SlotRoundTrip(updates: seq<Update>, s: nat)
    requires s < 4 && forall u :: u in updates ==> u.index != UNUSED
    ensures SlotAt(Packet(updates), s) == if s < |updates| then [OnWire(updates)[s]] else []
  {
    hide Packet, Word;
    SlotOctets(updates, s);
    if s < |updates| {
      assert updates[s] in updates;
      WordRoundTrip(updates[s].value);
    }
  }

  lemma SlotOctets(updates: seq<Update>, s: nat)
    requires s < 4
    ensures var p, slot := Packet(updates), Slot(updates, s);
            p[3 + 3 * s] == slot[0] && p[4 + 3 * s] == slot[1] && p[5 + 3 * s] == slot[2]
  {
    hide Packet, Slot;
    PacketSlot(updates, s);
    var p := Packet(updates);
    var slot := p[3 + 3 * s..6 + 3 * s];
    assert slot[0] == p[3 + 3 * s] && slot[1] == p[4 + 3 * s] && slot[2] == p[5 + 3 * s];
  }

  lemma {:induction false} DecodedFrom(updates: seq<Update>, s: nat)
    requires |updates| <= 4 && s <= 4 && forall u :: u in updates ==> u.index != UNUSED
    ensures SlotsFrom(Packet(updates), s) == if s < |updates| then OnWire(updates)[s..] else []
    decreases 4 - s
  {
    hide Packet, SlotAt;
    if s < 4 {
      SlotRoundTrip(updates, s);
      DecodedFrom(updates, s + 1);
    }
  }

  /** A packet of at most four updates decodes to them, values modulo 65536, in order. */
  lemma PacketRoundTrip(updates: seq<Update>)
    requires |updates| <= 4 && forall u :: u in updates ==> u.index != UNUSED
    ensures Decode(Packet(updates)) == OnWire(updates)
  {
    hide Packet, SlotsFrom;
    DecodedFrom(updates, 0);
    PacketSlot(updates, 0);
  }

  /** Exactly which updates survive a packet: at most four, with an index other than 255 and a 16-bit value. */
  lemma PacketFaithfulIff(updates: seq<Update>)
    ensures Decode(Packet(updates)) == updates
       <==> |updates| <= 4 && forall u :: u in updates ==> u.index != UNUSED && 0 <= u.value < 65536
  {
    hide Packet, SlotsFrom;
    DecodedSlots(Packet(updates), 0);
    if |updates| <= 4 && forall u :: u in updates ==> u.index != UNUSED {
      PacketRoundTrip(updates);
      OnWireFaithfulIff(updates);
    }
  }

  lemma OnWireFaithfulIff(updates: seq<Update>)
    ensures OnWire(updates) == updates <==> forall u :: u in updates ==> 0 <= u.value < 65536
  {
    if OnWire(updates) == updates {
      forall u | u in updates ensures 0 <= u.value < 65536 {
        var i :| 0 <= i < |updates| && updates[i] == u;
        assert updates[i] == OnWire(updates)[i];
      }
    }
    if forall u :: u in updates ==> 0 <= u.value < 65536 {
      forall i | 0 <= i < |updates| ensures OnWire(updates)[i] == updates[i] {
        assert updates[i] in updates;
      }
    }
  }

  /** Decoding never yields more than four updates, nor one with the index of an unused slot. */
  lemma {:induction false} DecodedSlots(packet: seq<byte>, s: nat)
    requires |packet| == PACKET_LENGTH && s <= 4
    ensures |SlotsFrom(packet, s)| <= 4 - s
    ensures forall u :: u in SlotsFrom(packet, s) ==> u.index != UNUSED
    decreases 4 - s
  {
    if s < 4 {
      DecodedSlots(packet, s + 1);
    }
  }

  lemma SlotEqual(updates: seq<Update>, changed: seq<Update>, i: nat)
    requires |changed| == |updates| && (i < |updates| ==> changed[i] == updates[i])
    ensures Slot(updates, i) == Slot(changed, i)
  {}

  lemma {:induction false} SlotsAround(updates: seq<Update>, changed: seq<Update>, n: nat, s: nat)
    requires s < n && |changed| == |updates| && forall i :: 0 <= i < |updates| && i != s ==> changed[i] == updates[i]
    ensures Slots(updates, n)[..3 * s] == Slots(changed, n)[..3 * s]
    ensures Slots(updates, n)[3 * s + 3..] == Slots(changed, n)[3 * s + 3..]
  {
    hide Slot;
    if s < n - 1 {
      SlotsAround(updates, changed, n - 1, s);
      SlotEqual(updates, changed, n - 1);
      assert Slots(updates, n)[..3 * s] == Slots(updates, n - 1)[..3 * s];
      assert Slots(changed, n)[..3 * s] == Slots(changed, n - 1)[..3 * s];
      assert Slots(updates, n)[3 * s + 3..] == Slots(updates, n - 1)[3 * s + 3..] + Slot(updates, n - 1);
      assert Slots(changed, n)[3 * s + 3..] == Slots(changed, n - 1)[3 * s + 3..] + Slot(changed, n - 1);
    } else {
      SlotsEqual(updates, changed, s);
      assert Slots(updates, n)[..3 * s] == Slots(updates, s);
      assert Slots(changed, n)[..3 * s] == Slots(changed, s);
    }
  }

  lemma {:induction false} SlotsEqual(updates: seq<Update>, changed: seq<Update>, n: nat)
    requires |changed| == |updates| && forall i :: 0 <= i < n && i < |updates| ==> changed[i] == updates[i]
    ensures Slots(updates, n) == Slots(changed, n)
  {
    if n > 0 {
      SlotsEqual(updates, changed, n - 1);
    }
  }

  /** Changing the value in one slot of a packet changes its check bytes, unless the wire value stays the same. */
  lemma ValueChangeDetected(updates: seq<Update>, s: nat, value: int)
    requires s < |updates| <= 4
    ensures var changed := updates[s := updates[s].(value := value)];
            Code(Bits(Body(updates))) == Code(Bits(Body(changed))) <==> updates[s].value % 65536 == value % 65536
  {
    hide Code, Bits, Slots, Body, HighOf, LowOf;
    var u, v := updates[s], updates[s].(value := value);
    var changed := updates[s := v];
    SlotInSlots(updates, 4, s);
    SlotInSlots(changed, 4, s);
    SlotsAround(updates, changed, 4, s);
    var head := [DATA_PACKET] + Slots(updates, 4)[..3 * s] + [u.index];
    var tail := Slots(updates, 4)[3 * s + 3..];
    assert Body(updates) == head + [HighOf(u.value), LowOf(u.value)] + tail by {
      SplitBody(updates, s);
    }
    assert Body(changed) == head + [HighOf(value), LowOf(value)] + tail by {
      SplitBody(changed, s);
    }
    TwoByteChange(head, HighOf(u.value), LowOf(u.value), HighOf(value), LowOf(value), tail);
    WordRoundTrip(u.value);
    WordRoundTrip(value);
  }

  lemma WordRoundTrip(value: int)
    ensures Word(HighOf(value), LowOf(value)) == value % 65536
  {}

  lemma TwoByteChange(head: seq<byte>, a: byte, b: byte, a': byte, b': byte, tail: seq<byte>)
    ensures Code(Bits(head + [a, b] + tail)) == Code(Bits(head + [a', b'] + tail)) <==> a == a' && b == b'
  {
    hide Code;
    BitsOfTwo(head, a, b, tail);
    BitsOfTwo(head, a', b', tail);
    TwoByteChangeDetected(Bits(head), a as bv8, b as bv8, a' as bv8, b' as bv8, Bits(tail));
    SameBits(a, a');
    SameBits(b, b');
  }

  lemma SplitBody(updates: seq<Update>, s: nat)
    requires s < |updates| <= 4
    ensures var slots, u := Slots(updates, 4), updates[s];
            Body(updates)
                == [DATA_PACKET] + slots[..3 * s] + [u.index] + [HighOf(u.value), LowOf(u.value)] + slots[3 * s + 3..]
  {
    hide Slots, HighOf, LowOf;
    SlotInSlots(updates, 4, s);
    SplitAround(DATA_PACKET, Slots(updates, 4), 3 * s, updates[s].index, HighOf(updates[s].value),
        LowOf(updates[s].value));
  }

  lemma SplitAround(first: byte, slots: seq<byte>, at: nat, index: byte, high: byte, low: byte)
    requires at + 3 <= |slots| && slots[at..at + 3] == [index, high, low]
    ensures [first] + slots == [first] + slots[..at] + [index] + [high, low] + slots[at + 3..]
  {
    assert slots == slots[..at] + slots[at..at + 3] + slots[at + 3..];
    assert [index, high, low] == [index] + [high, low];
  }

  lemma BitsOfTwo(head: seq<byte>, a: byte, b: byte, tail: seq<byte>)
    ensures Bits(head + [a, b] + tail) == Bits(head) + [a as bv8, b as bv8] + Bits(tail)
  {}

  // ---- Receiving -----------------------------------------------------------------------

  /** What a one-pass parser of the whole stream writes: every packet is decoded, and a byte at which
      no header starts is skipped. */
  function Parse(s: seq<byte>): seq<Update> {
    if |s| < PACKET_LENGTH then []
    else if s[..2] != HEADER then Parse(s[1..])
    else Decode(s[..PACKET_LENGTH]) + Parse(s[PACKET_LENGTH..])
  }

  /** The bytes that parser leaves for later. */
  function Rest(s: seq<byte>): (rest: seq<byte>)
    ensures |rest| < PACKET_LENGTH
  {
    if |s| < PACKET_LENGTH then s
    else if s[..2] != HEADER then Rest(s[1..])
    else Rest(s[PACKET_LENGTH..])
  }

  /** The stream up to the first empty read, which means that the peer closed the connection. */
  function Stream(chunks: seq<seq<byte>>): seq<byte> {
    if chunks == [] || chunks[0] == [] then [] else chunks[0] + Stream(chunks[1..])
  }

  /** Bytes arriving later never change what earlier bytes gave. */
  lemma {:induction false} ParseAppend(a: seq<byte>, b: seq<byte>)
    ensures Parse(a + b) == Parse(a) + Parse(Rest(a) + b)
    ensures Rest(a + b) == Rest(Rest(a) + b)
    decreases |a|
  {
    hide Decode;
    if |a| >= PACKET_LENGTH {
      assert (a + b)[..2] == a[..2];
      if a[..2] != HEADER {
        assert (a + b)[1..] == a[1..] + b;
        ParseAppend(a[1..], b);
      } else {
        assert (a + b)[..PACKET_LENGTH] == a[..PACKET_LENGTH];
        assert (a + b)[PACKET_LENGTH..] == a[PACKET_LENGTH..] + b;
        ParseAppend(a[PACKET_LENGTH..], b);
      }
    }
  }

  /** One pass of the inner loop over the buffer: packets are decoded until too few bytes are left,
      or until one misaligned byte has been discarded. */
  function Drained(s: seq<byte>): seq<Update> {
    if |s| < PACKET_LENGTH || s[..2] != HEADER then []
    else Decode(s[..PACKET_LENGTH]) + Drained(s[PACKET_LENGTH..])
  }

  function Leftover(s: seq<byte>): seq<byte> {
    if |s| < PACKET_LENGTH then s
    else if s[..2] != HEADER then s[1..]
    else Leftover(s[PACKET_LENGTH..])
  }

  /** The writes made by the receive loop, started with the given buffer, and the buffer it ends with. */
  function Received(buf: seq<byte>, chunks: seq<seq<byte>>): seq<Update>
    decreases |chunks|
  {
    if chunks == [] || chunks[0] == [] then []
    else Drained(buf + chunks[0]) + Received(Leftover(buf + chunks[0]), chunks[1..])
  }

  function Buffered(buf: seq<byte>, chunks: seq<seq<byte>>): seq<byte>
    decreases |chunks|
  {
    if chunks == [] || chunks[0] == [] then buf
    else Buffered(Leftover(buf + chunks[0]), chunks[1..])
  }

  /** The inner loop over the buffer. */
  method DrainBuffer(start: seq<byte>) returns (written: seq<Update>, buf: seq<byte>)
    ensures written == Drained(start) && buf == Leftover(start)
  {
    hide Decode;
    written, buf := [], start;
    while |buf| >= PACKET_LENGTH
      invariant written + Drained(buf) == Drained(start)
      invariant Leftover(buf) == Leftover(start)
      decreases |buf|
    {
      var pkt := buf[..PACKET_LENGTH];
      assert buf[..2] == pkt[..2];
      if pkt[..2] != HEADER {
        buf := pkt[1..] + buf[PACKET_LENGTH..];
        return;
      }
      buf := buf[PACKET_LENGTH..];
      written := written + Decode(pkt);
    }
  }

  /** The receive loop over the chunks that the reads return; an empty chunk ends it. */
  method RecvLoop(chunks: seq<seq<byte>>) returns (written: seq<Update>, buf: seq<byte>)
    ensures written == Received([], chunks) && buf == Buffered([], chunks)
  {
    hide Drained, Leftover, Received, Buffered;
    written, buf := [], [];
    var i := 0;
    assert chunks[0..] == chunks;
    while i < |chunks| && chunks[i] != []
      invariant 0 <= i <= |chunks|
      invariant written + Received(buf, chunks[i..]) == Received([], chunks)
      invariant Buffered(buf, chunks[i..]) == Buffered([], chunks)
    {
      ReceivedOne(buf, chunks, i);
      var more;
      more, buf := DrainBuffer(buf + chunks[i]);
      written := written + more;
      i := i + 1;
    }
    ReceivedNone(buf, chunks[i..]);
  }

  lemma ReceivedOne(buf: seq<byte>, chunks: seq<seq<byte>>, i: nat)
    requires i < |chunks| && chunks[i] != []
    ensures var s := buf + chunks[i];
            && Received(buf, chunks[i..]) == Drained(s) + Received(Leftover(s), chunks[i + 1..])
            && Buffered(buf, chunks[i..]) == Buffered(Leftover(s), chunks[i + 1..])
  {
    hide Drained, Leftover;
    assert chunks[i..][0] == chunks[i] && chunks[i..][1..] == chunks[i + 1..];
  }

  lemma ReceivedNone(buf: seq<byte>, chunks: seq<seq<byte>>)
    requires chunks == [] || chunks[0] == []
    ensures Received(buf, chunks) == [] && Buffered(buf, chunks) == buf
  {}

  lemma {:induction false} DrainThenParse(s: seq<byte>)
    ensures Parse(s) == Drained(s) + Parse(Leftover(s))
    ensures Rest(s) == Rest(Leftover(s))
    decreases |s|
  {
    hide Decode;
    if |s| >= PACKET_LENGTH && s[..2] == HEADER {
      DrainThenParse(s[PACKET_LENGTH..]);
    }
  }

  /** Chunking and the early stop only delay writes: those already made, followed by what the parser
      finds in the buffer, are what it finds in the whole stream. */
  lemma {:induction false} ReceiveRefinesParse(buf: seq<byte>, chunks: seq<seq<byte>>)
    ensures Received(buf, chunks) + Parse(Buffered(buf, chunks)) == Parse(buf + Stream(chunks))
    ensures Rest(Buffered(buf, chunks)) == Rest(buf + Stream(chunks))
    decreases |chunks|
  {
    hide Decode, Parse, Rest, Drained, Leftover;
    if chunks == [] || chunks[0] == [] {
      assert buf + Stream(chunks) == buf;
    } else {
      var s, later := buf + chunks[0], Stream(chunks[1..]);
      assert buf + Stream(chunks) == s + later;
      DrainThenParse(s);
      ParseAppend(s, later);
      ParseAppend(Leftover(s), later);
      ReceiveRefinesParse(Leftover(s), chunks[1..]);
      assert Parse(s + later) == Drained(s) + Parse(Leftover(s) + later);
    }
  }

  // ---- When a pass leaves something undone ---------------------------------------------

  /** The part of s from the first packet position without a header; empty when there is none. */
  function Misaligned(s: seq<byte>): seq<byte> {
    if |s| < PACKET_LENGTH then []
    else if s[..2] != HEADER then s
    else Misaligned(s[PACKET_LENGTH..])
  }

  /** A pass leaves nothing that the parser could still use exactly when the buffer is aligned, or
      becomes too short by the one byte discarded. */
  lemma {:induction false} PassIsCompleteIff(s: seq<byte>)
    ensures Leftover(s) == Rest(s) <==> |Misaligned(s)| <= PACKET_LENGTH
    decreases |s|
  {
    if |s| >= PACKET_LENGTH {
      if s[..2] != HEADER {
        assert Leftover(s) == s[1..];
      } else {
        PassIsCompleteIff(s[PACKET_LENGTH..]);
      }
    }
  }

  /** One stray byte before a packet is enough to leave that whole packet unread until more bytes arrive. */
  lemma StrayByteDelaysPacket(stray: byte, updates: seq<Update>)
    requires stray != HEADER[0]
    ensures Drained([stray] + Packet(updates)) == []
    ensures Leftover([stray] + Packet(updates)) == Packet(updates)
    ensures Parse([stray] + Packet(updates)) == Decode(Packet(updates))
  {
    hide Code, Bits, Decode;
    var p := Packet(updates);
    var s := [stray] + p;
    assert s[..2][0] == stray;
    assert s[1..] == p;
    ParsePacket(p, []);
    assert p + [] == p;
  }

  lemma ParsePacket(packet: seq<byte>, later: seq<byte>)
    requires |packet| == PACKET_LENGTH && packet[..2] == HEADER
    ensures Parse(packet + later) == Decode(packet) + Parse(later)
    ensures Rest(packet + later) == Rest(later)
  {
    hide Decode;
    var s := packet + later;
    assert s[..2] == packet[..2] && s[..PACKET_LENGTH] == packet && s[PACKET_LENGTH..] == later;
  }

  // ---- Streams without stray bytes ----------------------------------------------------

  lemma {:induction false} AlignedParts(a: seq<byte>, b: seq<byte>)
    requires Misaligned(a + b) == []
    ensures Leftover(a) == Rest(a) && Drained(a) == Parse(a)
    ensures Misaligned(Rest(a) + b) == []
    decreases |a|
  {
    hide Decode;
    if |a| >= PACKET_LENGTH {
      assert (a + b)[..2] == a[..2];
      assert (a + b)[PACKET_LENGTH..] == a[PACKET_LENGTH..] + b;
      AlignedParts(a[PACKET_LENGTH..], b);
    }
  }

  /** When no stray byte occurs, every write is made by the chunk that completes its packet. */
  lemma {:induction false} AlignedIsImmediate(buf: seq<byte>, chunks: seq<seq<byte>>)
    requires Misaligned(buf + Stream(chunks)) == [] && |buf| < PACKET_LENGTH
    ensures Received(buf, chunks) == Parse(buf + Stream(chunks))
    ensures Buffered(buf, chunks) == Rest(buf + Stream(chunks))
    decreases |chunks|
  {
    hide Decode, Parse, Rest, Drained, Leftover, Misaligned;
    if chunks == [] || chunks[0] == [] {
      assert buf + Stream(chunks) == buf;
      ShortParse(buf);
    } else {
      var s, later := buf + chunks[0], Stream(chunks[1..]);
      assert buf + Stream(chunks) == s + later;
      AlignedParts(s, later);
      ParseAppend(s, later);
      RestIsShort(s);
      AlignedIsImmediate(Leftover(s), chunks[1..]);
    }
  }

  lemma ShortParse(s: seq<byte>)
    requires |s| < PACKET_LENGTH
    ensures Parse(s) == [] && Rest(s) == s
  {}

  lemma RestIsShort(s: seq<byte>)
    ensures |Rest(s)| < PACKET_LENGTH
  {}

  lemma ShortMisaligned(s: seq<byte>)
    requires |s| < PACKET_LENGTH
    ensures Misaligned(s) == []
  {}

  lemma {:induction false} MisalignedAppend(a: seq<byte>, b: seq<byte>)
    requires Misaligned(a) == []
    ensures Misaligned(a + b) == Misaligned(Rest(a) + b)
    decreases |a|
  {
    if |a| >= PACKET_LENGTH {
      assert (a + b)[..2] == a[..2];
      assert (a + b)[PACKET_LENGTH..] == a[PACKET_LENGTH..] + b;
      MisalignedAppend(a[PACKET_LENGTH..], b);
    }
  }

  /** Everything decoded is a 16-bit value. */
  lemma {:induction false} ParsedValues(s: seq<byte>)
    ensures forall u :: u in Parse(s) ==> 0 <= u.value < 65536
    decreases |s|
  {
    if |s| >= PACKET_LENGTH {
      if s[..2] != HEADER {
        ParsedValues(s[1..]);
      } else {
        DecodedValues(s[..PACKET_LENGTH], 0);
        ParsedValues(s[PACKET_LENGTH..]);
      }
    }
  }

  lemma {:induction false} DecodedValues(packet: seq<byte>, s: nat)
    requires |packet| == PACKET_LENGTH && s <= 4
    ensures forall u :: u in SlotsFrom(packet, s) ==> 0 <= u.value < 65536
    decreases 4 - s
  {
    if s < 4 {
      DecodedValues(packet, s + 1);
    }
  }
}
