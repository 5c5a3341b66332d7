/**
  The RPDB driver: length-prefixed messages over a byte stream that arrives in pieces, and the pipelined
  writing of changed outputs.

  MessagesRecovered and InStepIff are about every way a stream can be cut and delayed; RecordedIff and
  InSyncIff are about every round of writes, whatever the controller applies and acknowledges.
 */
module Rpdb {
  import opened Bytes

  // ---- Framing -------------------------------------------------------------------------------------

  datatype Message = Message(kind: byte, payload: seq<byte>)

  const MAX_PAYLOAD := 65_531

  /** None when the length does not fit its two octets. */
  function Build(m: Message): Option<seq<byte>> {
    var total := 4 + |m.payload|;
    if total > 65_535 then None else Some([0, m.kind, total / 256, total % 256] + m.payload)
  }

  /** A message of up to 65531 octets of payload is sent as a zero, its kind and its length in two octets, the four
      included, before its payload; a longer one cannot be sent. */
  lemma BuildIs(m: Message)
    ensures Build(m).None? <==> |m.payload| > 65_531
    ensures Fits(m) <==> Build(m).Some?
    ensures Build(m).Some? ==>
      var f := Build(m).value;
      && |f| == 4 + |m.payload| && f[0] == 0 && f[1] == m.kind && f[2] as int * 256 + f[3] as int == |f|
           && f[4..] == m.payload
  {}

  predicate Fits(m: Message) {
    |m.payload| <= MAX_PAYLOAD
  }

  function Frame(m: Message): seq<byte>
    requires Fits(m)
  {
    Build(m).value
  }

  predicate AllFit(ms: seq<Message>) {
    forall i :: 0 <= i < |ms| ==> Fits(ms[i])
  }

  function Frames(ms: seq<Message>): seq<byte>
    requires AllFit(ms)
  {
    if ms == [] then [] else Frame(ms[0]) + Frames(ms[1..])
  }

  // ---- Receiving -------------------------------------------------------------------------------------

  /** What a call of recv does: it returns at least one and at most so many octets, or times out. */
  datatype Event = Gives(atMost: nat) | TimesOut

  /** The stream still to come, and what the calls of recv will do; when they run out, the receiver waits. */
  datatype Wire = Wire(stream: seq<byte>, events: seq<Event>)

  datatype Outcome = Got(data: seq<byte>) | TimedOut(lost: seq<byte>) | Closed | Waiting(partial: seq<byte>)

  function Min(a: int, b: int): int {
    if a < b then a else b
  }

  /** The octets that one call returns. */
  function Taken(stream: seq<byte>, atMost: nat, wanted: nat): (k: nat)
    requires wanted > 0
    ensures k <= |stream| && k <= wanted && (stream != [] ==> k > 0)
  {
    Min(Min(if atMost == 0 then 1 else atMost, wanted), |stream|)
  }

  /** Receiving n octets, buf of which have come already; an end of the stream is the peer closing. */
  function Exact(w: Wire, n: nat, buf: seq<byte>): (Outcome, Wire)
    requires |buf| <= n
    decreases |w.events|
  {
    if |buf| == n then (Got(buf), w)
    else if w.events == [] then (Waiting(buf), w)
    else if w.events[0].TimesOut? then (TimedOut(buf), Wire(w.stream, w.events[1..]))
    else if w.stream == [] then (Closed, Wire([], w.events[1..]))
    else
      var k := Taken(w.stream, w.events[0].atMost, n - |buf|);
      Exact(Wire(w.stream[k..], w.events[1..]), n, buf + w.stream[..k])
  }

  datatype Received = Msg(m: Message) | Nothing(lost: seq<byte>) | End | Blocked(partial: seq<byte>)

  function Receive(w: Wire): (Received, Wire) {
    var (h, w1) := Exact(w, 4, []);
    match h
    case TimedOut(lost) => (Nothing(lost), w1)
    case Closed => (End, w1)
    case Waiting(partial) => (Blocked(partial), w1)
    case Got(header) =>
      ExactLength(w, 4, []);
      var length := header[2] as int * 256 + header[3] as int;
      if length <= 4 then (Msg(Message(header[1], [])), w1)
      else
        var (p, w2) := Exact(w1, length - 4, []);
        match p
        case TimedOut(lost) => (Nothing(header + lost), w2)
        case Closed => (End, w2)
        case Waiting(partial) => (Blocked(header + partial), w2)
        case Got(payload) => (Msg(Message(header[1], payload)), w2)
  }

  lemma {:induction false} ExactLength(w: Wire, n: nat, buf: seq<byte>)
    requires |buf| <= n
    ensures var (o, w') := Exact(w, n, buf);
            && (o.Got? ==> |o.data| == n) && |w'.events| <= |w.events|
            && (|buf| == n || o.Waiting? || |w'.events| < |w.events|)
            && (o.Waiting? ==> w'.events == [])
    decreases |w.events|
  {
    if |buf| < n && w.events != [] && w.events[0].Gives? && w.stream != [] {
      var k := Taken(w.stream, w.events[0].atMost, n - |buf|);
      ExactLength(Wire(w.stream[k..], w.events[1..]), n, buf + w.stream[..k]);
    }
  }

  /** No octet is lost or reordered: what came in is in the result, and the rest is still to come. */
  lemma {:induction false} ExactConserves(w: Wire, n: nat, buf: seq<byte>)
    requires |buf| <= n
    ensures var (o, w') := Exact(w, n, buf);
            match o
            case Got(data) => buf + w.stream == data + w'.stream
            case TimedOut(lost) => buf + w.stream == lost + w'.stream && |lost| < n
            case Waiting(partial) => buf + w.stream == partial + w'.stream && |partial| < n
            case Closed => |buf + w.stream| < n
    decreases |w.events|
  {
    hide Taken;
    if |buf| < n && w.events != [] && w.events[0].Gives? && w.stream != [] {
      var k := Taken(w.stream, w.events[0].atMost, n - |buf|);
      ExactConserves(Wire(w.stream[k..], w.events[1..]), n, buf + w.stream[..k]);
      assert w.stream == w.stream[..k] + w.stream[k..];
      assert buf + w.stream[..k] + w.stream[k..] == buf + w.stream;
    }
  }

  class Socket {
    var wire: Wire

    constructor (wire: Wire)
      ensures this.wire == wire
    {
      this.wire := wire;
    }

    /** One call of recv. */
    method Recv(wanted: nat) returns (r: Option<seq<byte>>)
      requires wanted > 0 && wire.events != []
      modifies this
      ensures var e := old(wire.events[0]);
              && wire.events == old(wire.events[1..])
              && match e
                 case TimesOut => r == None && wire.stream == old(wire.stream)
                 case Gives(atMost) =>
                   var k := Taken(old(wire.stream), atMost, wanted);
                   r == Some(old(wire.stream)[..k]) && wire.stream == old(wire.stream)[k..]
    {
      var e := wire.events[0];
      match e
      case TimesOut =>
        r := None;
        wire := Wire(wire.stream, wire.events[1..]);
      case Gives(atMost) =>
        var k := Taken(wire.stream, atMost, wanted);
        r := Some(wire.stream[..k]);
        wire := Wire(wire.stream[k..], wire.events[1..]);
    }

    method RecvExact(n: nat) returns (o: Outcome)
      modifies this
      ensures (o, wire) == Exact(old(wire), n, [])
    {
      var buf: seq<byte> := [];
      while |buf| < n
        invariant |buf| <= n
        invariant Exact(wire, n, buf) == Exact(old(wire), n, [])
        decreases |wire.events|
      {
        if wire.events == [] {
          return Waiting(buf);
        }
        ghost var before := wire;
        var chunk := Recv(n - |buf|);
        if chunk.None? {
          return TimedOut(buf);
        }
        if chunk.value == [] {
          return Closed;
        }
        buf := buf + chunk.value;
      }
      o := Got(buf);
    }

    method RecvMsg() returns (r: Received)
      modifies this
      ensures (r, wire) == Receive(old(wire))
    {
      hide Exact;
      ghost var w := wire;
      var h := RecvExact(4);
      match h
      case TimedOut(lost) => return Nothing(lost);
      case Closed => return End;
      case Waiting(partial) => return Blocked(partial);
      case Got(header) =>
        ExactLength(w, 4, []);
        var length := header[2] as int * 256 + header[3] as int;
        if length <= 4 {
          return Msg(Message(header[1], []));
        }
        var p := RecvExact(length - 4);
        match p
        case TimedOut(lost) => return Nothing(header + lost);
        case Closed => return End;
        case Waiting(partial) => return Blocked(header + partial);
        case Got(payload) => return Msg(Message(header[1], payload));
    }
  }

  // ---- One message -------------------------------------------------------------------------------------

  lemma FrameShape(m: Message)
    requires Fits(m)
    ensures var f := Frame(m);
            && |f| == 4 + |m.payload| && f[1] == m.kind && f[2] as int * 256 + f[3] as int == |f| && f[4..] == m.payload
  {}

  /** The header of a message, once it has come. */
  lemma HeaderPart(w: Wire, m: Message, rest: seq<byte>)
    requires Fits(m) && w.stream == Frame(m) + rest
    ensures var (h, w1) := Exact(w, 4, []);
            match h
            case Got(data) => |data| == 4 && data == Frame(m)[..4] && w1.stream == m.payload + rest
            case TimedOut(lost) => lost + w1.stream == w.stream && |lost| < 4
            case Waiting(partial) => partial + w1.stream == w.stream && |partial| < 4
            case Closed => false
  {
    hide Exact, Frame;
    FrameShape(m);
    var f := Frame(m);
    ExactConserves(w, 4, []);
    ExactLength(w, 4, []);
    var (h, w1) := Exact(w, 4, []);
    assert [] + w.stream == w.stream;
    if h.Got? {
      assert h.data == (h.data + w1.stream)[..4] == w.stream[..4] == f[..4];
      assert w1.stream == (h.data + w1.stream)[4..] == w.stream[4..] == m.payload + rest;
    }
  }

  lemma PayloadPart(w: Wire, payload: seq<byte>, rest: seq<byte>)
    requires w.stream == payload + rest
    ensures var (p, w') := Exact(w, |payload|, []);
            match p
            case Got(data) => data == payload && w'.stream == rest
            case TimedOut(lost) => lost + w'.stream == w.stream && |lost| < |payload|
            case Waiting(partial) => partial + w'.stream == w.stream && |partial| < |payload|
            case Closed => false
  {
    hide Exact;
    var n := |payload|;
    ExactConserves(w, n, []);
    ExactLength(w, n, []);
    var (p, w') := Exact(w, n, []);
    assert [] + w.stream == w.stream;
    if p.Got? {
      assert p.data == (p.data + w'.stream)[..n] == w.stream[..n] == payload;
      assert w'.stream == (p.data + w'.stream)[n..] == w.stream[n..] == rest;
    }
  }

  /** From the beginning of a message, receiving gives that message and no more, or part of it. */
  lemma ReceiveFrame(w: Wire, m: Message, rest: seq<byte>)
    requires Fits(m) && w.stream == Frame(m) + rest
    ensures var (r, w') := Receive(w);
            match r
            case Msg(m') => m' == m && w'.stream == rest
            case Nothing(lost) => lost + w'.stream == w.stream && |lost| < |Frame(m)|
            case Blocked(partial) => partial + w'.stream == w.stream && |partial| < |Frame(m)|
            case End => false
  {
    hide Exact, Frame;
    FrameShape(m);
    HeaderPart(w, m, rest);
    var (h, w1) := Exact(w, 4, []);
    if h.Got? {
      var header := h.data;
      assert header[1] == Frame(m)[1] && header[2] == Frame(m)[2] && header[3] == Frame(m)[3];
      if m.payload == [] {
        assert w1.stream == rest;
      } else {
        PayloadPart(w1, m.payload, rest);
        var (p, w2) := Exact(w1, |m.payload|, []);
        assert w.stream == header + w1.stream;
        if p.TimedOut? {
          assert header + p.lost + w2.stream == header + (p.lost + w2.stream);
        } else if p.Waiting? {
          assert header + p.partial + w2.stream == header + (p.partial + w2.stream);
        }
      }
    }
  }

  // ---- The receive loop ----------------------------------------------------------------------------------

  /** The messages received, the octets dropped with each time-out, and what is left when the loop waits or ends. */
  datatype Log = Log(msgs: seq<Message>, losses: seq<seq<byte>>, partial: seq<byte>, rest: seq<byte>)

  lemma ReceiveProgress(w: Wire)
    ensures var (r, w') := Receive(w); r.Msg? || r.Nothing? || r.End? ==> |w'.events| < |w.events|
  {
    hide Exact;
    ExactLength(w, 4, []);
    var (h, w1) := Exact(w, 4, []);
    if h.Got? {
      var length := h.data[2] as int * 256 + h.data[3] as int;
      if length > 4 {
        ExactLength(w1, length - 4, []);
      }
    }
  }

  function Loop(w: Wire): Log
    decreases |w.events|
  {
    var (r, w') := Receive(w);
    ReceiveProgress(w);
    match r
    case Msg(m) => var log := Loop(w'); log.(msgs := [m] + log.msgs)
    case Nothing(lost) => var log := Loop(w'); log.(losses := [lost] + log.losses)
    case Blocked(partial) => Log([], [], partial, w'.stream)
    case End => Log([], [], [], w'.stream)
  }

  method RecvLoop(sock: Socket) returns (msgs: seq<Message>, ghost losses: seq<seq<byte>>)
    modifies sock
    ensures msgs == Loop(old(sock.wire)).msgs && losses == Loop(old(sock.wire)).losses
  {
    hide Receive;
    msgs, losses := [], [];
    while true
      invariant msgs + Loop(sock.wire).msgs == Loop(old(sock.wire)).msgs
      invariant losses + Loop(sock.wire).losses == Loop(old(sock.wire)).losses
      decreases |sock.wire.events|
    {
      ReceiveProgress(sock.wire);
      var r := sock.RecvMsg();
      match r
      case Msg(m) => msgs := msgs + [m];
      case Nothing(lost) => losses := losses + [lost];
      case Blocked(_) => return;
      case End => return;
    }
  }

  ghost predicate NothingLost(log: Log) {
    forall i :: 0 <= i < |log.losses| ==> log.losses[i] == []
  }

  /** As long as no time-out falls inside a message, the messages received are the first of those sent, and what has
      come of the next one and what is still to come are the others. */
  lemma {:induction false} InStepWithoutLoss(w: Wire, ms: seq<Message>) returns (j: nat)
    requires AllFit(ms) && w.stream == Frames(ms) && NothingLost(Loop(w))
    ensures var log := Loop(w);
            && j <= |ms| && log.msgs == ms[..j]
            && log.partial + log.rest == Frames(ms[j..])
            && (j < |ms| ==> |log.partial| < |Frame(ms[j])|)
    decreases |w.events|
  {
    hide Receive, Frame, Exact;
    var (r, w') := Receive(w);
    ReceiveProgress(w);
    j := 0;
    assert ms[0..] == ms;
    if ms == [] {
      ReceiveEmpty(w);
      if r.Nothing? {
        assert Loop(w).losses[0] == r.lost && Loop(w).losses[1..] == Loop(w').losses;
        j := InStepWithoutLoss(w', ms);
      }
    } else {
      ReceiveFrame(w, ms[0], Frames(ms[1..]));
      if r.Msg? {
        j := InStepWithoutLoss(w', ms[1..]);
        assert ms[1..][..j] == ms[1..j + 1] && ms[1..][j..] == ms[j + 1..];
        assert [ms[0]] + ms[1..j + 1] == ms[..j + 1];
        j := j + 1;
      } else if r.Nothing? {
        assert Loop(w).losses[0] == r.lost && Loop(w).losses[1..] == Loop(w').losses;
        assert [] + w'.stream == w'.stream;
        j := InStepWithoutLoss(w', ms);
      }
    }
  }

  lemma ReceiveEmpty(w: Wire)
    requires w.stream == []
    ensures var (r, w') := Receive(w);
            w'.stream == [] && (r == End || r == Nothing([]) || r == Blocked([]))
  {}

  // ---- When the loop stays in step ------------------------------------------------------------------------

  /** The octets of a list of messages. */
  function Weight(ms: seq<Message>): nat {
    if ms == [] then 0 else 4 + |ms[0].payload| + Weight(ms[1..])
  }

  function LossWeight(losses: seq<seq<byte>>): nat {
    if losses == [] then 0 else |losses[0]| + LossWeight(losses[1..])
  }

  /** What a receive takes off the stream is at least what it gives. */
  lemma ReceiveWeighs(w: Wire)
    ensures var (r, w') := Receive(w);
            match r
            case Msg(m) => |w.stream| == 4 + |m.payload| + |w'.stream|
            case Nothing(lost) => |w.stream| == |lost| + |w'.stream|
            case Blocked(partial) => |w.stream| == |partial| + |w'.stream|
            case End => |w.stream| >= |w'.stream|
  {
    hide Exact;
    ExactConserves(w, 4, []);
    ExactLength(w, 4, []);
    ExactShrinks(w, 4, []);
    var (h, w1) := Exact(w, 4, []);
    assert |[] + w.stream| == |w.stream|;
    if h.Got? {
      var length := h.data[2] as int * 256 + h.data[3] as int;
      if length > 4 {
        ExactConserves(w1, length - 4, []);
        ExactLength(w1, length - 4, []);
        ExactShrinks(w1, length - 4, []);
        assert |[] + w1.stream| == |w1.stream|;
      }
    }
  }

  lemma {:induction false} ExactShrinks(w: Wire, n: nat, buf: seq<byte>)
    requires |buf| <= n
    ensures |Exact(w, n, buf).1.stream| <= |w.stream|
    decreases |w.events|
  {
    hide Taken;
    if |buf| < n && w.events != [] && w.events[0].Gives? && w.stream != [] {
      var k := Taken(w.stream, w.events[0].atMost, n - |buf|);
      ExactShrinks(Wire(w.stream[k..], w.events[1..]), n, buf + w.stream[..k]);
    }
  }

  lemma {:induction false} LoopWeighs(w: Wire)
    ensures var log := Loop(w);
            |w.stream| >= Weight(log.msgs) + LossWeight(log.losses) + |log.partial| + |log.rest|
    decreases |w.events|
  {
    hide Receive;
    var (r, w') := Receive(w);
    ReceiveProgress(w);
    ReceiveWeighs(w);
    if r.Msg? {
      LoopWeighs(w');
      assert ([r.m] + Loop(w').msgs)[1..] == Loop(w').msgs;
    } else if r.Nothing? {
      LoopWeighs(w');
      assert ([r.lost] + Loop(w').losses)[1..] == Loop(w').losses;
    }
  }

  lemma {:induction false} NoLossWeight(losses: seq<seq<byte>>)
    ensures LossWeight(losses) == 0 <==> forall i :: 0 <= i < |losses| ==> losses[i] == []
  {
    if losses != [] {
      NoLossWeight(losses[1..]);
      assert forall i :: 0 < i < |losses| ==> losses[i] == losses[1..][i - 1];
      assert forall i :: 0 <= i < |losses| - 1 ==> losses[1..][i] == losses[i + 1];
    }
  }

  lemma {:induction false} FramesWeigh(ms: seq<Message>, j: nat)
    requires AllFit(ms) && j <= |ms|
    ensures |Frames(ms)| == Weight(ms[..j]) + |Frames(ms[j..])|
  {
    hide Frame;
    if j == 0 {
      assert ms[..0] == [] && ms[0..] == ms;
    } else {
      FramesWeigh(ms[1..], j - 1);
      FrameShape(ms[0]);
      assert ms[..j][1..] == ms[1..][..j - 1] && ms[j..] == ms[1..][j - 1..];
    }
  }

  /** The messages received are the first of those sent, and what has come of the next one and what is still to come are
      the others. */
  ghost predicate InStep(w: Wire, ms: seq<Message>)
    requires AllFit(ms)
  {
    exists j :: 0 <= j <= |ms| && Loop(w).msgs == ms[..j] && Loop(w).partial + Loop(w).rest == Frames(ms[j..])
  }

  lemma LossIff(w: Wire, ms: seq<Message>)
    requires AllFit(ms) && w.stream == Frames(ms)
    ensures InStep(w, ms) <==> NothingLost(Loop(w))
  {
    hide Loop, Frames, Weight, LossWeight;
    NoLossWeight(Loop(w).losses);
    if NothingLost(Loop(w)) {
      var j := InStepWithoutLoss(w, ms);
    }
    if InStep(w, ms) {
      var j :| 0 <= j <= |ms| && Loop(w).msgs == ms[..j] && Loop(w).partial + Loop(w).rest == Frames(ms[j..]);
      LoopWeighs(w);
      FramesWeigh(ms, j);
      assert |Loop(w).partial + Loop(w).rest| == |Loop(w).partial| + |Loop(w).rest|;
    }
  }

  /** The octets that the receiver asks for when so many of a message have come: of the header, then of the payload. */
  function Asks(m: Message, come: nat): nat
    requires come < 4 + |m.payload|
  {
    if come < 4 then 4 - come else 4 + |m.payload| - come
  }

  /** No call of recv times out while part of a message has come.  The messages are those sent, and so many octets of
      the first have come. */
  predicate TimeoutsBetween(ms: seq<Message>, come: nat, events: seq<Event>)
    requires ms == [] || come < 4 + |ms[0].payload|
    decreases |events|
  {
    if events == [] then true
    else if events[0].TimesOut? then come == 0 && TimeoutsBetween(ms, 0, events[1..])
    else if ms == [] then true
    else
      var more := come + Min(if events[0].atMost == 0 then 1 else events[0].atMost, Asks(ms[0], come));
      if more == 4 + |ms[0].payload| then TimeoutsBetween(ms[1..], 0, events[1..])
          else TimeoutsBetween(ms, more, events[1..])
  }

  /** The same, once so many octets have come as the receiver asked for. */
  predicate BetweenAfter(ms: seq<Message>, come: nat, events: seq<Event>)
    requires ms != [] && come <= 4 + |ms[0].payload|
  {
    if come == 4 + |ms[0].payload| then TimeoutsBetween(ms[1..], 0, events) else TimeoutsBetween(ms, come, events)
  }

  lemma {:induction false} ExactBetween(w: Wire, n: nat, buf: seq<byte>, ms: seq<Message>, come: nat)
    requires ms != [] && |buf| < n && |buf| <= come < 4 + |ms[0].payload|
        && Asks(ms[0], come) == n - |buf| <= |w.stream|
    ensures var (o, w') := Exact(w, n, buf);
            match o
            case Got(_) => TimeoutsBetween(ms, come, w.events) == BetweenAfter(ms, come + n - |buf|, w'.events)
            case TimedOut(lost) =>
              |lost| >= |buf|
              && (TimeoutsBetween(ms, come, w.events)
                 <==> come - |buf| + |lost| == 0 && TimeoutsBetween(ms, 0, w'.events))
            case Waiting(_) => TimeoutsBetween(ms, come, w.events)
            case Closed => false
    decreases |w.events|
  {
    if w.events != [] && w.events[0].Gives? {
      var k := Taken(w.stream, w.events[0].atMost, n - |buf|);
      var next := Wire(w.stream[k..], w.events[1..]);
      if k < n - |buf| {
        ExactBetween(next, n, buf + w.stream[..k], ms, come + k);
      } else {
        ExactGot(w, n, buf, k);
      }
    }
  }

  lemma ExactGot(w: Wire, n: nat, buf: seq<byte>, k: nat)
    requires |buf| < n && w.events != [] && w.events[0].Gives? && n - |buf| <= |w.stream|
    requires k == Taken(w.stream, w.events[0].atMost, n - |buf|) == n - |buf|
    ensures Exact(w, n, buf) == (Got(buf + w.stream[..k]), Wire(w.stream[k..], w.events[1..]))
  {
    var next := Wire(w.stream[k..], w.events[1..]);
    assert Exact(w, n, buf) == Exact(next, n, buf + w.stream[..k]);
  }

  lemma ReceiveBetween(w: Wire, ms: seq<Message>)
    requires AllFit(ms) && ms != [] && w.stream == Frames(ms)
    ensures var (r, w') := Receive(w);
            match r
            case Msg(m) => w'.stream == Frames(ms[1..])
                && TimeoutsBetween(ms, 0, w.events) == TimeoutsBetween(ms[1..], 0, w'.events)
            case Nothing(lost) =>
              (lost == [] ==> w'.stream == w.stream)
                  && (TimeoutsBetween(ms, 0, w.events) <==> lost == [] && TimeoutsBetween(ms, 0, w'.events))
            case Blocked(_) => TimeoutsBetween(ms, 0, w.events)
            case End => false
  {
    hide Exact, Frame, TimeoutsBetween;
    var m, rest := ms[0], Frames(ms[1..]);
    FrameShape(m);
    ReceiveFrame(w, m, rest);
    HeaderPart(w, m, rest);
    ExactBetween(w, 4, [], ms, 0);
    var (h, w1) := Exact(w, 4, []);
    if h.Got? {
      assert h.data[1] == Frame(m)[1] && h.data[2] == Frame(m)[2] && h.data[3] == Frame(m)[3];
      if m.payload != [] {
        PayloadPart(w1, m.payload, rest);
        ExactBetween(w1, |m.payload|, [], ms, 4);
      }
    }
  }

  lemma {:induction false} LossIsTimeout(w: Wire, ms: seq<Message>)
    requires AllFit(ms) && w.stream == Frames(ms)
    ensures NothingLost(Loop(w)) <==> TimeoutsBetween(ms, 0, w.events)
    decreases |w.events|
  {
    hide Receive, Frame, Exact;
    var (r, w') := Receive(w);
    ReceiveProgress(w);
    if ms == [] {
      ReceiveEmpty(w);
      EmptyBetween(w);
      if r.Nothing? {
        LossIsTimeout(w', ms);
        LossesCons(r.lost, Loop(w').losses);
      }
    } else {
      hide TimeoutsBetween;
      ReceiveBetween(w, ms);
      if r.Msg? {
        LossIsTimeout(w', ms[1..]);
      } else if r.Nothing? {
        LossesCons(r.lost, Loop(w').losses);
        if r.lost == [] {
          LossIsTimeout(w', ms);
        }
      }
    }
  }

  lemma LossesCons(lost: seq<byte>, losses: seq<seq<byte>>)
    ensures (forall i :: 0 <= i < |[lost] + losses| ==> ([lost] + losses)[i] == [])
       <==> lost == [] && forall i :: 0 <= i < |losses| ==> losses[i] == []
  {
    var all := [lost] + losses;
    if forall i :: 0 <= i < |all| ==> all[i] == [] {
      assert all[0] == [];
      forall i | 0 <= i < |losses| ensures losses[i] == [] {
        assert all[i + 1] == [];
      }
    }
  }

  lemma EmptyBetween(w: Wire)
    requires w.stream == []
    ensures var (r, w') := Receive(w);
            && (r.Nothing?
               ==> r.lost == [] && w'.stream == []
                    && TimeoutsBetween([], 0, w.events) == TimeoutsBetween([], 0, w'.events))
            && (!r.Nothing? ==> TimeoutsBetween([], 0, w.events))
  {}

  /** However a stream of messages is cut and delayed, the loop stays in step with what was sent exactly if no call of
      recv times out while part of a message has come. */
  lemma InStepIff(w: Wire, ms: seq<Message>)
    requires AllFit(ms) && w.stream == Frames(ms)
    ensures InStep(w, ms) <==> TimeoutsBetween(ms, 0, w.events)
  {
    LossIff(w, ms);
    LossIsTimeout(w, ms);
  }

  predicate NoTimeouts(events: seq<Event>) {
    forall i :: 0 <= i < |events| ==> events[i].Gives?
  }

  lemma {:induction false} ExactGets(w: Wire, n: nat, buf: seq<byte>)
    requires |buf| <= n && NoTimeouts(w.events) && |w.stream| >= n - |buf| && |w.events| >= n - |buf|
    ensures var (o, w') := Exact(w, n, buf);
            o.Got? && NoTimeouts(w'.events) && |w'.events| >= |w.events| - (n - |buf|)
                && |w'.stream| == |w.stream| - (n - |buf|)
    decreases |w.events|
  {
    if |buf| < n {
      var k := Taken(w.stream, w.events[0].atMost, n - |buf|);
      ExactGets(Wire(w.stream[k..], w.events[1..]), n, buf + w.stream[..k]);
    }
  }

  lemma ReceiveGets(w: Wire, m: Message, rest: seq<byte>)
    requires Fits(m) && w.stream == Frame(m) + rest && NoTimeouts(w.events) && |w.events| >= |Frame(m)|
    ensures var (r, w') := Receive(w);
            r == Msg(m) && w'.stream == rest && NoTimeouts(w'.events) && |w'.events| >= |w.events| - |Frame(m)|
  {
    hide Exact, Frame, NoTimeouts;
    FrameShape(m);
    ReceiveFrame(w, m, rest);
    ExactGets(w, 4, []);
    var (h, w1) := Exact(w, 4, []);
    ExactConserves(w, 4, []);
    ExactLength(w, 4, []);
    assert [] + w.stream == w.stream;
    var f := Frame(m);
    assert h.data == (h.data + w1.stream)[..4] == w.stream[..4] == f[..4];
    assert h.data[2] == f[2] && h.data[3] == f[3];
    if |m.payload| > 0 {
      ExactGets(w1, |m.payload|, []);
    }
  }

  /** However the stream of a sequence of messages is cut, it is received as those messages. */
  lemma {:induction false} MessagesRecovered(w: Wire, ms: seq<Message>)
    requires AllFit(ms) && w.stream == Frames(ms) && NoTimeouts(w.events) && |w.events| >= |w.stream|
    ensures Loop(w).msgs == ms && NothingLost(Loop(w))
    decreases |w.events|
  {
    hide Receive, Frame, Exact, NoTimeouts;
    var (r, w') := Receive(w);
    ReceiveProgress(w);
    if ms == [] {
      ReceiveEmpty(w);
      NoTimeoutsNothing(w);
    } else {
      ReceiveGets(w, ms[0], Frames(ms[1..]));
      MessagesRecovered(w', ms[1..]);
      assert [ms[0]] + ms[1..] == ms;
    }
  }

  lemma NoTimeoutsNothing(w: Wire)
    requires w.stream == [] && NoTimeouts(w.events)
    ensures !Receive(w).0.Nothing?
  {}

  lemma ExactAtOnce(w: Wire, n: nat)
    requires n > 0 && |w.stream| >= n && w.events != [] && w.events[0] == Gives(n)
    ensures Exact(w, n, []) == (Got(w.stream[..n]), Wire(w.stream[n..], w.events[1..]))
  {
    assert [] + w.stream[..n] == w.stream[..n];
  }

  lemma NoEvents(stream: seq<byte>)
    ensures Loop(Wire(stream, [])).msgs == []
  {}

  /** A time-out inside a message breaks this: the rest of the message is taken for a message that nobody sent. */
  lemma TimeoutForgesMessage() returns (w: Wire, sent: Message)
    ensures Fits(sent) && w.stream == Frames([sent])
    ensures Loop(w).msgs == [Message(7, [])] && sent != Message(7, [])
  {
    hide Exact, Loop;
    sent := Message(1, [0, 7, 0, 4]);
    var f := Frame(sent);
    assert f == [0, 1, 0, 8, 0, 7, 0, 4];
    assert [sent][1..] == [] && Frames([sent]) == f + [] == f;
    w := Wire(f, [Gives(4), TimesOut, Gives(4)]);
    var w2 := Wire(f[4..], [Gives(4)]);
    ExactAtOnce(w, 4);
    ExactTimesOut(Wire(f[4..], [TimesOut, Gives(4)]));
    assert w.events[1..] == [TimesOut, Gives(4)] && [TimesOut, Gives(4)][1..] == [Gives(4)] && [Gives(4)][1..] == [];
    assert Receive(w) == (Nothing(f[..4] + []), w2);
    ExactAtOnce(w2, 4);
    assert f[4..] == [0, 7, 0, 4] && f[4..][4..] == [] && f[4..][..4] == f[4..];
    assert Receive(w2) == (Msg(Message(7, [])), Wire([], []));
    LoopLossThenMessage(w, w2);
  }

  lemma ExactTimesOut(w: Wire)
    requires w.events != [] && w.events[0].TimesOut?
    ensures Exact(w, 4, []) == (TimedOut([]), Wire(w.stream, w.events[1..]))
  {}

  lemma LoopLossThenMessage(w: Wire, w2: Wire)
    requires Receive(w).0.Nothing? && Receive(w).1 == w2 && Receive(w2).0.Msg? && Receive(w2).1 == Wire([], [])
    ensures Loop(w).msgs == [Receive(w2).0.m]
  {
    hide Receive;
    NoEvents([]);
    assert Loop(w2).msgs == [Receive(w2).0.m] + Loop(Wire([], [])).msgs;
  }

  // ---- Writing outputs ---------------------------------------------------------------------------------

  /** An output signal, and the controller parameter and element it drives; names are keys. */
  datatype Output = Output(name: string, uri: string, idx: int)

  type Values = map<string, int>
  type Changes = map<int, (int, string)>   // element to value and signal

  predicate DistinctNames(outs: seq<Output>) {
    forall i, j :: 0 <= i < j < |outs| ==> outs[i].name != outs[j].name
  }

  /** No two signals drive the same element. */
  predicate DistinctTargets(outs: seq<Output>) {
    forall i, j :: 0 <= i < j < |outs| ==> (outs[i].uri, outs[i].idx) != (outs[j].uri, outs[j].idx)
  }

  function Sent(last: Values, name: string): int {
    if name in last then last[name] else -1
  }

  function ValueOf(values: Values, name: string): int {
    if name in values then values[name] else 0
  }

  predicate Dirty(o: Output, values: Values, last: Values) {
    ValueOf(values, o.name) != Sent(last, o.name)
  }

  /** The changed signals of one parameter; a later signal for the same element replaces an earlier one. */
  function ChangesFor(outs: seq<Output>, values: Values, last: Values, uri: string): Changes {
    if outs == [] then map[]
    else
      var o := outs[|outs| - 1];
      var before := ChangesFor(outs[..|outs| - 1], values, last, uri);
      if o.uri == uri && Dirty(o, values, last) then before[o.idx := (ValueOf(values, o.name), o.name)] else before
  }

  /** What becomes of a burst of writes: the elements that the controller changes, and whether it acknowledges them
      all. */
  datatype Burst = Burst(applied: set<int>, ok: bool)

  type Target = (string, int)

  /** What was sent last, and what the controller holds. */
  datatype Link = Link(last: Values, controller: map<Target, int>)

  function BurstFor(bursts: map<string, Burst>, uri: string): Burst {
    if uri in bursts then bursts[uri] else Burst({}, false)
  }

  /** An acknowledged burst has been applied. */
  ghost predicate Honest(outs: seq<Output>, values: Values, last: Values, bursts: map<string, Burst>) {
    forall uri :: BurstFor(bursts, uri).ok ==> ChangesFor(outs, values, last, uri).Keys <= BurstFor(bursts, uri).applied
  }

  /** The signal that records a change, if any does: the last changed one for its element. */
  predicate IsLastFor(outs: seq<Output>, values: Values, last: Values, i: nat)
    requires i < |outs|
  {
    Dirty(outs[i], values, last)
    && forall j :: i < j < |outs| && Dirty(outs[j], values, last)
         ==> (outs[j].uri, outs[j].idx) != (outs[i].uri, outs[i].idx)
  }

  lemma {:induction false} ChangesForIff(outs: seq<Output>, values: Values, last: Values, uri: string, idx: int)
    ensures var c := ChangesFor(outs, values, last, uri);
            && (idx in c
               <==> exists i :: 0 <= i < |outs| && outs[i].uri == uri && outs[i].idx == idx
                      && Dirty(outs[i], values, last))
            && (idx in c ==> exists i :: 0 <= i < |outs| && outs[i].uri == uri && outs[i].idx == idx
                               && IsLastFor(outs, values, last, i)
                                    && c[idx] == (ValueOf(values, outs[i].name), outs[i].name))
  {
    if outs != [] {
      var n := |outs| - 1;
      var front := outs[..n];
      ChangesForIff(front, values, last, uri, idx);
      var b := ChangesFor(front, values, last, uri);
      assert forall i :: 0 <= i < n ==> front[i] == outs[i];
      if outs[n].uri == uri && outs[n].idx == idx && Dirty(outs[n], values, last) {
        assert IsLastFor(outs, values, last, n);
      } else if idx in b {
        var i :| 0 <= i < n && front[i].uri == uri && front[i].idx == idx
                 && IsLastFor(front, values, last, i) && b[idx] == (ValueOf(values, front[i].name), front[i].name);
        assert IsLastFor(outs, values, last, i);
      }
    }
  }

  /** The effect of a round, stated for each signal and each element. */
  ghost predicate Round(outs: seq<Output>, values: Values, bursts: map<string, Burst>, s: Link, t: Link) {
    && (forall i :: 0 <= i < |outs| ==>
          Sent(t.last, outs[i].name)
          == if IsLastFor(outs, values, s.last, i) && BurstFor(bursts, outs[i].uri).ok
               then ValueOf(values, outs[i].name)
             else Sent(s.last, outs[i].name))
    && (forall k: Target :: k in t.controller <==> k in s.controller || Applies(outs, values, s.last, bursts, k))
    && (forall k: Target :: k in t.controller ==>
          t.controller[k] == if Applies(outs, values, s.last, bursts, k)
                               then ChangesFor(outs, values, s.last, k.0)[k.1].0 else s.controller[k])
  }

  predicate Applies(outs: seq<Output>, values: Values, last: Values, bursts: map<string, Burst>, k: Target) {
    k.1 in ChangesFor(outs, values, last, k.0) && k.1 in BurstFor(bursts, k.0).applied
  }

  // ---- Properties of a round ----------------------------------------------------------------------------

  /** Whatever was sent last is what the controller holds; -1 stands for nothing sent. */
  ghost predicate InSync(outs: seq<Output>, s: Link) {
    forall i :: 0 <= i < |outs| && Sent(s.last, outs[i].name) != -1
      ==> (outs[i].uri, outs[i].idx) in s.controller
           && s.controller[(outs[i].uri, outs[i].idx)] == Sent(s.last, outs[i].name)
  }

  /** With a signal to itself, every element is recorded with the others of its parameter, or none is. */
  lemma RecordedIff(outs: seq<Output>, values: Values, bursts: map<string, Burst>, s: Link, t: Link, i: nat)
    requires DistinctTargets(outs) && Round(outs, values, bursts, s, t)
    requires i < |outs| && Dirty(outs[i], values, s.last)
    ensures Sent(t.last, outs[i].name) == ValueOf(values, outs[i].name) <==> BurstFor(bursts, outs[i].uri).ok
  {}

  lemma OwnChange(outs: seq<Output>, values: Values, last: Values, i: nat)
    requires DistinctTargets(outs) && i < |outs|
    ensures var c := ChangesFor(outs, values, last, outs[i].uri);
            && (outs[i].idx in c <==> Dirty(outs[i], values, last))
            && (outs[i].idx in c ==> c[outs[i].idx] == (ValueOf(values, outs[i].name), outs[i].name))
  {
    ChangesForIff(outs, values, last, outs[i].uri, outs[i].idx);
  }

  /** A burst fails for a signal that was sent before, but is applied to it all the same. */
  predicate Betrayed(outs: seq<Output>, values: Values, last: Values, bursts: map<string, Burst>, i: nat)
    requires i < |outs|
  {
    && Dirty(outs[i], values, last) && Sent(last, outs[i].name) != -1
    && !BurstFor(bursts, outs[i].uri).ok && outs[i].idx in BurstFor(bursts, outs[i].uri).applied
  }

  /** A round keeps the record in step with the controller exactly if no failed burst is applied to a signal sent
      before. */
  lemma InSyncIff(outs: seq<Output>, values: Values, bursts: map<string, Burst>, s: Link, t: Link)
    requires DistinctTargets(outs) && Honest(outs, values, s.last, bursts)
    requires Round(outs, values, bursts, s, t) && InSync(outs, s)
    ensures InSync(outs, t) <==> forall i :: 0 <= i < |outs| ==> !Betrayed(outs, values, s.last, bursts, i)
  {
    hide ChangesFor;
    forall i | 0 <= i < |outs|
      ensures (Sent(t.last, outs[i].name) != -1
               ==> (outs[i].uri, outs[i].idx) in t.controller
                    && t.controller[(outs[i].uri, outs[i].idx)] == Sent(t.last, outs[i].name))
         <==> !Betrayed(outs, values, s.last, bursts, i)
    {
      OneInSyncIff(outs, values, bursts, s, t, i);
    }
  }

  lemma OneInSyncIff(outs: seq<Output>, values: Values, bursts: map<string, Burst>, s: Link, t: Link, i: nat)
    requires DistinctTargets(outs) && Honest(outs, values, s.last, bursts) && i < |outs|
    requires Round(outs, values, bursts, s, t) && InSync(outs, s)
    ensures (Sent(t.last, outs[i].name) != -1
             ==> (outs[i].uri, outs[i].idx) in t.controller
                  && t.controller[(outs[i].uri, outs[i].idx)] == Sent(t.last, outs[i].name))
       <==> !Betrayed(outs, values, s.last, bursts, i)
  {
    hide ChangesFor;
    OwnChange(outs, values, s.last, i);
    var k: Target := (outs[i].uri, outs[i].idx);
    assert Applies(outs, values, s.last, bursts, k)
      <==> k.1 in ChangesFor(outs, values, s.last, k.0) && k.1 in BurstFor(bursts, k.0).applied;
    if Dirty(outs[i], values, s.last) {
      assert IsLastFor(outs, values, s.last, i);
    }
  }

  /** After such a failure, once the signal is back at the value that was sent, nothing more is sent, and the controller
      keeps the wrong value. */
  lemma StaleForGood(outs: seq<Output>, values: Values, bursts: map<string, Burst>, s: Link, t: Link, i: nat,
        back: Values)
    requires DistinctTargets(outs) && Round(outs, values, bursts, s, t) && i < |outs|
        && Betrayed(outs, values, s.last, bursts, i)
    requires ValueOf(back, outs[i].name) == Sent(s.last, outs[i].name)
    ensures !Dirty(outs[i], back, t.last)
    ensures var k := (outs[i].uri, outs[i].idx); k in t.controller && t.controller[k] != ValueOf(back, outs[i].name)
  {
    hide ChangesFor;
    OwnChange(outs, values, s.last, i);
    var k: Target := (outs[i].uri, outs[i].idx);
    assert Applies(outs, values, s.last, bursts, k);
  }

  // ---- The values read ----------------------------------------------------------------------------------

  /** The value an output is sent as differs from what was sent last; -1 stands for nothing. */
  predicate Differs(o: Output, values: Values, last: Values) {
    (if o.name in values then values[o.name] else 0) != (if o.name in last then last[o.name] else -1)
  }

  /** What a controller acknowledges it has applied, for every output whose value differs. */
  ghost predicate Truthful(outs: seq<Output>, values: Values, last: Values, bursts: map<string, Burst>) {
    forall i :: 0 <= i < |outs| && Differs(outs[i], values, last) && outs[i].uri in bursts && bursts[outs[i].uri].ok
      ==> outs[i].idx in bursts[outs[i].uri].applied
  }

  /** The controller holds that value for the output. */
  predicate Holds(o: Output, s: Link, value: int) {
    (o.uri, o.idx) in s.controller && s.controller[(o.uri, o.idx)] == value
  }

  lemma TruthfulIsHonest(outs: seq<Output>, values: Values, last: Values, bursts: map<string, Burst>)
    requires Truthful(outs, values, last, bursts)
    ensures Honest(outs, values, last, bursts)
  {
    hide ChangesFor;
    forall uri, idx | BurstFor(bursts, uri).ok && idx in ChangesFor(outs, values, last, uri)
      ensures idx in BurstFor(bursts, uri).applied
    {
      ChangesForIff(outs, values, last, uri, idx);
    }
  }

  /** After a round the record of an output is the value read exactly if it was before, or the burst of its parameter
      was acknowledged; otherwise it is what it was. */
  lemma RoundRecordsIff(outs: seq<Output>, values: Values, bursts: map<string, Burst>, s: Link, t: Link, i: nat)
    requires DistinctTargets(outs) && Round(outs, values, bursts, s, t) && i < |outs|
    ensures !Differs(outs[i], values, t.last)
       <==> !Differs(outs[i], values, s.last) || (outs[i].uri in bursts && bursts[outs[i].uri].ok)
    ensures Differs(outs[i], values, t.last) ==> Sent(t.last, outs[i].name) == Sent(s.last, outs[i].name)
  {}

  /** An output that was in step holds the value read after a round whose bursts are all acknowledged, except for the
      value -1 where nothing was sent before: that is never sent. */
  lemma AcknowledgedRoundShows(outs: seq<Output>, values: Values, bursts: map<string, Burst>, s: Link, t: Link, i: nat)
    requires DistinctTargets(outs) && Round(outs, values, bursts, s, t) && InSync(outs, s) && i < |outs|
    requires Truthful(outs, values, s.last, bursts)
    requires outs[i].uri in bursts && bursts[outs[i].uri].ok
    ensures var value := if outs[i].name in values then values[outs[i].name] else 0;
            if value == -1 && Sent(s.last, outs[i].name) == -1
            then (forall v :: Holds(outs[i], t, v) <==> Holds(outs[i], s, v))
            else Holds(outs[i], t, value)
  {
    hide ChangesFor;
    TruthfulIsHonest(outs, values, s.last, bursts);
    OwnChange(outs, values, s.last, i);
    var k: Target := (outs[i].uri, outs[i].idx);
    assert Applies(outs, values, s.last, bursts, k)
      <==> k.1 in ChangesFor(outs, values, s.last, k.0) && k.1 in BurstFor(bursts, k.0).applied;
  }

  // ---- The sender ---------------------------------------------------------------------------------------

  /** A signal is among the recorded ones of a parameter exactly if it is the last changed one for its element. */
  lemma RecordsIff(outs: seq<Output>, values: Values, last: Values, uri: string, i: nat)
    requires DistinctNames(outs) && i < |outs|
    ensures var c := ChangesFor(outs, values, last, uri);
            && ((exists idx :: idx in c && c[idx].1 == outs[i].name)
               <==> outs[i].uri == uri && IsLastFor(outs, values, last, i))
            && (forall idx :: idx in c && c[idx].1 == outs[i].name ==> c[idx].0 == ValueOf(values, outs[i].name))
  {
    var c := ChangesFor(outs, values, last, uri);
    hide ChangesFor, IsLastFor;
    forall idx | idx in c && c[idx].1 == outs[i].name
      ensures outs[i].uri == uri && IsLastFor(outs, values, last, i) && c[idx].0 == ValueOf(values, outs[i].name)
    {
      ChangesForIff(outs, values, last, uri, idx);
      var j :| 0 <= j < |outs| && outs[j].uri == uri && outs[j].idx == idx
               && IsLastFor(outs, values, last, j) && c[idx] == (ValueOf(values, outs[j].name), outs[j].name);
      assert i == j;
    }
    if outs[i].uri == uri && IsLastFor(outs, values, last, i) {
      LastIsIn(outs, values, last, i);
    }
  }

  lemma LastIsIn(outs: seq<Output>, values: Values, last: Values, i: nat)
    requires i < |outs| && IsLastFor(outs, values, last, i)
    ensures var c := ChangesFor(outs, values, last, outs[i].uri);
            outs[i].idx in c && c[outs[i].idx].1 == outs[i].name
  {
    hide ChangesFor;
    ChangesForIff(outs, values, last, outs[i].uri, outs[i].idx);
    var c := ChangesFor(outs, values, last, outs[i].uri);
    var j :| 0 <= j < |outs| && outs[j].uri == outs[i].uri && outs[j].idx == outs[i].idx
             && IsLastFor(outs, values, last, j) && c[outs[i].idx] == (ValueOf(values, outs[j].name), outs[j].name);
    assert i == j;
  }

  /** No signal stands for two elements. */
  predicate OneSignalEach(c: Changes) {
    forall a, b :: a in c && b in c && c[a].1 == c[b].1 ==> a == b
  }

  class Sender {
    const outputs: seq<Output>
    var last: Values
    var controller: map<Target, int>

    ghost function State(): Link
      reads this
    {
      Link(last, controller)
    }

    constructor (outputs: seq<Output>, controller: map<Target, int>)
      ensures this.outputs == outputs && this.controller == controller
      ensures InSync(outputs, State())
    {
      this.outputs, this.controller := outputs, controller;
      last := map[];
    }

    /** On a new connection everything counts as not sent. */
    method Connect()
      modifies `last
      ensures InSync(outputs, State())
      ensures forall i :: 0 <= i < |outputs| ==> Sent(last, outputs[i].name) == -1
    {
      last := map n | n in last :: -1;
    }

    method CollectDirty(values: Values) returns (uris: seq<string>, dirty: map<string, Changes>)
      ensures forall uri :: uri in uris <==> ChangesFor(outputs, values, last, uri) != map[]
      ensures forall uri :: uri in dirty <==> uri in uris
      ensures forall uri :: uri in dirty ==> dirty[uri] == ChangesFor(outputs, values, last, uri)
      ensures forall i, j :: 0 <= i < j < |uris| ==> uris[i] != uris[j]
    {
      uris, dirty := [], map[];
      for i := 0 to |outputs|
        invariant forall uri :: uri in uris <==> ChangesFor(outputs[..i], values, last, uri) != map[]
        invariant forall uri :: uri in dirty <==> uri in uris
        invariant forall uri :: uri in dirty ==> dirty[uri] == ChangesFor(outputs[..i], values, last, uri)
        invariant forall k, j :: 0 <= k < j < |uris| ==> uris[k] != uris[j]
      {
        var o := outputs[i];
        assert outputs[..i + 1][..i] == outputs[..i];
        var val := ValueOf(values, o.name);
        if val != Sent(last, o.name) {
          if o.uri !in dirty {
            uris, dirty := uris + [o.uri], dirty[o.uri := map[]];
          }
          dirty := dirty[o.uri := dirty[o.uri][o.idx := (val, o.name)]];
          assert o.idx in ChangesFor(outputs[..i + 1], values, last, o.uri);
        }
      }
      assert outputs[..|outputs|] == outputs;
    }

    method Record(changes: Changes)
      requires OneSignalEach(changes)
      modifies `last
      ensures forall idx :: idx in changes ==> Sent(last, changes[idx].1) == changes[idx].0
      ensures forall n :: (forall idx :: idx in changes ==> changes[idx].1 != n) ==> Sent(last, n) == Sent(old(last), n)
    {
      var todo := changes.Items;
      while todo != {}
        invariant todo <= changes.Items
        invariant forall idx :: idx in changes && (idx, changes[idx]) !in todo
                    ==> Sent(last, changes[idx].1) == changes[idx].0
        invariant forall n :: (forall idx :: idx in changes ==> changes[idx].1 != n)
                    ==> Sent(last, n) == Sent(old(last), n)
        decreases |todo|
      {
        var item :| item in todo;
        assert item.0 in changes && changes[item.0] == item.1;
        ghost var before := last;
        last := last[item.1.1 := item.1.0];
        todo := todo - {item};
        assert forall n :: Sent(last, n) == if n == item.1.1 then item.1.0 else Sent(before, n);
        assert forall idx :: idx in changes && idx != item.0 ==> changes[idx].1 != changes[item.0].1;
      }
    }

    /** The burst of one parameter. */
    method SendBurst(uri: string, changes: Changes, burst: Burst)
      requires OneSignalEach(changes)
      modifies this
      ensures BurstEffect(uri, changes, burst, old(State()), State())
    {
      hide Controlled;
      ControlledEffect(controller, uri, changes, burst.applied);
      controller := Controlled(controller, uri, changes, burst.applied);
      if burst.ok {
        Record(changes);
      }
    }

    /** One pass of the send loop; the bursts say what the controller makes of the writes. */
    method SendRound(values: Values, bursts: map<string, Burst>)
      requires DistinctNames(outputs)
      modifies this
      ensures Round(outputs, values, bursts, old(State()), State())
    {
      hide ChangesFor, PartRound, BurstEffect;
      ghost var before := State();
      var uris, dirty := CollectDirty(values);
      NoneSent(outputs, values, bursts, before);
      for i := 0 to |uris|
        invariant PartRound(outputs, values, bursts, before, State(), uris[..i])
      {
        var uri := uris[i];
        assert uri in uris && uri in dirty;
        ghost var changes := ChangesFor(outputs, values, before.last, uri);
        assert dirty[uri] == changes;
        ChangesAreOneEach(outputs, values, before.last, uri);
        ghost var mid := State();
        SendBurst(uri, dirty[uri], BurstFor(bursts, uri));
        PartStep(outputs, values, bursts, before, mid, State(), uris[..i], uri);
        assert uris[..i + 1] == uris[..i] + [uri];
      }
      assert uris[..|uris|] == uris;
      AllSent(outputs, values, bursts, before, State(), uris);
    }
  }

  /** What the controller holds after it has applied some of the changes. */
  function Controlled(controller: map<Target, int>, uri: string, changes: Changes,
        applied: set<int>): map<Target, int> {
    controller + map idx | idx in changes && idx in applied :: (uri, idx) := changes[idx].0
  }

  lemma ControlledEffect(controller: map<Target, int>, uri: string, changes: Changes, applied: set<int>)
    ensures var after := Controlled(controller, uri, changes, applied);
            && (forall k: Target :: k in after <==> k in controller || (k.0 == uri && k.1 in changes && k.1 in applied))
            && (forall k: Target :: k in after ==>
                  after[k] == if k.0 == uri && k.1 in changes && k.1 in applied then changes[k.1].0 else controller[k])
  {
    var written := map idx | idx in changes && idx in applied :: (uri, idx) := changes[idx].0;
    forall k: Target
      ensures k in written <==> k.0 == uri && k.1 in changes && k.1 in applied
      ensures k in written ==> written[k] == changes[k.1].0
    {
      if k.0 == uri && k.1 in changes && k.1 in applied {
        assert (uri, k.1) == k;
      }
    }
    assert Controlled(controller, uri, changes, applied) == controller + written;
  }

  ghost predicate BurstEffect(uri: string, changes: Changes, burst: Burst, s: Link, t: Link) {
    && (forall idx :: idx in changes
          ==> Sent(t.last, changes[idx].1) == if burst.ok then changes[idx].0 else Sent(s.last, changes[idx].1))
    && (forall n :: (forall idx :: idx in changes ==> changes[idx].1 != n) ==> Sent(t.last, n) == Sent(s.last, n))
    && (forall k: Target :: k in t.controller
          <==> k in s.controller || (k.0 == uri && k.1 in changes && k.1 in burst.applied))
    && (forall k: Target :: k in t.controller ==>
          t.controller[k] == if k.0 == uri && k.1 in changes && k.1 in burst.applied then changes[k.1].0
                               else s.controller[k])
  }

  /** The effect of a round once some parameters are done. */
  ghost predicate PartRound(outs: seq<Output>, values: Values, bursts: map<string, Burst>, s: Link, t: Link,
        done: seq<string>) {
    && (forall i :: 0 <= i < |outs| ==>
          Sent(t.last, outs[i].name)
          == if IsLastFor(outs, values, s.last, i) && BurstFor(bursts, outs[i].uri).ok && outs[i].uri in done
             then ValueOf(values, outs[i].name) else Sent(s.last, outs[i].name))
    && (forall k: Target :: k in t.controller
          <==> k in s.controller || (k.0 in done && Applies(outs, values, s.last, bursts, k)))
    && (forall k: Target :: k in t.controller ==>
          t.controller[k] == if k.0 in done && Applies(outs, values, s.last, bursts, k)
                             then ChangesFor(outs, values, s.last, k.0)[k.1].0 else s.controller[k])
  }

  lemma NoneSent(outs: seq<Output>, values: Values, bursts: map<string, Burst>, s: Link)
    ensures PartRound(outs, values, bursts, s, s, [])
  {}

  lemma RecordedAfter(outs: seq<Output>, values: Values, bursts: map<string, Burst>, s: Link, r: Link, t: Link,
        done: seq<string>, uri: string, i: nat)
    requires DistinctNames(outs) && PartRound(outs, values, bursts, s, r, done) && i < |outs|
    requires BurstEffect(uri, ChangesFor(outs, values, s.last, uri), BurstFor(bursts, uri), r, t)
    ensures Sent(t.last, outs[i].name)
            == if IsLastFor(outs, values, s.last, i) && BurstFor(bursts, outs[i].uri).ok && outs[i].uri in done + [uri]
               then ValueOf(values, outs[i].name) else Sent(s.last, outs[i].name)
  {
    hide ChangesFor, IsLastFor, DistinctNames, ValueOf, Sent, BurstFor, Applies;
    var c := ChangesFor(outs, values, s.last, uri);
    RecordsIff(outs, values, s.last, uri, i);
    if exists idx :: idx in c && c[idx].1 == outs[i].name {
      var idx :| idx in c && c[idx].1 == outs[i].name;
      assert c[idx].0 == ValueOf(values, outs[i].name);
    }
  }

  lemma PartStep(outs: seq<Output>, values: Values, bursts: map<string, Burst>, s: Link, r: Link, t: Link,
        done: seq<string>, uri: string)
    requires DistinctNames(outs) && PartRound(outs, values, bursts, s, r, done)
    requires BurstEffect(uri, ChangesFor(outs, values, s.last, uri), BurstFor(bursts, uri), r, t)
    ensures PartRound(outs, values, bursts, s, t, done + [uri])
  {
    hide ChangesFor, IsLastFor, DistinctNames, ValueOf, Sent, BurstFor;
    forall i | 0 <= i < |outs|
      ensures Sent(t.last, outs[i].name)
              == if IsLastFor(outs, values, s.last, i) && BurstFor(bursts, outs[i].uri).ok
                   && outs[i].uri in done + [uri]
                 then ValueOf(values, outs[i].name) else Sent(s.last, outs[i].name)
    {
      RecordedAfter(outs, values, bursts, s, r, t, done, uri, i);
    }
  }

  lemma AllSent(outs: seq<Output>, values: Values, bursts: map<string, Burst>, s: Link, t: Link, uris: seq<string>)
    requires PartRound(outs, values, bursts, s, t, uris)
    requires forall uri :: uri in uris <==> ChangesFor(outs, values, s.last, uri) != map[]
    ensures Round(outs, values, bursts, s, t)
  {
    hide ChangesFor;
    forall i | 0 <= i < |outs| && IsLastFor(outs, values, s.last, i) ensures outs[i].uri in uris {
      LastIsIn(outs, values, s.last, i);
    }
  }

  lemma ChangesAreOneEach(outs: seq<Output>, values: Values, last: Values, uri: string)
    requires DistinctNames(outs)
    ensures OneSignalEach(ChangesFor(outs, values, last, uri))
  {
    hide ChangesFor, IsLastFor;
    var c := ChangesFor(outs, values, last, uri);
    forall a, b | a in c && b in c && c[a].1 == c[b].1 ensures a == b {
      ChangesForIff(outs, values, last, uri, a);
      ChangesForIff(outs, values, last, uri, b);
      var i :| 0 <= i < |outs| && outs[i].uri == uri && outs[i].idx == a
          && c[a] == (ValueOf(values, outs[i].name), outs[i].name);
      var j :| 0 <= j < |outs| && outs[j].uri == uri && outs[j].idx == b
          && c[b] == (ValueOf(values, outs[j].name), outs[j].name);
      assert i == j;
    }
  }
}
