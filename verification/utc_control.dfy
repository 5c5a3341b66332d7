/**
  The UTC outstation: operation mode, control fields and watchdog, as a state machine.

  The safety result is SafeIff: below mode 3 everything the service has written is off, in every run,
  exactly when every signal it can leave on is on its list of owned signals; LoadedIsCovered shows that the
  configuration loader provides for that.  JitterFreeIff and DemotionBreaks settle when the
  clock-jitter check drops an outstation whose clock never jumped.
 */
module UtcControl {
  import opened Bytes
  import opened MaskWrite

  // ---- Configuration -------------------------------------------------------------------------

  datatype ControlField =
    | DX | Dn | Fn | SFn | PV | PX | SO | SG | LO | LL | TS | FM | TO | HI | CP | EP | GO | FF | MO

  predicate IsBitmask(f: ControlField) {
    f == Fn || f == Dn || f == SFn
  }

  type Key = (string, ControlField)   // SCN and field
  type Control = map<Key, Bits>

  /** One utcControl line of the configuration; the bit is 0 when the line gives none. */
  datatype Setting = Setting(scn: string, field: ControlField, bit: nat, sig: string)

  /** A later line for the same bit replaces the signal, in place. */
  function Put(bits: Bits, bit: nat, sig: string): Bits {
    if bits == [] then [(bit, sig)]
    else if bits[0].0 == bit then [(bit, sig)] + bits[1..]
    else [bits[0]] + Put(bits[1..], bit, sig)
  }

  function AddSignal(signals: seq<string>, sig: string): seq<string> {
    if sig in signals then signals else signals + [sig]
  }

  function Entries(control: Control, key: Key): Bits {
    if key in control then control[key] else []
  }

  function LoadedControl(settings: seq<Setting>): Control {
    if settings == [] then map[]
    else
      var last := settings[|settings| - 1];
      var before := LoadedControl(settings[..|settings| - 1]);
      before[(last.scn, last.field) := Put(Entries(before, (last.scn, last.field)), last.bit, last.sig)]
  }

  function LoadedSignals(settings: seq<Setting>): seq<string> {
    if settings == [] then []
    else AddSignal(LoadedSignals(settings[..|settings| - 1]), settings[|settings| - 1].sig)
  }

  lemma {:induction false} PutAt(bits: Bits, bit: nat, sig: string, i: nat)
    requires i <= |bits| && forall k :: 0 <= k < i ==> bits[k].0 != bit
    requires i < |bits| ==> bits[i].0 == bit
    ensures Put(bits, bit, sig) == if i < |bits| then bits[i := (bit, sig)] else bits + [(bit, sig)]
  {
    if i > 0 {
      PutAt(bits[1..], bit, sig, i - 1);
    }
  }

  method PutBit(bits: Bits, bit: nat, sig: string) returns (r: Bits)
    ensures r == Put(bits, bit, sig)
  {
    for i := 0 to |bits|
      invariant forall k :: 0 <= k < i ==> bits[k].0 != bit
    {
      if bits[i].0 == bit {
        PutAt(bits, bit, sig, i);
        return bits[i := (bit, sig)];
      }
    }
    PutAt(bits, bit, sig, |bits|);
    r := bits + [(bit, sig)];
  }

  method LoadControl(settings: seq<Setting>) returns (control: Control, signals: seq<string>)
    ensures control == LoadedControl(settings)
    ensures signals == LoadedSignals(settings)
  {
    hide Put;
    control, signals := map[], [];
    for i := 0 to |settings|
      invariant control == LoadedControl(settings[..i]) && signals == LoadedSignals(settings[..i])
    {
      var s := settings[i];
      assert settings[..i + 1][..i] == settings[..i];
      var key := (s.scn, s.field);
      var bits := PutBit(if key in control then control[key] else [], s.bit, s.sig);
      control := control[key := bits];
      if s.sig !in signals {
        signals := signals + [s.sig];
      }
    }
    assert settings[..|settings|] == settings;
  }

  predicate Names(s: Setting, key: Key, bit: nat) {
    s.scn == key.0 && s.field == key.1 && s.bit == bit
  }

  /** The signal that the last line for a bit names. */
  ghost predicate LastNamed(settings: seq<Setting>, key: Key, bit: nat, sig: string) {
    exists i :: 0 <= i < |settings| && Names(settings[i], key, bit) && settings[i].sig == sig
      && forall j :: i < j < |settings| ==> !Names(settings[j], key, bit)
  }

  predicate UniqueBits(bits: Bits) {
    forall i, j :: 0 <= i < j < |bits| ==> bits[i].0 != bits[j].0
  }

  lemma {:induction false} PutEntries(bits: Bits, bit: nat, sig: string)
    requires UniqueBits(bits)
    ensures UniqueBits(Put(bits, bit, sig))
    ensures forall e :: e in Put(bits, bit, sig) <==> e == (bit, sig) || (e in bits && e.0 != bit)
  {
    if bits != [] && bits[0].0 != bit {
      PutEntries(bits[1..], bit, sig);
      forall e ensures e in Put(bits, bit, sig) <==> e == (bit, sig) || (e in bits && e.0 != bit) {
        assert e in bits <==> e == bits[0] || e in bits[1..];
      }
    }
  }

  lemma LastNamedStep(settings: seq<Setting>, key: Key, bit: nat, sig: string)
    requires settings != []
    ensures LastNamed(settings, key, bit, sig)
       <==> if Names(settings[|settings| - 1], key, bit) then settings[|settings| - 1].sig == sig
            else LastNamed(settings[..|settings| - 1], key, bit, sig)
  {
    var n := |settings| - 1;
    if Names(settings[n], key, bit) {
      if settings[n].sig == sig {
        assert LastNamed(settings, key, bit, sig);
      }
    } else {
      assert forall i :: 0 <= i < n ==> settings[..n][i] == settings[i];
      if LastNamed(settings[..n], key, bit, sig) {
        var i :| 0 <= i < n && Names(settings[..n][i], key, bit) && settings[..n][i].sig == sig
          && forall j :: i < j < n ==> !Names(settings[..n][j], key, bit);
        assert forall j :: i < j < |settings| ==> !Names(settings[j], key, bit);
        assert LastNamed(settings, key, bit, sig);
      }
      if LastNamed(settings, key, bit, sig) {
        var i :| 0 <= i < |settings| && Names(settings[i], key, bit) && settings[i].sig == sig
          && forall j :: i < j < |settings| ==> !Names(settings[j], key, bit);
        assert Names(settings[..n][i], key, bit);
        assert LastNamed(settings[..n], key, bit, sig);
      }
    }
  }

  /** Each bit of a loaded field stands for the signal its last line names. */
  lemma {:induction false} LoadedIsLastNamed(settings: seq<Setting>, key: Key)
    ensures UniqueBits(Entries(LoadedControl(settings), key))
    ensures forall bit: nat, sig :: (bit, sig) in Entries(LoadedControl(settings), key)
              <==> LastNamed(settings, key, bit, sig)
  {
    hide Put, UniqueBits, LastNamed;
    if settings == [] {
      NothingNamed(key);
    } else {
      var n := |settings| - 1;
      var last := settings[n];
      var before := Entries(LoadedControl(settings[..n]), key);
      LoadedIsLastNamed(settings[..n], key);
      if key == (last.scn, last.field) {
        PutEntries(before, last.bit, last.sig);
      }
      forall bit: nat, sig ensures (bit, sig) in Entries(LoadedControl(settings), key)
          <==> LastNamed(settings, key, bit, sig) {
        LastNamedStep(settings, key, bit, sig);
      }
    }
  }

  lemma NothingNamed(key: Key)
    ensures UniqueBits([])
    ensures forall bit: nat, sig :: !LastNamed([], key, bit, sig)
  {}

  datatype Config = Config(control: Control, signals: seq<string>, jitterCheck: bool, grace: int)

  /** Every bit of a bitmask has a number, and every field has a signal. */
  predicate WellFormed(c: Config) {
    forall key :: key in c.control ==> c.control[key] != [] && (IsBitmask(key.1) ==> Numbered(c.control[key]))
  }

  /** The signals that a control SET can leave on: of a bitmask, those whose bits are all in its octet, for the others
      are cleared by every SET; of any other field, the first. */
  predicate Writable(c: Config, sig: string) {
    exists key :: key in c.control && WritableBy(key.1, c.control[key], sig)
  }

  predicate WritableBy(f: ControlField, bits: Bits, sig: string) {
    exists i :: 0 <= i < |bits| && bits[i].1 == sig && if IsBitmask(f) then InOctet(bits, sig) else i == 0
  }

  predicate InOctet(bits: Bits, sig: string) {
    forall j :: 0 <= j < |bits| && bits[j].1 == sig ==> bits[j].0 <= 8
  }

  ghost predicate Covered(c: Config) {
    forall sig :: Writable(c, sig) ==> sig in c.signals
  }

  lemma {:induction false} SignalsNamed(settings: seq<Setting>, i: nat)
    requires i < |settings|
    ensures settings[i].sig in LoadedSignals(settings)
  {
    var n := |settings| - 1;
    if i < n {
      SignalsNamed(settings[..n], i);
    }
  }

  /** What the loader reads is covered, whatever lines replace others. */
  lemma LoadedIsCovered(settings: seq<Setting>, jitterCheck: bool, grace: int)
    ensures Covered(Config(LoadedControl(settings), LoadedSignals(settings), jitterCheck, grace))
  {
    hide LoadedControl, LoadedSignals;
    var c := Config(LoadedControl(settings), LoadedSignals(settings), jitterCheck, grace);
    forall sig | Writable(c, sig) ensures sig in c.signals {
      var key :| key in c.control && WritableBy(key.1, c.control[key], sig);
      var i :| 0 <= i < |c.control[key]| && c.control[key][i].1 == sig;
      var bit := c.control[key][i].0;
      LoadedIsLastNamed(settings, key);
      assert (bit, sig) in Entries(LoadedControl(settings), key);
      assert LastNamed(settings, key, bit, sig);
      var j :| 0 <= j < |settings| && Names(settings[j], key, bit) && settings[j].sig == sig;
      SignalsNamed(settings, j);
    }
  }

  // ---- State and operations; times are in milliseconds -----------------------------------------

  const NOTIFY_QUEUE_LIMIT := 10
  const CLOCK_JITTER_ALLOWED := 10_000
  const WATCHDOG_PERIOD := 5_000
  const LATE_TIMESTAMP_LIMIT := 30_000
  const FUTURE_TIMESTAMP_LIMIT := 10_000
  const DAY := 86_400_000

  datatype State = State(
    opMode: int,
    lastSet: int,
    opmode2: Option<int>,   // when mode 2 was entered, for the grace period of the jitter check
    lastClock: int,
    timeout: int,           // seconds; 0 for none
    depth: int,             // the notification backlog
    bus: Bus)               // the last values this service wrote

  function Init(now: int, timeout: int): State {
    State(1, 0, None, now, timeout, 0, map[])
  }

  function Zeros(signals: seq<string>): seq<BusWrite> {
    seq(|signals|, i requires 0 <= i < |signals| => BusWrite(signals[i], 0))
  }

  function SetOpMode(c: Config, s: State, mode: int, now: int): State {
    if mode < 1 || mode > 3 || mode > s.opMode + 1 then s
    else s.(opMode := mode, lastSet := now,
            bus := if mode < 3 then Apply(s.bus, Zeros(c.signals)) else s.bus,
            opmode2 := if mode >= 2 && s.opmode2.None? then Some(now) else s.opmode2)
  }

  /** The time stamp of a control SET is in seconds since midnight; 0 and 1 stand for none. */
  predicate ValidTimestamp(stamp: int, now: int) {
    stamp == 0 || stamp == 1 || -FUTURE_TIMESTAMP_LIMIT <= now % DAY - stamp * 1000 <= LATE_TIMESTAMP_LIMIT
  }

  function MaskOf(octets: seq<byte>): int {
    if octets == [] then 0 else octets[0]
  }

  function SetMaskField(c: Config, s: State, key: Key, octets: seq<byte>, stamp: int, now: int): State
    requires WellFormed(c) && key in c.control && IsBitmask(key.1)
  {
    if !ValidTimestamp(stamp, now) then s
    else s.(bus := Apply(s.bus, MaskWrites(c.control[key], if s.opMode >= 3 then MaskOf(octets) else 0)))
  }

  function SetSingleField(c: Config, s: State, key: Key, value: int, stamp: int, now: int): State
    requires WellFormed(c) && key in c.control && !IsBitmask(key.1)
  {
    if !ValidTimestamp(stamp, now) then s
    else s.(bus := s.bus[c.control[key][0].1 := if s.opMode >= 3 then value else 0])
  }

  function Drop(c: Config, s: State): State {
    if s.opMode <= 1 then s
    else s.(opMode := 1, opmode2 := None, bus := Apply(s.bus, Zeros(c.signals)))
  }

  predicate Expired(s: State, now: int) {
    s.timeout > 0 && now - s.lastSet > s.timeout * 1000
  }

  predicate Backlogged(s: State) {
    s.depth > NOTIFY_QUEUE_LIMIT
  }

  predicate Jittered(c: Config, s: State, now: int) {
    && c.jitterCheck
    && s.opmode2.Some? && s.opmode2.value != 0
    && now - s.opmode2.value >= c.grace
    && (now - (s.lastClock + WATCHDOG_PERIOD) > CLOCK_JITTER_ALLOWED
           || (s.lastClock + WATCHDOG_PERIOD) - now > CLOCK_JITTER_ALLOWED)
  }

  /** One watchdog pass; it reads the clock twice. */
  function AfterTimeout(c: Config, s: State, read1: int): State {
    if Expired(s, read1) then Drop(c, s) else s
  }

  function AfterBacklog(c: Config, s: State): State {
    if Backlogged(s) then Drop(c, s).(depth := 0) else s
  }

  function Watchdog(c: Config, s: State, read1: int, read2: int): State {
    if s.opMode <= 1 then s
    else
      var t := AfterBacklog(c, AfterTimeout(c, s, read1));
      (if Jittered(c, t, read2) then Drop(c, t) else t).(lastClock := read2)
  }

  // ---- The outstation object -------------------------------------------------------------------

  class Outstation {
    const config: Config
    const io: BusClient
    var opMode: int
    var lastSet: int
    var opmode2: Option<int>
    var lastClock: int
    var timeout: int
    var depth: int

    ghost function Now(): State
      reads this, io
    {
      State(opMode, lastSet, opmode2, lastClock, timeout, depth, Apply(map[], io.log))
    }

    constructor (config: Config, now: int, timeout: int)
      ensures this.config == config && fresh(io) && Now() == Init(now, timeout)
    {
      this.config := config;
      io := new BusClient();
      opMode, lastSet, opmode2, lastClock, this.timeout, depth := 1, 0, None, now, timeout, 0;
    }

    method ZeroOwned()
      modifies io
      ensures Now() == old(Now()).(bus := Apply(old(Now()).bus, Zeros(config.signals)))
    {
      for i := 0 to |config.signals|
        invariant io.log == old(io.log) + Zeros(config.signals)[..i]
      {
        io.Write(config.signals[i], 0);
      }
      assert Zeros(config.signals)[..|config.signals|] == Zeros(config.signals);
      ApplyAppend(map[], old(io.log), Zeros(config.signals));
    }

    method SetMode(mode: int, now: int)
      modifies this, io
      ensures Now() == SetOpMode(config, old(Now()), mode, now)
    {
      if mode < 1 || mode > 3 || mode > opMode + 1 {
        return;
      }
      opMode, lastSet := mode, now;
      if mode < 3 {
        ZeroOwned();
      }
      if mode >= 2 && opmode2.None? {
        opmode2 := Some(now);
      }
    }

    method SetMaskValue(key: Key, octets: seq<byte>, stamp: int, now: int)
      requires WellFormed(config) && key in config.control && IsBitmask(key.1)
      modifies io
      ensures Now() == SetMaskField(config, old(Now()), key, octets, stamp, now)
    {
      if ValidTimestamp(stamp, now) {
        var mask := if opMode >= 3 then MaskOf(octets) else 0;
        SetMask(io, config.control[key], mask);
        ApplyAppend(map[], old(io.log), MaskWrites(config.control[key], mask));
      }
    }

    method SetSingleValue(key: Key, value: int, stamp: int, now: int)
      requires WellFormed(config) && key in config.control && !IsBitmask(key.1)
      modifies io
      ensures Now() == SetSingleField(config, old(Now()), key, value, stamp, now)
    {
      if ValidTimestamp(stamp, now) {
        var v := if opMode >= 3 then value else 0;
        io.Write(config.control[key][0].1, v);
        ApplyAppend(map[], old(io.log), [BusWrite(config.control[key][0].1, v)]);
      }
    }

    method DropToStandalone()
      modifies this, io
      ensures Now() == Drop(config, old(Now()))
    {
      if opMode > 1 {
        opMode, opmode2 := 1, None;
        ZeroOwned();
      }
    }

    method WatchdogPass(read1: int, read2: int)
      modifies this, io
      ensures Now() == Watchdog(config, old(Now()), read1, read2)
    {
      if opMode > 1 {
        if timeout > 0 && read1 - lastSet > timeout * 1000 {
          DropToStandalone();
        }
        if depth > NOTIFY_QUEUE_LIMIT {
          DropToStandalone();
          depth := 0;
        }
        if config.jitterCheck && opmode2.Some? && opmode2.value != 0 && read2 - opmode2.value >= config.grace {
          var jitter := read2 - (lastClock + WATCHDOG_PERIOD);
          if jitter > CLOCK_JITTER_ALLOWED || -jitter > CLOCK_JITTER_ALLOWED {
            DropToStandalone();
          }
        }
        lastClock := read2;
      }
    }
  }

  // ---- Runs ------------------------------------------------------------------------------------

  datatype Event =
    | SetsMode(mode: int, now: int)
    | SetsMask(key: Key, octets: seq<byte>, stamp: int, now: int)
    | SetsSingle(key: Key, value: int, stamp: int, now: int)
    | SetsTimeout(timeout: int)
    | Informed(acknowledged: bool)
    | IoFault
    | Pass(read1: int, read2: int)

  function Step(c: Config, s: State, e: Event): State
    requires WellFormed(c)
  {
    match e
    case SetsMode(mode, now) => SetOpMode(c, s, mode, now)
    case SetsMask(key, octets, stamp, now) =>
      if key in c.control && IsBitmask(key.1) then SetMaskField(c, s, key, octets, stamp, now) else s
    case SetsSingle(key, value, stamp, now) =>
      if key in c.control && !IsBitmask(key.1) then SetSingleField(c, s, key, value, stamp, now) else s
    case SetsTimeout(timeout) => if 0 <= timeout <= 180 then s.(timeout := timeout) else s
    case Informed(acknowledged) =>
      s.(depth := if acknowledged then (if s.depth > 0 then s.depth - 1 else 0) else s.depth + 1)
    case IoFault => Drop(c, s)
    case Pass(read1, read2) => Watchdog(c, s, read1, read2)
  }

  function Run(c: Config, s: State, events: seq<Event>): State
    requires WellFormed(c)
    decreases |events|
  {
    if events == [] then s else Run(c, Step(c, s, events[0]), events[1..])
  }

  function Value(bus: Bus, sig: string): int {
    if sig in bus then bus[sig] else 0
  }

  ghost predicate AllOff(bus: Bus) {
    forall sig :: Value(bus, sig) == 0
  }

  /** Below mode 3 everything the service has written is off. */
  ghost predicate Safe(s: State) {
    1 <= s.opMode <= 3 && (s.opMode < 3 ==> AllOff(s.bus))
  }

  ghost predicate OnlyWritable(c: Config, bus: Bus) {
    forall sig :: Value(bus, sig) != 0 ==> Writable(c, sig)
  }

  lemma ZeroedBus(signals: seq<string>, bus: Bus, sig: string)
    ensures Value(Apply(bus, Zeros(signals)), sig) == if sig in signals then 0 else Value(bus, sig)
  {
    ApplyUniform(bus, Zeros(signals), 0);
    if sig in signals {
      var i :| 0 <= i < |signals| && signals[i] == sig;
      assert Zeros(signals)[i] == BusWrite(sig, 0);
    }
  }

  lemma ZeroedIsOff(c: Config, bus: Bus)
    requires Covered(c) && OnlyWritable(c, bus)
    ensures AllOff(Apply(bus, Zeros(c.signals)))
  {
    hide Apply, Zeros, Writable;
    forall sig ensures Value(Apply(bus, Zeros(c.signals)), sig) == 0 {
      ZeroedBus(c.signals, bus, sig);
    }
  }

  /** A mask write puts 0 or 1 on signals of the field, and only 0 when the mask is 0. */
  lemma MaskedBus(bits: Bits, bus: Bus, mask: byte, sig: string)
    requires Numbered(bits)
    ensures var v := Value(Apply(bus, MaskWrites(bits, mask)), sig);
            v == 0 || v == Value(bus, sig) || (mask != 0 && WritableBy(Fn, bits, sig))
  {
    PhaseWrites(bits, mask, 1);
    PhaseWrites(bits, mask, 0);
    ApplyAppend(bus, Phase(bits, mask, 1), Phase(bits, mask, 0));
    ApplyUniform(bus, Phase(bits, mask, 1), 1);
    ApplyUniform(Apply(bus, Phase(bits, mask, 1)), Phase(bits, mask, 0), 0);
    hide Apply, Phase;
    if BusWrite(sig, 1) in Phase(bits, mask, 1) {
      var i :| 0 <= i < |bits| && bits[i].1 == sig && BitOf(mask, bits[i].0) == 1;
      BitOfZero(bits[i].0);
      if !InOctet(bits, sig) {
        var j :| 0 <= j < |bits| && bits[j].1 == sig && bits[j].0 > 8;
        HighBitIsOff(mask, bits[j].0);
        assert BusWrite(sig, 0) in Phase(bits, mask, 0);
      }
    }
  }

  lemma HighBitIsOff(mask: byte, bit: nat)
    requires bit > 8
    ensures BitOf(mask, bit) == 0
  {
    Octet();
    if BitOf(mask, bit) == 1 {
      HighBitIsLarge(mask, bit, 8);
    }
  }

  ghost predicate Inv(c: Config, s: State) {
    Safe(s) && s.depth >= 0 && OnlyWritable(c, s.bus)
  }

  lemma MaskStep(c: Config, s: State, key: Key, octets: seq<byte>, stamp: int, now: int)
    requires WellFormed(c) && Covered(c) && Inv(c, s) && key in c.control && IsBitmask(key.1)
    ensures Inv(c, SetMaskField(c, s, key, octets, stamp, now))
  {
    hide Apply, MaskWrites, Covered, WritableBy;
    var bits, mask := c.control[key], if s.opMode >= 3 then MaskOf(octets) else 0;
    forall sig
      ensures var v := Value(Apply(s.bus, MaskWrites(bits, mask)), sig);
              (s.opMode < 3 ==> v == 0) && (v != 0 ==> Writable(c, sig))
    {
      MaskedBus(bits, s.bus, mask, sig);
      BitmasksAlike(key.1, bits, sig);
    }
  }

  lemma BitmasksAlike(f: ControlField, bits: Bits, sig: string)
    requires IsBitmask(f)
    ensures WritableBy(f, bits, sig) == WritableBy(Fn, bits, sig)
  {}

  lemma SingleStep(c: Config, s: State, key: Key, value: int, stamp: int, now: int)
    requires WellFormed(c) && Inv(c, s) && key in c.control && !IsBitmask(key.1)
    ensures Inv(c, SetSingleField(c, s, key, value, stamp, now))
  {
    hide Writable;
    var sig := c.control[key][0].1;
    FirstIsWritable(c, key);
    var v := if s.opMode >= 3 then value else 0;
    var bus := s.bus[sig := v];
    assert forall t :: Value(bus, t) == if t == sig then v else Value(s.bus, t);
    assert OnlyWritable(c, bus);
    assert s.opMode < 3 ==> AllOff(bus);
  }

  lemma FirstIsWritable(c: Config, key: Key)
    requires WellFormed(c) && key in c.control && !IsBitmask(key.1)
    ensures Writable(c, c.control[key][0].1)
  {
    assert WritableBy(key.1, c.control[key], c.control[key][0].1);
  }

  lemma DropStep(c: Config, s: State)
    requires Covered(c) && Inv(c, s)
    ensures Inv(c, Drop(c, s))
  {
    hide Apply, Zeros, Writable, Covered;
    ZeroedIsOff(c, s.bus);
  }

  lemma PassStep(c: Config, s: State, read1: int, read2: int)
    requires Covered(c) && Inv(c, s)
    ensures Inv(c, Watchdog(c, s, read1, read2))
  {
    hide Drop, Covered, OnlyWritable, AllOff;
    if s.opMode > 1 {
      DropStep(c, s);
      var t := AfterTimeout(c, s, read1);
      DropStep(c, t);
      DropStep(c, AfterBacklog(c, t));
    }
  }

  /** No step of a covered outstation leaves the invariant, and none raises the mode by more than one. */
  lemma StepKeepsInv(c: Config, s: State, e: Event)
    requires WellFormed(c) && Covered(c) && Inv(c, s)
    ensures Inv(c, Step(c, s, e))
    ensures Step(c, s, e).opMode <= s.opMode + 1
  {
    hide Apply, Zeros, Covered, OnlyWritable, AllOff, MaskWrites, Jittered, Expired, Backlogged, ValidTimestamp;
    match e
    case SetsMode(mode, now) =>
      ZeroedIsOff(c, s.bus);
      OffIsWritable(c, Apply(s.bus, Zeros(c.signals)));
    case SetsMask(key, octets, stamp, now) =>
      if key in c.control && IsBitmask(key.1) {
        MaskStep(c, s, key, octets, stamp, now);
      }
    case SetsSingle(key, value, stamp, now) =>
      if key in c.control && !IsBitmask(key.1) {
        SingleStep(c, s, key, value, stamp, now);
      }
    case Pass(read1, read2) => PassStep(c, s, read1, read2);
    case IoFault => DropStep(c, s);
    case _ =>
  }

  lemma OffIsWritable(c: Config, bus: Bus)
    requires AllOff(bus)
    ensures OnlyWritable(c, bus)
  {}

  lemma {:induction false} RunKeepsInv(c: Config, s: State, events: seq<Event>)
    requires WellFormed(c) && Covered(c) && Inv(c, s)
    ensures Inv(c, Run(c, s, events))
    decreases |events|
  {
    hide Step, Inv, Covered;
    if events != [] {
      StepKeepsInv(c, s, events[0]);
      RunKeepsInv(c, Step(c, s, events[0]), events[1..]);
    }
  }

  // ---- Coverage is needed, too -----------------------------------------------------------------

  /** Enter mode 3, write to the field, and step back to mode 2. */
  function Offence(key: Key, now: int): seq<Event> {
    [SetsMode(2, now), SetsMode(3, now),
     if IsBitmask(key.1) then SetsMask(key, [255], 0, now) else SetsSingle(key, 1, 0, now),
     SetsMode(2, now)]
  }

  lemma OffenceRun(c: Config, s: State, key: Key, now: int)
    requires WellFormed(c) && key in c.control && s.opMode == 1
    ensures var t := Run(c, s, Offence(key, now));
            var bits := c.control[key];
            var zeroed := Apply(s.bus, Zeros(c.signals));
            var set3 := if IsBitmask(key.1) then Apply(zeroed, MaskWrites(bits, 255)) else zeroed[bits[0].1 := 1];
            t.opMode == 2 && t.bus == Apply(set3, Zeros(c.signals))
  {
    hide Apply, MaskWrites, Zeros;
    var e := Offence(key, now);
    var s1 := Step(c, s, e[0]);
    var s2 := Step(c, s1, e[1]);
    var s3 := Step(c, s2, e[2]);
    assert e[1..][0] == e[1] && e[1..][1..] == e[2..];
    assert e[2..][0] == e[2] && e[2..][1..] == e[3..];
    assert e[3..][0] == e[3] && e[3..][1..] == [];
    assert Run(c, s, e) == Run(c, s1, e[1..]) == Run(c, s2, e[2..]) == Run(c, s3, e[3..])
        == Run(c, Step(c, s3, e[3]), []);
  }

  lemma {:induction false} AllOnes(n: nat, b: nat)
    requires 1 <= b <= n
    ensures BitOf(Ones(n), b) == 1
  {
    if b > 1 {
      AllOnes(n - 1, b - 1);
    }
  }

  function Ones(n: nat): nat {
    if n == 0 then 0 else Ones(n - 1) * 2 + 1
  }

  lemma FullMaskSets(bits: Bits, bus: Bus, sig: string)
    requires Numbered(bits) && WritableBy(Fn, bits, sig)
    ensures Value(Apply(bus, MaskWrites(bits, 255)), sig) == 1
  {
    assert Ones(8) == 255;
    forall b: nat | 1 <= b <= 8 ensures BitOf(255, b) == 1 {
      AllOnes(8, b);
    }
    PhaseWrites(bits, 255, 1);
    PhaseWrites(bits, 255, 0);
    ApplyAppend(bus, Phase(bits, 255, 1), Phase(bits, 255, 0));
    ApplyUniform(bus, Phase(bits, 255, 1), 1);
    ApplyUniform(Apply(bus, Phase(bits, 255, 1)), Phase(bits, 255, 0), 0);
    assert BusWrite(sig, 1) in Phase(bits, 255, 1);
  }

  /** A run from the start that leaves an uncovered signal on in mode 2. */
  lemma Offends(c: Config, sig: string, now: int, timeout: int) returns (events: seq<Event>)
    requires WellFormed(c) && Writable(c, sig) && sig !in c.signals
    ensures !Safe(Run(c, Init(now, timeout), events))
  {
    hide Apply, MaskWrites, Zeros, Step;
    var key :| key in c.control && WritableBy(key.1, c.control[key], sig);
    var bits := c.control[key];
    var s := Init(now, timeout);
    events := Offence(key, now);
    OffenceRun(c, s, key, now);
    var zeroed := Apply(s.bus, Zeros(c.signals));
    if IsBitmask(key.1) {
      BitmasksAlike(key.1, bits, sig);
      FullMaskSets(bits, zeroed, sig);
      ZeroedBus(c.signals, Apply(zeroed, MaskWrites(bits, 255)), sig);
    } else {
      ZeroedBus(c.signals, zeroed[bits[0].1 := 1], sig);
    }
    assert Value(Run(c, s, events).bus, sig) == 1;
  }

  /** A pass in a UTC mode that finds the backlog too long resets it; no pass changes it otherwise. */
  lemma PassResetsBacklog(c: Config, s: State, read1: int, read2: int)
    ensures Watchdog(c, s, read1, read2).depth == if s.opMode > 1 && s.depth > 10 then 0 else s.depth
  {
    hide Apply, Zeros, Jittered;
  }

  /** A drop in a UTC mode goes to mode 1, switches off every signal listed, and forgets when UTC operation began; in
      mode 1 it does nothing. */
  lemma DropIs(c: Config, s: State, sig: string)
    ensures var t := Drop(c, s);
            && t.lastSet == s.lastSet && t.lastClock == s.lastClock && t.timeout == s.timeout && t.depth == s.depth
            && (s.opMode <= 1 ==> t == s)
            && (s.opMode > 1 ==> t.opMode == 1 && t.opmode2 == None)
            && Value(t.bus, sig) == if s.opMode > 1 && sig in c.signals then 0 else Value(s.bus, sig)
  {
    hide Apply, Zeros;
    ZeroedBus(c.signals, s.bus, sig);
  }

  /** The configured timeout counts from the first SET on, and, without a jitter of the clock, decides alone. */
  lemma FirstTimeout(c: Config, now: int, timeout: int, sent: int, read1: int, read2: int)
    requires WellFormed(c) && now <= read2 <= now + 15_000
    ensures var t := Run(c, Init(now, timeout), [SetsMode(2, sent), Pass(read1, read2)]);
            t.opMode == if timeout > 0 && read1 > sent + timeout * 1000 then 1 else 2
  {
    hide Apply, Zeros;
    var events := [SetsMode(2, sent), Pass(read1, read2)];
    var s := Step(c, Init(now, timeout), events[0]);
    assert events[1..] == [Pass(read1, read2)] && events[1..][1..] == [];
    assert Run(c, s, events[1..]) == Run(c, Step(c, s, events[1]), []);
    WatchdogDropsIff(c, s, read1, read2);
  }

  /** A SET of the mode is accepted exactly if the mode is 1, 2 or 3 and at most one above the present one. */
  lemma ModeSetIff(c: Config, s: State, mode: int, now: int, sig: string)
    requires WellFormed(c)
    ensures var t, accepted := Step(c, s, SetsMode(mode, now)), mode in [1, 2, 3] && mode - s.opMode <= 1;
            && (!accepted ==> t == s)
            && (accepted ==> t.opMode == mode && t.lastSet == now && t.lastClock == s.lastClock && t.depth == s.depth
                             && t.timeout == s.timeout
                             && t.opmode2 == (if mode != 1 && s.opmode2 == None then Some(now) else s.opmode2)
                             && Value(t.bus, sig) == if mode != 3 && sig in c.signals then 0 else Value(s.bus, sig))
  {
    hide Apply, Zeros;
    ZeroedBus(c.signals, s.bus, sig);
  }

  /** A SET of the timeout is accepted from 0 to 180 seconds; the backlog counts INFORMs sent in vain, and goes down by
      one, not below 0, with an acknowledged one.  Neither changes anything else. */
  lemma OtherEvents(c: Config, s: State, timeout: int, acknowledged: bool)
    requires WellFormed(c)
    ensures Step(c, s, SetsTimeout(timeout))
       == s.(timeout := if timeout < 0 || timeout > 180 then s.timeout else timeout)
    ensures var t := Step(c, s, Informed(acknowledged));
            && t == s.(depth := t.depth)
            && (!acknowledged ==> t.depth == s.depth + 1)
            && (acknowledged ==> t.depth == if s.depth >= 1 then s.depth - 1 else 0)
    ensures Step(c, s, IoFault) == Drop(c, s)
  {}

  /** The control fields that take a mask. */
  lemma BitmaskFields()
    ensures forall f :: IsBitmask(f) <==> f in [Dn, Fn, SFn]
  {}

  // ---- What a SET does --------------------------------------------------------------------------------

  /** A SET of a bitmask field whose stamp is accepted leaves every signal of it, in mode 3, as the bit of the first
      octet, or off if there is no octet or the mode is lower.  It changes nothing else, and one with an invalid stamp
      nothing. */
  lemma MaskSetShows(c: Config, s: State, key: Key, octets: seq<byte>, stamp: int, now: int)
    requires WellFormed(c) && key in c.control && IsBitmask(key.1) && Distinct(c.control[key])
    ensures var t, bits := Step(c, s, SetsMask(key, octets, stamp, now)), c.control[key];
            && t.(bus := s.bus) == s
            && (!ValidTimestamp(stamp, now) ==> t == s)
            && (ValidTimestamp(stamp, now) ==> forall i :: 0 <= i < |bits| ==>
                  Value(t.bus, bits[i].1)
                  == if s.opMode >= 3 && octets != [] then octets[0] / PowerOfTwo(bits[i].0 - 1) % 2 else 0)
            && (forall sig :: (forall i :: 0 <= i < |bits| ==> bits[i].1 != sig)
                  ==> Value(t.bus, sig) == Value(s.bus, sig))
  {
    hide Apply, MaskWrites, ValidTimestamp, PowerOfTwo, Value;
    MaskShows(s.bus, c.control[key], if s.opMode >= 3 then MaskOf(octets) else 0);
  }

  /** After a mask write every signal of the field has its bit of the mask, and no other signal has changed. */
  lemma MaskShows(bus: Bus, bits: Bits, mask: byte)
    requires Numbered(bits) && Distinct(bits)
    ensures var after := Apply(bus, MaskWrites(bits, mask));
            && (forall i :: 0 <= i < |bits| ==>
                  Value(after, bits[i].1) == if mask == 0 then 0 else mask / PowerOfTwo(bits[i].0 - 1) % 2)
            && (forall sig :: (forall i :: 0 <= i < |bits| ==> bits[i].1 != sig)
                  ==> Value(after, sig) == Value(bus, sig))
  {
    hide Apply, MaskWrites, BitOf, PowerOfTwo;
    var after := Apply(bus, MaskWrites(bits, mask));
    FinalState(bus, bits, mask);
    forall i | 0 <= i < |bits|
      ensures Value(after, bits[i].1) == if mask == 0 then 0 else mask / PowerOfTwo(bits[i].0 - 1) % 2
    {
      BitOfIs(mask, bits[i].0);
      BitOfZero(bits[i].0);
    }
  }

  /** Of any other field the first signal gets the value given, or 0 below mode 3. */
  lemma SingleSetShows(c: Config, s: State, key: Key, value: int, stamp: int, now: int, sig: string)
    requires WellFormed(c) && key in c.control && !IsBitmask(key.1)
    ensures var t := Step(c, s, SetsSingle(key, value, stamp, now));
            && t.(bus := s.bus) == s
            && Value(t.bus, sig)
               == if ValidTimestamp(stamp, now) && sig == c.control[key][0].1 then (if s.opMode >= 3 then value else 0)
                  else Value(s.bus, sig)
  {
    hide ValidTimestamp;
  }

  /** The outstation is safe in every run exactly if every signal it can leave on is one it zeroes. */
  lemma SafeIff(c: Config, now: int, timeout: int)
    requires WellFormed(c)
    ensures (forall events :: Safe(Run(c, Init(now, timeout), events))) <==> Covered(c)
  {
    hide Run, Writable, Safe;
    if Covered(c) {
      forall events ensures Safe(Run(c, Init(now, timeout), events)) {
        InitKeepsInv(c, now, timeout);
        RunKeepsInv(c, Init(now, timeout), events);
      }
    } else {
      var sig :| Writable(c, sig) && sig !in c.signals;
      var events := Offends(c, sig, now, timeout);
    }
  }

  lemma InitKeepsInv(c: Config, now: int, timeout: int)
    ensures Inv(c, Init(now, timeout))
  {}

  // ---- The watchdog -----------------------------------------------------------------------------

  /** The last SET of the mode is longer ago than the timeout, if there is one. */
  predicate LateBy(s: State, now: int) {
    s.timeout > 0 && s.lastSet + s.timeout * 1000 < now
  }

  /** With the check on and the grace period over, the clock has advanced by more than 15 seconds since the last pass,
      or has gone back by more than 5. */
  predicate OutOfStep(c: Config, s: State, now: int) {
    && c.jitterCheck && s.opmode2.Some? && s.opmode2.value != 0 && s.opmode2.value + c.grace <= now
    && (s.lastClock + 15_000 < now || now + 5_000 < s.lastClock)
  }

  /** A watchdog pass ends UTC operation for exactly three reasons. */
  lemma WatchdogDropsIff(c: Config, s: State, read1: int, read2: int)
    requires 1 <= s.opMode <= 3
    ensures var t := Watchdog(c, s, read1, read2);
            var drops := s.opMode > 1 && (LateBy(s, read1) || s.depth > 10 || OutOfStep(c, s, read2));
            && (if drops then t.opMode == 1 && t.opmode2 == None else t.opMode == s.opMode && t.bus == s.bus)
            && (t.opMode > 1
               ==> t.depth == s.depth <= 10 && t.lastClock == read2
                    && (t.timeout > 0 ==> read1 - t.lastSet <= t.timeout * 1000))
  {
    hide Apply, Zeros;
  }

  /** An event by which the instation does not speak to the outstation about its mode. */
  predicate Silent(e: Event) {
    !e.SetsMode? && !e.SetsTimeout?
  }

  lemma SilentStep(c: Config, s: State, e: Event)
    requires WellFormed(c) && Silent(e) && 1 <= s.opMode <= 3
    ensures var t := Step(c, s, e); t.lastSet == s.lastSet && t.timeout == s.timeout && 1 <= t.opMode <= 3
  {
    hide Apply, Zeros, MaskWrites, ValidTimestamp, Jittered;
  }

  /** Whatever else happens, the first pass after the timeout of a silent instation finds the outstation in standalone,
      or puts it there. */
  lemma {:induction false} SilenceEndsUtc(c: Config, s: State, events: seq<Event>, read1: int, read2: int)
    requires WellFormed(c) && 1 <= s.opMode <= 3 && s.timeout > 0 && read1 - s.lastSet > s.timeout * 1000
    requires forall i :: 0 <= i < |events| ==> Silent(events[i])
    ensures Run(c, s, events + [Pass(read1, read2)]).opMode == 1
    decreases |events|
  {
    hide Silent, Jittered;
    var all := events + [Pass(read1, read2)];
    if events == [] {
      assert all == [Pass(read1, read2)] && all[1..] == [];
    } else {
      SilentStep(c, s, events[0]);
      hide Step;
      SilenceEndsUtc(c, Step(c, s, events[0]), events[1..], read1, read2);
      assert all[1..] == events[1..] + [Pass(read1, read2)];
    }
  }

  function Midnights(sent: nat, delay: nat): int {
    (sent + delay) / DAY - sent / DAY
  }

  /** A time stamp taken when a command is sent, in whole seconds, is accepted exactly if it counts as none, or the age
      of the command by its stamp, less a day for every midnight since, is within the limits. */
  lemma TimestampIff(sent: nat, delay: nat)
    ensures ValidTimestamp(sent % DAY / 1000, sent + delay)
       <==> sent % DAY < 2000
            || -10_000 <= delay + sent % 1000 - Midnights(sent, delay) * 86_400_000 <= 30_000
  {
    var now := sent + delay;
    assert sent % DAY / 1000 * 1000 == sent % DAY - sent % 1000;
    assert now % DAY == now - now / DAY * DAY && sent % DAY == sent - sent / DAY * DAY;
  }

  /** Of a command not older than half a day that is so exactly if midnight does not fall between, and the command is,
      by its stamp, at most half a minute old. */
  lemma FreshTimestampIff(sent: nat, delay: nat)
    requires delay <= DAY / 2
    ensures ValidTimestamp(sent % DAY / 1000, sent + delay)
       <==> sent % DAY < 2000 || (sent / DAY == (sent + delay) / DAY && delay + sent % 1000 <= LATE_TIMESTAMP_LIMIT)
  {
    hide ValidTimestamp;
    TimestampIff(sent, delay);
    var now := sent + delay;
    assert now / DAY == sent / DAY || now / DAY == sent / DAY + 1;
  }

  /** However old it is, a command is accepted if its age is a whole number of days. */
  lemma StaleByDays(sent: nat, days: nat)
    ensures ValidTimestamp(sent % DAY / 1000, sent + days * DAY)
  {
    hide ValidTimestamp;
    TimestampIff(sent, days * DAY);
    WholeDays(sent, days);
  }

  lemma WholeDays(sent: nat, days: nat)
    ensures (sent + days * DAY) / DAY == sent / DAY + days
  {}

  // ---- The clock-jitter check -------------------------------------------------------------------

  /** Whether a pass drops the outstation because of clock jitter. */
  predicate JitterDrops(c: Config, s: State, e: Event) {
    e.Pass? && s.opMode > 1 && Jittered(c, AfterBacklog(c, AfterTimeout(c, s, e.read1)), e.read2)
  }

  predicate EverJitterDrops(c: Config, s: State, events: seq<Event>)
    requires WellFormed(c)
    decreases |events|
  {
    events != [] && (JitterDrops(c, s, events[0]) || EverJitterDrops(c, Step(c, s, events[0]), events[1..]))
  }

  /** A run in which the clock shows no jitter: time does not go back, and no pass is late by more than is allowed. */
  predicate Steady(events: seq<Event>, last: int, pass: int)
    decreases |events|
  {
    events == [] ||
    match events[0]
    case SetsMode(_, now) => last <= now && Steady(events[1..], now, pass)
    case Pass(read1, read2) =>
      last <= read1 <= read2 <= pass + WATCHDOG_PERIOD + CLOCK_JITTER_ALLOWED && Steady(events[1..], read2, read2)
    case _ => Steady(events[1..], last, pass)
  }

  /** No SET takes the outstation from a UTC mode to standalone. */
  predicate NoDemotion(c: Config, s: State, events: seq<Event>)
    requires WellFormed(c)
    decreases |events|
  {
    events == []
        || (!(events[0].SetsMode? && events[0].mode == 1 && s.opMode > 1)
               && NoDemotion(c, Step(c, s, events[0]), events[1..]))
  }

  const LONGEST_GAP := WATCHDOG_PERIOD + CLOCK_JITTER_ALLOWED

  /** In a UTC mode the remembered clock is that of the last pass, or the grace period began after that pass. */
  predicate ClockInv(s: State, last: int, pass: int) {
    && pass <= last
    && 1 <= s.opMode <= 3
    && (s.opMode == 1 ==> s.opmode2.None?)
    && (s.opMode > 1 ==> s.opmode2.Some? && (s.lastClock == pass || s.opmode2.value >= pass))
  }

  function Last(e: Event, last: int): int {
    match e case SetsMode(_, now) => now case Pass(_, read2) => read2 case _ => last
  }

  function LastPass(e: Event, pass: int): int {
    if e.Pass? then e.read2 else pass
  }

  lemma ClockStep(c: Config, s: State, e: Event, last: int, pass: int)
    requires WellFormed(c) && c.grace > LONGEST_GAP
    requires ClockInv(s, last, pass) && Steady([e], last, pass) && NoDemotion(c, s, [e])
    ensures !JitterDrops(c, s, e)
    ensures ClockInv(Step(c, s, e), Last(e, last), LastPass(e, pass))
  {
    hide Apply, Zeros, MaskWrites;
  }

  lemma {:induction false} NeverJitters(c: Config, s: State, events: seq<Event>, last: int, pass: int)
    requires WellFormed(c) && c.grace > LONGEST_GAP
    requires ClockInv(s, last, pass) && Steady(events, last, pass) && NoDemotion(c, s, events)
    ensures !EverJitterDrops(c, s, events)
    decreases |events|
  {
    hide ClockInv, Step, JitterDrops;
    if events != [] {
      var e := events[0];
      SteadyHead(events, last, pass);
      ClockStep(c, s, e, last, pass);
      NeverJitters(c, Step(c, s, e), events[1..], Last(e, last), LastPass(e, pass));
    }
  }

  lemma SteadyHead(events: seq<Event>, last: int, pass: int)
    requires events != [] && Steady(events, last, pass)
    ensures Steady([events[0]], last, pass)
    ensures Steady(events[1..], Last(events[0], last), LastPass(events[0], pass))
  {}

  /** Back in a UTC mode after a long time in standalone, kept there by a second SET, and then a pass that finds the
      clock remembered from before. */
  function Return(set1: int, set2: int): seq<Event> {
    [SetsMode(2, set1), SetsMode(2, set2), Pass(set2, set2)]
  }

  lemma ReturnJitters(c: Config, s: State, set1: int, pass: int)
    requires WellFormed(c) && c.jitterCheck && s.opMode == 1 && s.depth == 0
    requires pass <= set1 && 0 < set1
    requires var began := if s.opmode2.None? then set1 else s.opmode2.value;
             began != 0 && pass + LONGEST_GAP - began >= c.grace
    requires set1 <= pass + LONGEST_GAP
    requires pass > s.lastClock
    ensures EverJitterDrops(c, s, Return(set1, pass + LONGEST_GAP))
    ensures Steady(Return(set1, pass + LONGEST_GAP), pass, pass)
    ensures s.opmode2.None? ==> NoDemotion(c, s, Return(set1, pass + LONGEST_GAP))
  {
    hide Apply, Zeros;
    var e := Return(set1, pass + LONGEST_GAP);
    var s1 := Step(c, s, e[0]);
    var s2 := Step(c, s1, e[1]);
    assert e[1..][0] == e[1] && e[1..][1..] == e[2..] && e[2..][0] == e[2] && e[2..][1..] == [];
    assert JitterDrops(c, s2, e[2]);
    assert EverJitterDrops(c, s2, e[2..]) && Steady(e[2..], pass + LONGEST_GAP, pass);
    assert EverJitterDrops(c, s1, e[1..]) && Steady(e[1..], set1, pass);
    assert NoDemotion(c, s2, e[2..]) && NoDemotion(c, s1, e[1..]);
  }

  /** n passes in standalone, as far apart as a steady clock allows. */
  function Idle(pass: int, n: nat): seq<Event>
    decreases n
  {
    if n == 0 then [] else [Pass(pass + LONGEST_GAP, pass + LONGEST_GAP)] + Idle(pass + LONGEST_GAP, n - 1)
  }

  lemma {:induction false} AfterIdle(c: Config, s: State, last: int, pass: int, n: nat, rest: seq<Event>)
    requires WellFormed(c) && s.opMode == 1 && last <= pass + LONGEST_GAP && (n == 0 ==> last <= pass)
    requires EverJitterDrops(c, s, rest) && Steady(rest, pass + n * LONGEST_GAP, pass + n * LONGEST_GAP)
    ensures EverJitterDrops(c, s, Idle(pass, n) + rest)
    ensures n > 0 ==> Steady(Idle(pass, n) + rest, last, pass)
    decreases n
  {
    hide Step, Steady, EverJitterDrops;
    if n == 0 {
      assert Idle(pass, 0) + rest == rest;
    } else {
      var next := pass + LONGEST_GAP;
      assert next + (n - 1) * LONGEST_GAP == pass + n * LONGEST_GAP;
      AfterIdle(c, s, next, next, n - 1, rest);
      var tail := Idle(next, n - 1) + rest;
      if n == 1 {
        assert Idle(next, 0) + rest == rest;
      }
      IdlePass(c, s, tail, last, pass);
      assert Idle(pass, n) + rest == [Pass(next, next)] + tail;
    }
  }

  lemma IdlePass(c: Config, s: State, rest: seq<Event>, last: int, pass: int)
    requires WellFormed(c) && s.opMode == 1 && last <= pass + LONGEST_GAP
    requires EverJitterDrops(c, s, rest) && Steady(rest, pass + LONGEST_GAP, pass + LONGEST_GAP)
    ensures var events := [Pass(pass + LONGEST_GAP, pass + LONGEST_GAP)] + rest;
            EverJitterDrops(c, s, events) && Steady(events, last, pass)
  {
    assert ([Pass(pass + LONGEST_GAP, pass + LONGEST_GAP)] + rest)[1..] == rest;
  }

  /** With a steady clock and no demotion, the jitter check never drops the outstation, whatever else happens, exactly
      if the grace period outlasts the longest gap between two passes. */
  lemma JitterFreeIff(c: Config, now: nat, timeout: int)
    requires WellFormed(c) && c.jitterCheck
    ensures (forall events :: Steady(events, now, now) && NoDemotion(c, Init(now, timeout), events)
                          ==> !EverJitterDrops(c, Init(now, timeout), events))
       <==> c.grace > 15_000
  {
    hide Steady, NoDemotion, EverJitterDrops;
    var s := Init(now, timeout);
    if c.grace > LONGEST_GAP {
      forall events | Steady(events, now, now) && NoDemotion(c, s, events) ensures !EverJitterDrops(c, s, events) {
        NeverJitters(c, s, events, now, now);
      }
    } else {
      var events := ShortGraceJitters(c, now, timeout);
    }
  }

  lemma ShortGraceJitters(c: Config, now: nat, timeout: int) returns (events: seq<Event>)
    requires WellFormed(c) && c.jitterCheck && c.grace <= LONGEST_GAP
    ensures var s := Init(now, timeout);
            Steady(events, now, now) && NoDemotion(c, s, events) && EverJitterDrops(c, s, events)
  {
    hide Steady, NoDemotion, EverJitterDrops;
    var s, pass := Init(now, timeout), now + LONGEST_GAP;
    ReturnJitters(c, s, pass, pass);
    events := OnePass(c, s, now, Return(pass, pass + LONGEST_GAP));
  }

  lemma OnePass(c: Config, s: State, now: int, rest: seq<Event>) returns (events: seq<Event>)
    requires WellFormed(c) && s.opMode == 1
    requires EverJitterDrops(c, s, rest) && NoDemotion(c, s, rest) && Steady(rest, now + LONGEST_GAP, now + LONGEST_GAP)
    ensures EverJitterDrops(c, s, events) && NoDemotion(c, s, events) && Steady(events, now, now)
  {
    var next := now + LONGEST_GAP;
    events := [Pass(next, next)] + rest;
    assert events[1..] == rest;
  }

  /** Once the instation may demote the outstation, no grace period is long enough: the period is not restarted, so some
      run with a steady clock ends in a drop for jitter. */
  lemma DemotionBreaks(c: Config, now: nat, timeout: int) returns (events: seq<Event>)
    requires WellFormed(c) && c.jitterCheck
    ensures Steady(events, now, now) && EverJitterDrops(c, Init(now, timeout), events)
  {
    hide Steady, EverJitterDrops;
    var s := Init(now, timeout);
    var began := now + 1;
    var n := 1 + if c.grace > 0 then c.grace else 0;
    var s1 := SetOpMode(c, s, 2, began);
    var s2 := SetOpMode(c, s1, 1, began);
    var pass := now + n * LONGEST_GAP;
    ReturnJitters(c, s2, pass, pass);
    var rest := Return(pass, pass + LONGEST_GAP);
    AfterIdle(c, s2, began, now, n, rest);
    events := [SetsMode(2, began), SetsMode(1, began)] + (Idle(now, n) + rest);
    Prepend(c, s1, SetsMode(1, began), Idle(now, n) + rest, began, now);
    assert events[1..] == [SetsMode(1, began)] + (Idle(now, n) + rest);
    Prepend(c, s, SetsMode(2, began), events[1..], now, now);
    assert events == [SetsMode(2, began)] + events[1..];
  }

  lemma Prepend(c: Config, s: State, e: Event, rest: seq<Event>, last: int, pass: int)
    requires WellFormed(c) && e.SetsMode? && last <= e.now
    requires EverJitterDrops(c, Step(c, s, e), rest) && Steady(rest, e.now, pass)
    ensures EverJitterDrops(c, s, [e] + rest) && Steady([e] + rest, last, pass)
  {
    assert ([e] + rest)[1..] == rest;
  }
}
