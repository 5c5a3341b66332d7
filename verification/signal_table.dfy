/**
  The signal table of the IO bus: ownership, conditioning, notifications, and the two things that live off
  the notifications, mirrors of the table and recordings of it.

  OwnersDecide gives the value of every signal after any run from its owners' writes alone;
  MirrorAgreesIff and ReplayFaithfulIff say exactly when a mirror stays right and when a
  recording replays as it was.
 */
module SignalTable {
  import opened Bytes

  // ---- Conditioning --------------------------------------------------------------------------------

  /** How a raw value is conditioned; present only where it is not the plain value. */
  datatype Cond = Cond(invert: bool, scale: real)

  /** Python's int(): towards zero. */
  function Truncate(x: real): int {
    if x >= 0.0 then x.Floor else -((-x).Floor)
  }

  function Scaled(c: Cond, raw: int): real {
    raw as real * c.scale
  }

  function Conditioned(c: Option<Cond>, raw: int): int {
    match c
    case None => raw
    case Some(cond) =>
      var v := Truncate(Scaled(cond, raw));
      if cond.invert then (if v != 0 then 0 else 1) else v
  }

  /** Without inversion a value is scaled and cut off towards zero; with it, what that gives is turned into 0 or 1. */
  lemma ConditionedMeans(c: Cond, raw: int)
    ensures var exact, plain := raw as real * c.scale, Conditioned(Some(c.(invert := false)), raw);
            && (exact >= 0.0 ==> plain as real <= exact < plain as real + 1.0)
            && (exact <= 0.0 ==> plain as real - 1.0 < exact <= plain as real)
            && (c.invert ==> Conditioned(Some(c), raw) == if plain == 0 then 1 else 0)
    ensures Conditioned(None, raw) == raw
  {
    hide Truncate;
    TruncateMeans(Scaled(c, raw));
    assert Scaled(c.(invert := false), raw) == Scaled(c, raw);
  }

  lemma TruncateMeans(x: real)
    ensures x >= 0.0 ==> Truncate(x) as real <= x < Truncate(x) as real + 1.0
    ensures x <= 0.0 ==> Truncate(x) as real - 1.0 < x <= Truncate(x) as real
  {
    var below := (-x).Floor;
    assert below as real <= -x < below as real + 1.0;
    assert x < 0.0 ==> Truncate(x) as real == -(below as real);
    assert x == 0.0 ==> x.Floor == 0;
  }

  // ---- State ---------------------------------------------------------------------------------------

  datatype Note = Note(name: string, value: int)

  datatype State = State(
    values: map<string, int>,          // raw
    owners: map<string, set<string>>,
    cond: map<string, Cond>,
    notes: seq<Note>)                  // what the subscribers have been told, in order

  predicate Ok(s: State) {
    s.owners.Keys == s.values.Keys && s.cond.Keys <= s.values.Keys
  }

  const EMPTY := State(map[], map[], map[], [])

  function CondOf(s: State, name: string): Option<Cond> {
    if name in s.cond then Some(s.cond[name]) else None
  }

  function Raw(s: State, name: string): int {
    if name in s.values then s.values[name] else 0
  }

  function ReadOf(s: State, name: string): int {
    Conditioned(CondOf(s, name), Raw(s, name))
  }

  function SnapshotOf(s: State): map<string, int> {
    map n | n in s.values :: ReadOf(s, n)
  }

  function Registered(s: State, name: string, owner: set<string>, invert: bool, scale: real): State {
    if name in s.owners && !(owner <= s.owners[name]) then s
    else s.(values := if name in s.values then s.values else s.values[name := 0],
            owners := if name in s.owners then s.owners else s.owners[name := owner],
            cond := if invert || scale != 1.0 then s.cond[name := Cond(invert, scale)] else s.cond)
  }

  predicate MayWrite(s: State, name: string, source: string) {
    name in s.owners && source in s.owners[name]
  }

  function AfterWrite(s: State, name: string, value: int, source: string): State
    requires Ok(s)
  {
    if !MayWrite(s, name, source) || s.values[name] == value then s
    else s.(values := s.values[name := value], notes := s.notes + [Note(name, Conditioned(CondOf(s, name), value))])
  }

  class Table {
    var values: map<string, int>
    var owners: map<string, set<string>>
    var cond: map<string, Cond>
    var notes: seq<Note>

    ghost predicate Valid()
      reads this
    {
      Ok(Now())
    }

    ghost function Now(): State
      reads this
    {
      State(values, owners, cond, notes)
    }

    constructor ()
      ensures Valid() && Now() == EMPTY
    {
      values, owners, cond, notes := map[], map[], map[], [];
    }

    method Register(name: string, owner: set<string>, invert: bool, scale: real) returns (ok: bool)
      requires Valid()
      modifies this
      ensures Valid()
      ensures ok <==> old(name !in owners) || owner <= old(owners)[name]
      ensures Now() == Registered(old(Now()), name, owner, invert, scale)
    {
      if name in owners && !(owner <= owners[name]) {
        return false;
      }
      if name !in values {
        values := values[name := 0];
      }
      if name !in owners {
        owners := owners[name := owner];
      }
      if invert || scale != 1.0 {
        cond := cond[name := Cond(invert, scale)];
      }
      ok := true;
    }

    method Write(name: string, value: int, source: string) returns (ok: bool)
      requires Valid()
      modifies this
      ensures Valid()
      ensures ok <==> MayWrite(old(Now()), name, source)
      ensures Now() == AfterWrite(old(Now()), name, value, source)
    {
      if name !in owners || source !in owners[name] {
        return false;
      }
      if values[name] == value {
        return true;
      }
      values := values[name := value];
      notes := notes + [Note(name, Conditioned(if name in cond then Some(cond[name]) else None, value))];
      ok := true;
    }

    method Read(name: string) returns (value: int)
      requires Valid()
      ensures value == ReadOf(Now(), name)
      ensures name !in values ==> value == 0
    {
      value := Conditioned(if name in cond then Some(cond[name]) else None, if name in values then values[name] else 0);
    }
  }

  // ---- Runs ------------------------------------------------------------------------------------------

  datatype Op =
    | Registers(name: string, owner: set<string>, invert: bool, scale: real)
    | Writes(name: string, value: int, source: string)

  function Step(s: State, op: Op): (t: State)
    requires Ok(s)
    ensures Ok(t)
  {
    match op
    case Registers(name, owner, invert, scale) => Registered(s, name, owner, invert, scale)
    case Writes(name, value, source) => AfterWrite(s, name, value, source)
  }

  function Run(s: State, ops: seq<Op>): (t: State)
    requires Ok(s)
    ensures Ok(t)
    decreases |ops|
  {
    if ops == [] then s else Run(Step(s, ops[0]), ops[1..])
  }

  /** The owners that the first registration of a name gives it. */
  function FirstOwners(ops: seq<Op>, name: string): Option<set<string>> {
    if ops == [] then None
    else if ops[0].Registers? && ops[0].name == name then Some(ops[0].owner)
    else FirstOwners(ops[1..], name)
  }

  /** The last value that one of the given owners writes, if any does. */
  function LastOwnWrite(ops: seq<Op>, name: string, owners: set<string>, value: int): int {
    if ops == [] then value
    else
      var owned := ops[0].Writes? && ops[0].name == name && ops[0].source in owners;
      LastOwnWrite(ops[1..], name, owners, if owned then ops[0].value else value)
  }

  /** What was written before a name was registered does not count. */
  function FromFirst(ops: seq<Op>, name: string): seq<Op> {
    if ops == [] then []
    else if ops[0].Registers? && ops[0].name == name then ops
    else FromFirst(ops[1..], name)
  }

  lemma {:induction false} OwnersStay(s: State, ops: seq<Op>, name: string)
    requires Ok(s) && name in s.owners
    ensures var t := Run(s, ops);
            name in t.owners && t.owners[name] == s.owners[name]
            && t.values[name] == LastOwnWrite(ops, name, s.owners[name], s.values[name])
    decreases |ops|
  {
    hide Conditioned;
    if ops != [] {
      OwnersStay(Step(s, ops[0]), ops[1..], name);
    }
  }

  /** Over any run, the owners of a signal are those of its first registration, and its raw value is the last one that
      any of them wrote since, or 0. */
  lemma {:induction false} OwnersDecide(s: State, ops: seq<Op>, name: string)
    requires Ok(s) && name !in s.owners
    ensures var t := Run(s, ops);
            match FirstOwners(ops, name)
            case None => name !in t.owners
            case Some(owners) =>
              name in t.owners && t.owners[name] == owners
                  && t.values[name] == LastOwnWrite(FromFirst(ops, name), name, owners, 0)
    decreases |ops|
  {
    hide Conditioned;
    if ops != [] {
      var t := Step(s, ops[0]);
      if ops[0].Registers? && ops[0].name == name {
        OwnersStay(t, ops[1..], name);
      } else {
        OwnersDecide(t, ops[1..], name);
      }
    }
  }

  // ---- Mirrors ---------------------------------------------------------------------------------------

  /** A subscriber that keeps what it is told on top of a snapshot. */
  function Told(mirror: map<string, int>, notes: seq<Note>): map<string, int> {
    if notes == [] then mirror
        else Told(mirror, notes[..|notes| - 1])[notes[|notes| - 1].name := notes[|notes| - 1].value]
  }

  ghost predicate Agrees(mirror: map<string, int>, s: State) {
    forall n :: n in s.values ==> (if n in mirror then mirror[n] else 0) == ReadOf(s, n)
  }

  lemma StepNotes(s: State, op: Op)
    requires Ok(s)
    ensures s.notes <= Step(s, op).notes
    ensures var heard := Step(s, op).notes[|s.notes|..];
            heard == [] || (op.Writes? && heard == [Note(op.name, ReadOf(Step(s, op), op.name))])
    ensures forall n :: (op.Writes? || op.Registers?) && n != op.name ==> ReadOf(Step(s, op), n) == ReadOf(s, n)
    ensures Step(s, op).notes == s.notes && op.Writes? ==> Step(s, op) == s
    ensures forall n :: n in Step(s, op).values ==> n in s.values || (n == op.name && op.Registers?)
    ensures s.values.Keys <= Step(s, op).values.Keys
  {
    hide Conditioned;
  }

  /** One step keeps an agreeing mirror agreeing exactly if it is no registration that changes what its signal reads
      as. */
  lemma StepAgreesIff(mirror: map<string, int>, s: State, op: Op)
    requires Ok(s) && Agrees(mirror, s)
    requires forall n :: n in mirror ==> n in s.values
    ensures var t := Step(s, op);
            && s.notes <= t.notes
            && (Agrees(Told(mirror, t.notes[|s.notes|..]), t)
               <==> (op.Registers? ==> ReadOf(t, op.name) == ReadOf(s, op.name)))
            && (forall n :: n in Told(mirror, t.notes[|s.notes|..]) ==> n in t.values)
  {
    StepNotes(s, op);
    var t := Step(s, op);
    UnknownReadsZero(s);
    hide Step, Conditioned;
    var heard := t.notes[|s.notes|..];
    if heard != [] {
      assert heard[..0] == [];
      assert Told(mirror, heard) == mirror[op.name := ReadOf(t, op.name)];
    }
  }

  lemma UnknownReadsZero(s: State)
    requires Ok(s)
    ensures forall n :: n !in s.values ==> ReadOf(s, n) == 0
  {}

  lemma {:induction false} RunLast(s: State, ops: seq<Op>)
    requires Ok(s) && ops != []
    ensures Run(s, ops) == Step(Run(s, ops[..|ops| - 1]), ops[|ops| - 1])
    decreases |ops|
  {
    hide Step;
    if |ops| > 1 {
      RunLast(Step(s, ops[0]), ops[1..]);
      assert ops[1..][..|ops| - 2] == ops[..|ops| - 1][1..];
    } else {
      assert ops[1..] == [] && ops[..0] == [];
    }
  }

  lemma {:induction false} ToldAppend(mirror: map<string, int>, a: seq<Note>, b: seq<Note>)
    ensures Told(mirror, a + b) == Told(Told(mirror, a), b)
    decreases |b|
  {
    if b == [] {
      assert a + b == a;
    } else {
      assert (a + b)[..|a + b| - 1] == a + b[..|b| - 1];
      ToldAppend(mirror, a, b[..|b| - 1]);
    }
  }

  /** What a subscriber that started from the snapshot in state s has been told after a run. */
  ghost predicate AgreesAfter(s: State, ops: seq<Op>)
    requires Ok(s)
  {
    var t := Run(s, ops);
    s.notes <= t.notes && Agrees(Told(SnapshotOf(s), t.notes[|s.notes|..]), t)
    && forall n :: n in Told(SnapshotOf(s), t.notes[|s.notes|..]) ==> n in t.values
  }

  /** What a signal reads as under a registration's conditioning: the given one, or, when none is given, the present
      one. */
  function ReadUnder(s: State, name: string, invert: bool, scale: real): int {
    Conditioned(if invert || scale != 1.0 then Some(Cond(invert, scale)) else CondOf(s, name), Raw(s, name))
  }

  /** If the operation is a registration that is accepted, the signal's present value reads the same under its
      conditioning. */
  predicate KeepsReading(s: State, op: Op) {
    (op.Registers? && (op.name in s.owners ==> op.owner <= s.owners[op.name])) ==>
      ReadUnder(s, op.name, op.invert, op.scale) == ReadOf(s, op.name)
  }

  lemma RegistrationReads(s: State, op: Op)
    requires Ok(s) && op.Registers?
    ensures ReadOf(Step(s, op), op.name) == ReadOf(s, op.name) <==> KeepsReading(s, op)
  {
    hide Conditioned;
  }

  /** Operation k of a run is no registration that changes a reading. */
  predicate KeepsReadingAt(s: State, ops: seq<Op>, k: nat)
    requires Ok(s) && k < |ops|
  {
    KeepsReading(Run(s, ops[..k]), ops[k])
  }

  lemma StepKeepsReading(s: State, op: Op)
    requires Ok(s)
    ensures KeepsReading(s, op) <==> (op.Registers? ==> ReadOf(Step(s, op), op.name) == ReadOf(s, op.name))
  {
    hide Step, ReadOf, ReadUnder;
    if op.Registers? {
      RegistrationReads(s, op);
    }
  }

  lemma AgreesOneMore(s: State, ops: seq<Op>, k: nat)
    requires Ok(s) && k < |ops| && AgreesAfter(s, ops[..k])
    ensures AgreesAfter(s, ops[..k + 1]) <==> KeepsReadingAt(s, ops, k)
  {
    hide Step, Agrees, Run, ReadOf, KeepsReading, SnapshotOf, Told;
    var r := Run(s, ops[..k]);
    RunLast(s, ops[..k + 1]);
    assert ops[..k + 1][..k] == ops[..k];
    var t := Step(r, ops[k]);
    var mirror := Told(SnapshotOf(s), r.notes[|s.notes|..]);
    StepKeepsReading(r, ops[k]);
    StepAgreesIff(mirror, r, ops[k]);
    ToldAppend(SnapshotOf(s), r.notes[|s.notes|..], t.notes[|r.notes|..]);
    SliceAppend(s.notes, r.notes, t.notes);
  }

  lemma SliceAppend(a: seq<Note>, b: seq<Note>, c: seq<Note>)
    requires a <= b <= c
    ensures a <= c && c[|a|..] == b[|a|..] + c[|b|..]
  {
    assert b == c[..|b|];
  }

  lemma AgreesAtStart(s: State, ops: seq<Op>)
    requires Ok(s)
    ensures AgreesAfter(s, ops[..0])
  {}

  /** A mirror is right at every point of a run exactly if no registration that is accepted in it gives its signal a
      conditioning under which the value of that moment reads differently. */
  lemma MirrorAgreesIff(s: State, ops: seq<Op>)
    requires Ok(s)
    ensures (forall k :: 0 <= k <= |ops| ==> AgreesAfter(s, ops[..k]))
       <==> (forall k :: 0 <= k < |ops| ==> KeepsReadingAt(s, ops, k))
  {
    hide AgreesAfter, KeepsReadingAt;
    if forall k :: 0 <= k < |ops| ==> KeepsReadingAt(s, ops, k) {
      for i := 0 to |ops| + 1
        invariant forall k :: 0 <= k < i ==> AgreesAfter(s, ops[..k])
      {
        if i == 0 {
          AgreesAtStart(s, ops);
        } else {
          AgreesOneMore(s, ops, i - 1);
        }
      }
    }
    if forall k :: 0 <= k <= |ops| ==> AgreesAfter(s, ops[..k]) {
      forall k | 0 <= k < |ops| ensures KeepsReadingAt(s, ops, k) {
        AgreesOneMore(s, ops, k);
      }
    }
  }

  // ---- Recording and replaying ------------------------------------------------------------------------

  const OWNER := "pci.iobus"

  /** A recording is the notifications of a run; replaying writes each value back as the driver. */
  function Replayed(events: seq<Note>): seq<Op> {
    seq(|events|, i requires 0 <= i < |events| => Writes(events[i].name, events[i].value, OWNER))
  }

  /** The value that an event finds: that of the last event before it on its signal, or the initial one. */
  function Found(events: seq<Note>, values: map<string, int>, name: string): int {
    if events == [] then (if name in values then values[name] else 0)
    else if events[|events| - 1].name == name then events[|events| - 1].value
    else Found(events[..|events| - 1], values, name)
  }

  predicate Changes(events: seq<Note>, values: map<string, int>, k: nat)
    requires k < |events|
  {
    events[k].value != Found(events[..k], values, events[k].name)
  }

  /** The driver may write all the signals of a recording. */
  predicate Replayable(s: State, events: seq<Note>) {
    forall i :: 0 <= i < |events| ==> MayWrite(s, events[i].name, "pci.iobus")
  }

  lemma {:induction false} ReplayLast(s: State, events: seq<Note>)
    requires Ok(s) && Replayable(s, events)
    ensures var t := Run(s, Replayed(events));
            && t.owners == s.owners && t.cond == s.cond && s.notes <= t.notes
            && |t.notes| <= |s.notes| + |events|
            && (forall n :: n in t.values ==> t.values[n] == Found(events, s.values, n))
    decreases |events|
  {
    hide Run, Conditioned;
    if events == [] {
      NothingRun(s);
      assert Replayed(events) == [];
    } else {
      var n := |events| - 1;
      ReplayLast(s, events[..n]);
      RunLast(s, Replayed(events));
      assert Replayed(events)[..n] == Replayed(events[..n]);
    }
  }

  method Replay(table: Table, events: seq<Note>)
    requires table.Valid()
    modifies table
    ensures table.Valid()
    ensures table.Now() == Run(old(table.Now()), Replayed(events))
  {
    hide Run, Step;
    NothingRun(table.Now());
    for i := 0 to |events|
      invariant table.Valid()
      invariant table.Now() == Run(old(table.Now()), Replayed(events)[..i])
    {
      RunLast(old(table.Now()), Replayed(events)[..i + 1]);
      assert Replayed(events)[..i + 1][..i] == Replayed(events)[..i];
      ghost var s := table.Now();
      var ok := table.Write(events[i].name, events[i].value, OWNER);
      WriteStep(s, events[i]);
    }
    assert Replayed(events)[..|events|] == Replayed(events);
  }

  lemma WriteStep(s: State, e: Note)
    requires Ok(s)
    ensures Step(s, Writes(e.name, e.value, OWNER)) == AfterWrite(s, e.name, e.value, OWNER)
  {}

  lemma NothingRun(s: State)
    requires Ok(s)
    ensures Run(s, []) == s
  {}

  ghost predicate Faithful(s: State, events: seq<Note>)
    requires Ok(s)
  {
    Run(s, Replayed(events)).notes == s.notes + events
  }

  lemma ReplayOne(s: State, e: Note)
    requires Ok(s) && MayWrite(s, e.name, OWNER)
    ensures Step(s, Writes(e.name, e.value, OWNER)).notes
         == s.notes
              + (if s.values[e.name] == e.value then [] else [Note(e.name, Conditioned(CondOf(s, e.name), e.value))])
  {
    hide Conditioned;
    assert s.notes + [] == s.notes;
  }

  /** A recording replays as it was exactly if conditioning leaves its values as they are and every event changes its
      signal. */
  lemma {:induction false} ReplayFaithfulIff(s: State, events: seq<Note>)
    requires Ok(s) && Replayable(s, events)
    ensures Faithful(s, events)
       <==> forall k :: 0 <= k < |events|
              ==> Changes(events, s.values, k)
                   && Conditioned(CondOf(s, events[k].name), events[k].value) == events[k].value
    decreases |events|
  {
    hide Run, Step, Conditioned, Found;
    if events == [] {
      NothingRun(s);
      assert Replayed(events) == [] && s.notes + events == s.notes;
    } else {
      var n := |events| - 1;
      var e := events[n];
      ReplayFaithfulIff(s, events[..n]);
      ReplayLast(s, events[..n]);
      RunLast(s, Replayed(events));
      assert Replayed(events)[..n] == Replayed(events[..n]);
      var r := Run(s, Replayed(events[..n]));
      var t := Run(s, Replayed(events));
      ReplayOne(r, e);
      assert forall k :: 0 <= k < n ==> events[..n][..k] == events[..k];
      assert forall k :: 0 <= k < n ==> (Changes(events[..n], s.values, k) <==> Changes(events, s.values, k));
      assert events == events[..n] + [e];
      if Faithful(s, events) {
        assert |t.notes| == |s.notes| + n + 1;
        assert r.notes == t.notes[..|s.notes| + n] == s.notes + events[..n];
      }
      if Faithful(s, events[..n]) {
        assert s.notes + events[..n] + [e] == s.notes + events;
      }
    }
  }

  /** The recorder's filter; an empty one lets every signal pass. */
  predicate Passes(filter: set<string>, name: string) {
    filter == {} || name in filter
  }

  /** What the recorder writes down of the notifications. */
  function Filtered(notes: seq<Note>, filter: set<string>): seq<Note> {
    if notes == [] then []
    else
      var last := notes[|notes| - 1];
      Filtered(notes[..|notes| - 1], filter) + (if Passes(filter, last.name) then [last] else [])
  }

  /** Without a filter everything is recorded; with one, exactly the notifications of the signals named, as often as
      they came. */
  lemma {:induction false} RecordedAre(notes: seq<Note>, filter: set<string>)
    ensures filter == {} ==> Filtered(notes, filter) == notes
    ensures forall e :: multiset(Filtered(notes, filter))[e]
                     == if filter == {} || e.name in filter then multiset(notes)[e] else 0
    decreases |notes|
  {
    if notes != [] {
      var front, last := notes[..|notes| - 1], notes[|notes| - 1];
      RecordedAre(front, filter);
      assert notes == front + [last];
    }
  }

  method Record(notes: seq<Note>, filter: set<string>) returns (lines: seq<Note>)
    ensures lines == Filtered(notes, filter)
  {
    lines := [];
    for i := 0 to |notes|
      invariant lines == Filtered(notes[..i], filter)
    {
      assert notes[..i + 1][..i] == notes[..i];
      if !(filter != {} && notes[i].name !in filter) {
        lines := lines + [notes[i]];
      }
    }
    assert notes[..|notes|] == notes;
  }

  /** No signal that is recorded is ever conditioned. */
  ghost predicate Plain(s: State, ops: seq<Op>, filter: set<string>) {
    && (forall n :: Passes(filter, n) ==> n !in s.cond)
    && (forall i :: 0 <= i < |ops| && ops[i].Registers? && Passes(filter, ops[i].name)
          ==> !ops[i].invert && ops[i].scale == 1.0)
  }

  /** The recording of a run from s to t. */
  function Recording(s: State, t: State, filter: set<string>): seq<Note>
    requires s.notes <= t.notes
  {
    Filtered(t.notes[|s.notes|..], filter)
  }

  ghost predicate Recorded(s: State, t: State, filter: set<string>) {
    && s.notes <= t.notes
    && (forall n :: Passes(filter, n) ==> n !in t.cond && Found(Recording(s, t, filter), s.values, n) == Raw(t, n))
    && (forall k :: 0 <= k < |Recording(s, t, filter)| ==> Changes(Recording(s, t, filter), s.values, k))
    && (forall e :: e in Recording(s, t, filter) ==> Passes(filter, e.name))
  }

  lemma RecordStep(s: State, t: State, op: Op, filter: set<string>)
    requires Ok(t) && Recorded(s, t, filter)
    requires op.Registers? && Passes(filter, op.name) ==> !op.invert && op.scale == 1.0
    ensures Recorded(s, Step(t, op), filter)
  {
    hide Conditioned, Passes, Filtered, Found, Changes;
    var u := Step(t, op);
    if u.notes == t.notes {
      StepKeepsRaw(t, op);
    } else {
      PlainReads(op.value);
      var e := Note(op.name, Conditioned(CondOf(t, op.name), op.value));
      FilterOneMore(s, t, u, e, filter);
      if Passes(filter, e.name) {
        RecordOne(s, t, Recording(s, t, filter), e, filter);
      } else {
        assert Recording(s, u, filter) == Recording(s, t, filter);
      }
    }
  }

  lemma StepKeepsRaw(t: State, op: Op)
    requires Ok(t) && Step(t, op).notes == t.notes
    ensures forall n :: Raw(Step(t, op), n) == Raw(t, n)
  {
    hide Conditioned;
  }

  lemma FilterOneMore(s: State, t: State, u: State, e: Note, filter: set<string>)
    requires s.notes <= t.notes && u.notes == t.notes + [e]
    ensures s.notes <= u.notes
    ensures Recording(s, u, filter) == Recording(s, t, filter) + (if Passes(filter, e.name) then [e] else [])
  {
    hide Passes;
    var notes := u.notes[|s.notes|..];
    assert notes[..|notes| - 1] == t.notes[|s.notes|..];
    assert notes[|notes| - 1] == e;
  }

  lemma RecordOne(s: State, t: State, before: seq<Note>, e: Note, filter: set<string>)
    requires Ok(t) && Recorded(s, t, filter) && before == Recording(s, t, filter) && Passes(filter, e.name)
        && Raw(t, e.name) != e.value
    ensures var after := before + [e];
            && (forall n :: Passes(filter, n)
                  ==> Found(after, s.values, n) == if n == e.name then e.value else Raw(t, n))
            && (forall k :: 0 <= k < |after| ==> Changes(after, s.values, k))
  {
    hide Passes, Filtered;
    var after := before + [e];
    var n := |before|;
    assert after[..n] == before;
    forall k | 0 <= k < |after| ensures Changes(after, s.values, k) {
      if k < n {
        assert Changes(before, s.values, k);
        assert after[..k] == before[..k];
      }
    }
  }

  lemma PlainReads(v: int)
    ensures Conditioned(None, v) == v
  {}

  lemma {:induction false} RunRecorded(s: State, ops: seq<Op>, filter: set<string>)
    requires Ok(s) && Plain(s, ops, filter)
    ensures Recorded(s, Run(s, ops), filter)
    decreases |ops|
  {
    hide Step, Recorded, Passes;
    if ops == [] {
      NothingRun(s);
      NothingRecorded(s, filter);
    } else {
      RunRecorded(s, ops[..|ops| - 1], filter);
      RunLast(s, ops);
      RecordStep(s, Run(s, ops[..|ops| - 1]), ops[|ops| - 1], filter);
    }
  }

  lemma NothingRecorded(s: State, filter: set<string>)
    requires forall n :: Passes(filter, n) ==> n !in s.cond
    ensures Recorded(s, s, filter)
  {
    assert s.notes[|s.notes|..] == [];
  }

  lemma {:induction false} FoundSame(events: seq<Note>, a: map<string, int>, b: map<string, int>, name: string)
    requires (if name in a then a[name] else 0) == (if name in b then b[name] else 0)
    ensures Found(events, a, name) == Found(events, b, name)
    decreases |events|
  {
    if events != [] {
      FoundSame(events[..|events| - 1], a, b, name);
    }
  }

  lemma {:induction false} NotesGrow(s: State, ops: seq<Op>)
    requires Ok(s)
    ensures s.notes <= Run(s, ops).notes
    decreases |ops|
  {
    hide Step;
    if ops != [] {
      StepNotes(s, ops[0]);
      NotesGrow(Step(s, ops[0]), ops[1..]);
    }
  }

  /** A recording of any run replays as it was, if the recorded signals are not conditioned, neither then nor on the
      table it is replayed on, and start there where they started. */
  lemma RecordingReplays(s: State, ops: seq<Op>, filter: set<string>, r: State)
    requires Ok(s) && Plain(s, ops, filter) && Ok(r)
    requires forall n :: Passes(filter, n) ==> CondOf(r, n) == None && Raw(r, n) == Raw(s, n)
    ensures s.notes <= Run(s, ops).notes
    ensures var events := Recording(s, Run(s, ops), filter); Replayable(r, events) ==> Faithful(r, events)
  {
    hide Faithful, Conditioned, Found, Run, Passes, Filtered;
    NotesGrow(s, ops);
    RunRecorded(s, ops, filter);
    var events := Recording(s, Run(s, ops), filter);
    forall k | 0 <= k < |events|
      ensures Changes(events, r.values, k) && Conditioned(CondOf(r, events[k].name), events[k].value) == events[k].value
    {
      assert Changes(events, s.values, k);
      assert events[k] in events;
      FoundSame(events[..k], s.values, r.values, events[k].name);
      PlainReads(events[k].value);
    }
    if Replayable(r, events) {
      ReplayFaithfulIff(r, events);
    }
  }

  /** Of all values a scaled inversion keeps at most 1, and that exactly if it scales it to 0. */
  lemma InvertedKeepsIff(scale: real, v: int)
    ensures Conditioned(Some(Cond(true, scale)), v) == v <==> v == 1 && -1.0 < scale < 1.0
  {
    if v == 0 {
      assert 0 as real * scale == 0.0;
    } else if v == 1 {
      assert 1 as real * scale == scale;
    }
  }

  lemma {:induction false} FoundIsOne(events: seq<Note>, values: map<string, int>, name: string, i: nat)
    requires i < |events| && events[i].name == name
    ensures exists j :: 0 <= j < |events| && events[j].name == name && events[j].value == Found(events, values, name)
    decreases |events|
  {
    var n := |events| - 1;
    if events[n].name != name {
      FoundIsOne(events[..n], values, name, i);
      var j :| 0 <= j < n && events[..n][j].name == name && events[..n][j].value == Found(events[..n], values, name);
      assert events[j] == events[..n][j];
    }
  }

  /** In a recording that replays as it was, a signal that the table inverts occurs at most once, with value 1, and is
      scaled by less than one. */
  lemma InvertedReplaysOnce(s: State, events: seq<Note>, k: nat, scale: real)
    requires Ok(s) && Replayable(s, events) && k < |events| && Faithful(s, events)
    requires CondOf(s, events[k].name) == Some(Cond(true, scale))
    ensures events[k].value == 1 && -1.0 < scale < 1.0
    ensures forall j :: 0 <= j < |events| && events[j].name == events[k].name ==> j == k
  {
    hide Faithful, Found, Conditioned;
    ReplayFaithfulIff(s, events);
    forall i | 0 <= i < |events| && events[i].name == events[k].name
      ensures events[i].value == 1 && -1.0 < scale < 1.0
    {
      InvertedKeepsIff(scale, events[i].value);
    }
    forall j | 0 <= j < |events| && events[j].name == events[k].name ensures j == k {
      RepeatChangesNothing(events, s.values, if j < k then j else k, if j < k then k else j);
    }
  }

  lemma RepeatChangesNothing(events: seq<Note>, values: map<string, int>, i: nat, j: nat)
    requires i <= j < |events| && events[i].name == events[j].name
    requires forall n :: 0 <= n < |events| && events[n].name == events[j].name ==> events[n].value == events[j].value
    ensures i < j ==> !Changes(events, values, j)
  {
    hide Found;
    if i < j {
      FoundIsOne(events[..j], values, events[j].name, i);
    }
  }

  /** So a recording of one inverted signal replays as it was exactly if it is a single change to 1, and the scale is
      less than one. */
  lemma InvertedReplaysIff(s: State, events: seq<Note>, name: string, scale: real)
    requires Ok(s) && Replayable(s, events) && events != [] && forall i :: 0 <= i < |events| ==> events[i].name == name
    requires CondOf(s, name) == Some(Cond(true, scale))
    ensures Faithful(s, events)
       <==> |events| == 1 && events[0].value == 1 && s.values[name] != 1 && -1.0 < scale < 1.0
  {
    hide Faithful, Conditioned;
    ReplayFaithfulIff(s, events);
    InvertedKeepsIff(scale, events[0].value);
    assert events[..0] == [];
    assert Changes(events, s.values, 0) <==> events[0].value != s.values[name];
    var last := |events| - 1;
    assert events[last].name == events[0].name;
    if Faithful(s, events) {
      InvertedReplaysOnce(s, events, 0, scale);
    }
  }

  /** No recording with a signal that the table inverts, and does not scale down, replays as it was: what was recorded
      is inverted already. */
  lemma InvertedNeverReplays(s: State, events: seq<Note>, k: nat, scale: real)
    requires Ok(s) && Replayable(s, events) && k < |events|
    requires CondOf(s, events[k].name) == Some(Cond(true, scale)) && (scale <= -1.0 || scale >= 1.0)
    ensures !Faithful(s, events)
  {
    hide Faithful;
    if Faithful(s, events) {
      InvertedReplaysOnce(s, events, k, scale);
    }
  }
}
