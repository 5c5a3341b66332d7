/**
  Reply By Exception: the sender of INFORMs about changed reply signals, as a state machine over its
  callbacks, the two halves of its send loop, between which the lock is released, and its keep-alive.

  What is waiting, being sent and recorded as sent is the sender's side; what the instation was told is kept
  beside it, place by place.  AcknowledgedTracks and PromptRunTells say, from the events of a run alone, when
  no change is lost and when the instation knows the latest values; StepTracksIff and StepLosslessIff are the
  exact conditions of one step behind them, and HoldoffIff decides the holdoff.
 */
module Rbe {
  import opened Bytes
  import opened RbeReport
  import Ber

  // ---- State and steps ---------------------------------------------------------------------------

  /** What becomes of an INFORM: there is no instation to send it to, no attempt is acknowledged, though the instation
      may have received one, or one is acknowledged. */
  datatype Outcome = NoInstation | Unacknowledged(received: bool) | Acknowledged

  datatype State = State(
    pending: Values,              // changes waiting to be sent
    inFlight: Values,             // the batch that the send loop has taken
    lastSent: Values,             // what the sender takes the instation to know
    lastInform: map<string, int>, // per SCN, when
    informed: int,                // when the last INFORM was acknowledged
    depth: int,                   // the notification backlog, shared with the watchdog
    told: map<Place, int>,        // what the instation was told last, per place
    sending: bool,                // whether the thread of the send loop is running
    keeping: bool)                // whether that of the keep-alive is

  const START := State(map[], map[], map[], map[], 0, 0, map[], true, true)

  function OnBusChange(m: Mapping, s: State, opMode: int, name: string, value: int): State {
    if !Mapped(m, name) || opMode < 2 || IsVsn(m, name) then s
    else s.(pending := s.pending[name := value])
  }

  /** The first half of a send-loop pass. */
  function TakeBatch(s: State, opMode: int): State {
    if opMode < 2 then s.(pending := map[]) else s.(pending := map[], inFlight := s.pending)
  }

  function Changed(s: State): Values {
    map n | n in s.inFlight && !(n in s.lastSent && s.lastSent[n] == s.inFlight[n]) :: s.inFlight[n]
  }

  predicate HeldOff(lastInform: map<string, int>, group: Group, holdoff: int, now: int) {
    holdoff > 0 && now - (if group.scn in lastInform then lastInform[group.scn] else 0) < holdoff
  }

  predicate AnyHeld(lastInform: map<string, int>, groups: seq<Group>, holdoff: int, now: int) {
    exists g :: g in groups && HeldOff(lastInform, g, holdoff, now)
  }

  predicate Blocked(m: Mapping, s: State, holdoff: int, now: int) {
    AnyHeld(s.lastInform, Groups(m, Changed(s)), holdoff, now)
  }

  function Stamped(lastInform: map<string, int>, groups: seq<Group>, now: int): map<string, int> {
    if groups == [] then lastInform
    else Stamped(lastInform, groups[..|groups| - 1], now)[groups[|groups| - 1].scn := now]
  }

  function Places(m: Mapping): set<Place> {
    set k, i, j | 0 <= k < |m| && 0 <= i < |m[k].fields| && 0 <= j < |m[k].fields[i].bits| :: Place(k, i, j)
  }

  /** The place is told by an INFORM about those signals. */
  predicate IsTold(m: Mapping, signals: Values, p: Place)
    requires IsPlace(m, p)
  {
    Reportable(m, p) && FieldIn(FieldOf(m, p), signals)
  }

  /** What an INFORM about those signals tells, with the values on the bus when it is built. */
  function Tells(m: Mapping, signals: Values, bus: Values): map<Place, int> {
    map p | p in Places(m) && IsPlace(m, p) && IsTold(m, signals, p) ::
      ShownAt(m, p, BusValue(bus, SignalAt(m, p).name))
  }

  /** An INFORM about the given signals; its values are those on the bus. */
  function SendInform(m: Mapping, s: State, signals: Values, bus: Values, now: int, outcome: Outcome): State {
    match outcome
    case NoInstation => s
    case Unacknowledged(received) =>
      s.(depth := s.depth + 1, told := if received then s.told + Tells(m, signals, bus) else s.told)
    case Acknowledged =>
      s.(lastInform := Stamped(s.lastInform, Groups(m, signals), now),
         informed := now,
         lastSent := s.lastSent + Union(Groups(m, signals)),
         depth := if s.depth > 0 then s.depth - 1 else 0,
         told := s.told + Tells(m, signals, bus))
  }

  /** Building the INFORM fails, or does not come to an end: the thread that tried it never sends again. */
  predicate Fails(m: Mapping, signals: Values, bus: Values, outcome: Outcome) {
    outcome != NoInstation && !Builds(m, signals, bus)
  }

  /** A batch goes back if one of its groups is held off; otherwise it is sent. */
  function HeldOrSent(m: Mapping, s: State, signals: Values, holdoff: int, now: int, outcome: Outcome,
        bus: Values): State {
    if AnyHeld(s.lastInform, Groups(m, signals), holdoff, now) then s.(pending := s.pending + signals)
    else if Fails(m, signals, bus, outcome) then s.(sending := false)
    else SendInform(m, s, signals, bus, now, outcome)
  }

  /** The second half: filter out what was sent already, hold off or send. */
  function FinishBatch(m: Mapping, s: State, holdoff: int, now: int, outcome: Outcome, bus: Values): State {
    var t := s.(inFlight := map[]);
    if Changed(s) == map[] || Groups(m, Changed(s)) == [] then t
    else HeldOrSent(m, t, Changed(s), holdoff, now, outcome, bus)
  }

  function BitValues(bits: seq<(nat, Signal)>, bus: Values): Values {
    if bits == [] then map[]
    else var last := |bits| - 1; BitValues(bits[..last], bus)[bits[last].1.name := ReadSignal(bus, bits[last].1)]
  }

  function FieldValues(fields: seq<FieldMap>, bus: Values): Values {
    if fields == [] then map[]
    else FieldValues(fields[..|fields| - 1], bus) + BitValues(fields[|fields| - 1].bits, bus)
  }

  /** The values the keep-alive collects: every mapped signal, as read through the mapping. */
  function AllSignals(m: Mapping, bus: Values): Values {
    if m == [] then map[] else AllSignals(m[..|m| - 1], bus) + FieldValues(m[|m| - 1].fields, bus)
  }

  lemma {:induction false} BitValuesMapped(bits: seq<(nat, Signal)>, bus: Values, name: string)
    ensures name in BitValues(bits, bus) <==> exists j :: 0 <= j < |bits| && bits[j].1.name == name
  {
    if bits != [] {
      BitValuesMapped(bits[..|bits| - 1], bus, name);
    }
  }

  lemma {:induction false} FieldValuesMapped(fields: seq<FieldMap>, bus: Values, name: string)
    ensures name in FieldValues(fields, bus) <==> exists i :: 0 <= i < |fields| && InField(fields[i], name)
  {
    if fields != [] {
      FieldValuesMapped(fields[..|fields| - 1], bus, name);
      BitValuesMapped(fields[|fields| - 1].bits, bus, name);
    }
  }

  /** The keep-alive collects exactly the mapped signals. */
  lemma {:induction false} AllSignalsMapped(m: Mapping, bus: Values, name: string)
    ensures name in AllSignals(m, bus) <==> Mapped(m, name)
  {
    if m != [] {
      AllSignalsMapped(m[..|m| - 1], bus, name);
      FieldValuesMapped(m[|m| - 1].fields, bus, name);
    }
  }

  predicate KeepAliveDue(s: State, opMode: int, period: int, now: int) {
    opMode >= 2 && period > 0 && now - s.informed >= period
  }

  /** One pass of the keep-alive loop; it does not look at the holdoff. */
  function KeepAlive(m: Mapping, s: State, opMode: int, period: int, now: int, outcome: Outcome, bus: Values): State {
    var all := AllSignals(m, bus);
    if !KeepAliveDue(s, opMode, period, now) || all == map[] then s
    else if Fails(m, all, bus, outcome) then s.(keeping := false)
    else SendInform(m, s, all, bus, now, outcome)
  }

  // ---- Runs in the UTC modes ----------------------------------------------------------------------

  /** A bus callback, either half of a send-loop pass, or a keep-alive pass; the others may come between the halves.
      The bus is that of the moment when the varbinds are built. */
  datatype Event =
    | Change(name: string, value: int, opMode: int)
    | Take(opMode: int)
    | Finish(holdoff: int, now: int, outcome: Outcome, bus: Values)
    | Alive(opMode: int, period: int, now: int, outcome: Outcome, bus: Values)

  function Step(m: Mapping, s: State, e: Event): State {
    match e
    case Change(name, value, opMode) => OnBusChange(m, s, opMode, name, value)
    case Take(opMode) => if s.sending then TakeBatch(s, opMode) else s
    case Finish(holdoff, now, outcome, bus) => if s.sending then FinishBatch(m, s, holdoff, now, outcome, bus) else s
    case Alive(opMode, period, now, outcome, bus) =>
      if s.keeping then KeepAlive(m, s, opMode, period, now, outcome, bus) else s
  }

  function Run(m: Mapping, s: State, events: seq<Event>): State
    decreases |events|
  {
    if events == [] then s else Run(m, Step(m, s, events[0]), events[1..])
  }

  /** The signals that the INFORM of a step is about, if the step sends one. */
  function SentAbout(m: Mapping, s: State, e: Event): Values {
    match e
    case Finish(holdoff, now, outcome, bus) =>
      if s.sending && !Blocked(m, s, holdoff, now) && !Fails(m, Changed(s), bus, outcome) then Changed(s) else map[]
    case Alive(opMode, period, now, outcome, bus) =>
      if s.keeping && KeepAliveDue(s, opMode, period, now) && !Fails(m, AllSignals(m, bus), bus, outcome)
          then AllSignals(m, bus)
      else map[]
    case _ => map[]
  }

  /** The signals the sender watches. */
  predicate Watched(m: Mapping, name: string) {
    Mapped(m, name) && !IsVsn(m, name)
  }

  /** The latest value observed of every signal the sender watches, in whatever mode. */
  function Observe(m: Mapping, observed: Values, e: Event): Values {
    if e.Change? && Watched(m, e.name) then observed[e.name := e.value] else observed
  }

  function Observed(m: Mapping, observed: Values, events: seq<Event>): Values
    decreases |events|
  {
    if events == [] then observed else Observed(m, Observe(m, observed, events[0]), events[1..])
  }

  // ---- What the sender keeps track of -----------------------------------------------------------------

  /** Everything that is waiting is on record already. */
  predicate AllRecorded(s: State) {
    forall n :: n in s.pending ==> n in s.lastSent && s.lastSent[n] == s.pending[n]
  }

  /** The value v of signal n is waiting, being sent, or recorded as sent. */
  predicate Tracked(s: State, n: string, v: int) {
    if n in s.pending then s.pending[n] == v
    else if n in s.inFlight then s.inFlight[n] == v
    else n in s.lastSent && s.lastSent[n] == v
  }

  ghost predicate OnlyMapped(m: Mapping, s: State) {
    forall n :: n in s.pending || n in s.inFlight ==> Mapped(m, n)
  }

  ghost predicate AllTracked(m: Mapping, s: State, observed: Values) {
    && OnlyMapped(m, s)
    && (forall n :: n in s.pending || n in s.inFlight ==> n in observed)
    && (forall n :: n in observed ==> Tracked(s, n, observed[n]))
  }

  /** Whether finishing the batch keeps what is known about a signal of it that has to be sent: a held-off batch must
      not overwrite a newer value, and an unsent one is lost unless a newer value is waiting. */
  predicate Survives(m: Mapping, s: State, n: string, holdoff: int, now: int, outcome: Outcome, bus: Values)
    requires n in Changed(s)
  {
    if Blocked(m, s, holdoff, now) then n in s.pending ==> s.pending[n] == s.inFlight[n]
    else (outcome == Acknowledged && Builds(m, Changed(s), bus)) || n in s.pending
  }

  /** A tracked signal stays tracked by finishing a batch exactly if the batch need not send it, or it survives. */
  lemma FinishTrackedIff(m: Mapping, s: State, holdoff: int, now: int, outcome: Outcome, bus: Values, n: string, v: int)
    requires OnlyMapped(m, s) && Tracked(s, n, v)
    ensures Tracked(FinishBatch(m, s, holdoff, now, outcome, bus), n, v)
       <==> n !in Changed(s) || Survives(m, s, n, holdoff, now, outcome, bus)
  {
    hide FinishBatch, AnyHeld, Mapped, Changed, Builds;
    ChangedInFlight(s);
    FinishRecords(m, s, holdoff, now, outcome, bus);
  }

  /** What finishing a batch makes of what is waiting, being sent and recorded. */
  lemma FinishRecords(m: Mapping, s: State, holdoff: int, now: int, outcome: Outcome, bus: Values)
    requires OnlyMapped(m, s)
    ensures var t := FinishBatch(m, s, holdoff, now, outcome, bus);
            && t.inFlight == map[]
            && t.pending == (if Blocked(m, s, holdoff, now) then s.pending + Changed(s) else s.pending)
            && t.lastSent == (if !Blocked(m, s, holdoff, now) && outcome == Acknowledged && Builds(m, Changed(s), bus)
                              then s.lastSent + Changed(s) else s.lastSent)
  {
    hide Groups, Union, AnyHeld, FinishBatch, HeldOrSent, Changed, Builds, OnlyMapped, Stamped;
    GroupsCoverChanges(m, s);
    FinishIs(m, s, holdoff, now, outcome, bus);
    AddNothing(s.pending);
    AddNothing(s.lastSent);
    BatchRecords(m, s.(inFlight := map[]), Changed(s), holdoff, now, outcome, bus);
    BatchKeeps(m, s.(inFlight := map[]), Changed(s), holdoff, now, outcome, bus);
  }

  lemma FinishIs(m: Mapping, s: State, holdoff: int, now: int, outcome: Outcome, bus: Values)
    requires OnlyMapped(m, s)
    ensures FinishBatch(m, s, holdoff, now, outcome, bus)
         == if Changed(s) == map[] then s.(inFlight := map[])
            else HeldOrSent(m, s.(inFlight := map[]), Changed(s), holdoff, now, outcome, bus)
  {
    hide Groups, HeldOrSent, Changed, OnlyMapped;
    GroupsCoverChanges(m, s);
  }

  lemma AddNothing(v: Values)
    ensures v + map[] == v
  {}

  /** A batch that is not held off is acknowledged. */
  predicate BatchRecorded(m: Mapping, s: State, signals: Values, holdoff: int, now: int, outcome: Outcome,
        bus: Values) {
    !AnyHeld(s.lastInform, Groups(m, signals), holdoff, now) && outcome == Acknowledged && Builds(m, signals, bus)
  }

  lemma BatchRecords(m: Mapping, s: State, signals: Values, holdoff: int, now: int, outcome: Outcome, bus: Values)
    ensures var t := HeldOrSent(m, s, signals, holdoff, now, outcome, bus);
            if BatchRecorded(m, s, signals, holdoff, now, outcome, bus)
            then t.lastSent == s.lastSent + Union(Groups(m, signals)) && t.informed == now
                 && t.lastInform == Stamped(s.lastInform, Groups(m, signals), now)
            else t.lastSent == s.lastSent && t.lastInform == s.lastInform && t.informed == s.informed
  {
    hide Groups, Union, AnyHeld, SendInform, Builds, Stamped;
    if AnyHeld(s.lastInform, Groups(m, signals), holdoff, now) {
    } else if Fails(m, signals, bus, outcome) {
    } else {
      InformRecords(m, s, signals, bus, now, outcome);
    }
  }

  lemma BatchKeeps(m: Mapping, s: State, signals: Values, holdoff: int, now: int, outcome: Outcome, bus: Values)
    ensures var t, held := HeldOrSent(m, s, signals, holdoff, now, outcome, bus),
        AnyHeld(s.lastInform, Groups(m, signals), holdoff, now);
            && t.inFlight == s.inFlight
            && t.pending == (if held then s.pending + signals else s.pending)
            && (t.sending <==> s.sending && (held || !Fails(m, signals, bus, outcome)))
  {
    hide Groups, AnyHeld, SendInform, Fails, RecordAfter, Stamped;
    if AnyHeld(s.lastInform, Groups(m, signals), holdoff, now) {
    } else if Fails(m, signals, bus, outcome) {
    } else {
      InformRecords(m, s, signals, bus, now, outcome);
    }
  }

  /** An INFORM changes nothing that is waiting or being sent, and the record by what it is about, if it is
      acknowledged. */
  lemma InformRecords(m: Mapping, s: State, signals: Values, bus: Values, now: int, outcome: Outcome)
    ensures var t := SendInform(m, s, signals, bus, now, outcome);
            && t.pending == s.pending && t.inFlight == s.inFlight && t.lastSent == RecordAfter(m, s, signals, outcome)
            && t.lastInform
                 == (if outcome == Acknowledged then Stamped(s.lastInform, Groups(m, signals), now) else s.lastInform)
            && t.informed == (if outcome == Acknowledged then now else s.informed)
            && t.sending == s.sending && t.keeping == s.keeping
  {
    hide Groups, Union, Tells, Stamped;
  }

  /** The groups of a batch hold exactly its changed signals. */
  lemma GroupsCoverChanges(m: Mapping, s: State)
    requires OnlyMapped(m, s)
    ensures Union(Groups(m, Changed(s))) == Changed(s)
    ensures Groups(m, Changed(s)) == [] ==> Changed(s) == map[]
  {
    hide Groups, Mapped;
    UnionOfGroups(m, Changed(s));
  }

  /** The signal is somewhere in the mapping. */
  ghost predicate HasPlace(m: Mapping, name: string) {
    exists p :: IsPlace(m, p) && SignalAt(m, p).name == name
  }

  /** It is in a field for SCOOT detectors. */
  ghost predicate HasVsnPlace(m: Mapping, name: string) {
    exists p :: IsPlace(m, p) && SignalAt(m, p).name == name && FieldOf(m, p).field == VSn
  }

  lemma PlacesMean(m: Mapping, name: string)
    ensures HasPlace(m, name) <==> Mapped(m, name)
    ensures HasVsnPlace(m, name) <==> IsVsn(m, name)
  {
    hide Mapped, IsVsn;
    if p :| IsPlace(m, p) && SignalAt(m, p).name == name {
      PlaceIsMapped(m, p);
    }
    if p :| IsPlace(m, p) && SignalAt(m, p).name == name && FieldOf(m, p).field == VSn {
      VsnPlace(m, p);
    }
    if Mapped(m, name) {
      var p := PlaceOfMapped(m, name);
    }
    if IsVsn(m, name) {
      var p := PlaceOfVsn(m, name);
    }
  }

  lemma VsnPlace(m: Mapping, p: Place)
    requires IsPlace(m, p) && FieldOf(m, p).field == VSn
    ensures IsVsn(m, SignalAt(m, p).name)
  {
    assert InField(m[p.scn].fields[p.field], SignalAt(m, p).name);
  }

  lemma PlaceOfMapped(m: Mapping, name: string) returns (p: Place)
    requires Mapped(m, name)
    ensures IsPlace(m, p) && SignalAt(m, p).name == name
  {
    var k :| 0 <= k < |m| && InScn(m[k], name);
    var i :| 0 <= i < |m[k].fields| && InField(m[k].fields[i], name);
    var j :| 0 <= j < |m[k].fields[i].bits| && m[k].fields[i].bits[j].1.name == name;
    p := Place(k, i, j);
  }

  lemma PlaceOfVsn(m: Mapping, name: string) returns (p: Place)
    requires IsVsn(m, name)
    ensures IsPlace(m, p) && SignalAt(m, p).name == name && FieldOf(m, p).field == VSn
  {
    var k, i :| 0 <= k < |m| && 0 <= i < |m[k].fields| && m[k].fields[i].field == VSn
                && InField(m[k].fields[i], name);
    var j :| 0 <= j < |m[k].fields[i].bits| && m[k].fields[i].bits[j].1.name == name;
    p := Place(k, i, j);
  }

  /** After a callback, in whatever mode, the signal waits with the new value exactly if the mode is a UTC mode and the
      signal is mapped, but not to a SCOOT detector, or it waited with that value already; nothing else differs. */
  lemma CallbackIff(m: Mapping, s: State, opMode: int, name: string, value: int)
    ensures var t := OnBusChange(m, s, opMode, name, value);
            var stored := HasPlace(m, name) && !HasVsnPlace(m, name) && opMode >= 2;
            && (name in t.pending && t.pending[name] == value
               <==> stored || (name in s.pending && s.pending[name] == value))
            && (!stored ==> t.pending == s.pending)
            && (forall n :: n != name ==>
                  (n in t.pending <==> n in s.pending) && (n in s.pending ==> t.pending[n] == s.pending[n]))
            && t == s.(pending := t.pending)
  {
    hide Mapped, IsVsn, HasPlace, HasVsnPlace;
    PlacesMean(m, name);
  }

  /** Taking a batch loses nothing in UTC modes, and everything not yet sent otherwise. */
  lemma TakeTrackedIff(s: State, opMode: int, n: string, v: int)
    requires s.inFlight == map[] && Tracked(s, n, v)
    ensures Tracked(TakeBatch(s, opMode), n, v)
       <==> opMode >= 2 || n !in s.pending || (n in s.lastSent && s.lastSent[n] == v)
  {}

  /** An acknowledged keep-alive keeps a signal tracked exactly if something newer is under way, or it records the value
      that was recorded before. */
  predicate KeepsRecord(m: Mapping, s: State, n: string, bus: Values) {
    n in s.pending || n in s.inFlight || n !in AllSignals(m, bus)
        || (n in s.lastSent && s.lastSent[n] == AllSignals(m, bus)[n])
  }

  /** A keep-alive is sent and acknowledged. */
  predicate AliveRecorded(m: Mapping, s: State, opMode: int, period: int, now: int, outcome: Outcome, bus: Values) {
    KeepAliveDue(s, opMode, period, now) && outcome == Acknowledged && Builds(m, AllSignals(m, bus), bus)
  }

  lemma AliveTrackedIff(m: Mapping, s: State, opMode: int, period: int, now: int, outcome: Outcome, bus: Values,
        n: string, v: int)
    requires Tracked(s, n, v)
    ensures Tracked(KeepAlive(m, s, opMode, period, now, outcome, bus), n, v)
       <==> (AliveRecorded(m, s, opMode, period, now, outcome, bus) ==> KeepsRecord(m, s, n, bus))
  {
    hide Groups, Union, AllSignals, SendInform, Stamped, Builds;
    AllSignalsMapped(m, bus, n);
    InformRecords(m, s, AllSignals(m, bus), bus, now, outcome);
    UnionOfGroups(m, AllSignals(m, bus));
  }

  // ---- What the instation knows -------------------------------------------------------------------------

  /** At every place the instation was told what is recorded as sent. */
  ghost predicate RecordIsTold(m: Mapping, s: State) {
    forall p :: IsPlace(m, p) && Reportable(m, p) && SignalAt(m, p).name in s.lastSent
      ==> p in s.told && s.told[p] == ShownAt(m, p, s.lastSent[SignalAt(m, p).name])
  }

  /** The record after an INFORM about the given signals. */
  function RecordAfter(m: Mapping, s: State, signals: Values, outcome: Outcome): Values {
    if outcome == Acknowledged then s.lastSent + Union(Groups(m, signals)) else s.lastSent
  }

  predicate Delivered(outcome: Outcome) {
    outcome == Acknowledged || (outcome.Unacknowledged? && outcome.received)
  }

  /** At every place that the INFORM tells, the bus shows what will be on record. */
  ghost predicate BusMatchesRecord(m: Mapping, s: State, signals: Values, bus: Values, outcome: Outcome) {
    forall p :: IsPlace(m, p) && IsTold(m, signals, p) && SignalAt(m, p).name in RecordAfter(m, s, signals, outcome)
      ==> ShownAt(m, p, BusValue(bus, SignalAt(m, p).name))
           == ShownAt(m, p, RecordAfter(m, s, signals, outcome)[SignalAt(m, p).name])
  }

  lemma PlacesAre(m: Mapping, p: Place)
    ensures p in Places(m) <==> IsPlace(m, p)
  {}

  lemma RecordedIsMapped(m: Mapping, signals: Values)
    ensures forall n :: n in Union(Groups(m, signals)) ==> n in signals
  {
    UnionOfGroups(m, signals);
  }

  lemma SignalInField(m: Mapping, p: Place, signals: Values)
    requires IsPlace(m, p) && SignalAt(m, p).name in signals
    ensures FieldIn(FieldOf(m, p), signals)
  {}

  lemma ToldAfter(m: Mapping, s: State, signals: Values, bus: Values, now: int, outcome: Outcome, p: Place)
    requires IsPlace(m, p)
    ensures var t := SendInform(m, s, signals, bus, now, outcome);
            && t.lastSent == RecordAfter(m, s, signals, outcome)
            && (p in t.told <==> p in s.told || (Delivered(outcome) && IsTold(m, signals, p)))
            && (p in t.told ==>
                  t.told[p] == if Delivered(outcome) && IsTold(m, signals, p)
                                 then ShownAt(m, p, BusValue(bus, SignalAt(m, p).name)) else s.told[p])
  {
    hide Groups, Union, Stamped, ShownAt, FieldIn, Places;
    PlacesAre(m, p);
  }

  /** At the place, the instation was told what is recorded of its signal, if anything is. */
  predicate RecordToldAt(m: Mapping, s: State, p: Place)
    requires IsPlace(m, p)
  {
    var n := SignalAt(m, p).name;
    n in s.lastSent ==> p in s.told && s.told[p] == ShownAt(m, p, s.lastSent[n])
  }

  lemma InformToldAtIff(m: Mapping, s: State, signals: Values, bus: Values, now: int, outcome: Outcome, p: Place)
    requires IsPlace(m, p) && Reportable(m, p) && RecordToldAt(m, s, p)
    ensures RecordToldAt(m, SendInform(m, s, signals, bus, now, outcome), p)
       <==> (Delivered(outcome) && IsTold(m, signals, p) && SignalAt(m, p).name in RecordAfter(m, s, signals, outcome)
             ==> ShownAt(m, p, BusValue(bus, SignalAt(m, p).name))
                  == ShownAt(m, p, RecordAfter(m, s, signals, outcome)[SignalAt(m, p).name]))
  {
    hide SendInform, Groups, Union, ShownAt, FieldIn, FieldOf;
    ToldAfter(m, s, signals, bus, now, outcome, p);
    RecordedIsMapped(m, signals);
    if SignalAt(m, p).name in signals {
      SignalInField(m, p, signals);
    }
  }

  /** An INFORM leaves record and instation in agreement exactly if it does not arrive, or the bus matches the
      record. */
  lemma InformIsToldIff(m: Mapping, s: State, signals: Values, bus: Values, now: int, outcome: Outcome)
    requires RecordIsTold(m, s)
    ensures RecordIsTold(m, SendInform(m, s, signals, bus, now, outcome))
       <==> (Delivered(outcome) ==> BusMatchesRecord(m, s, signals, bus, outcome))
  {
    hide SendInform, ShownAt, FieldIn, RecordAfter, IsTold, Reportable, SignalAt;
    var t := SendInform(m, s, signals, bus, now, outcome);
    forall p | IsPlace(m, p)
      ensures IsTold(m, signals, p) ==> Reportable(m, p)
      ensures Reportable(m, p) ==>
        (RecordToldAt(m, t, p)
        <==> (Delivered(outcome) && IsTold(m, signals, p) && SignalAt(m, p).name in RecordAfter(m, s, signals, outcome)
          ==> ShownAt(m, p, BusValue(bus, SignalAt(m, p).name))
               == ShownAt(m, p, RecordAfter(m, s, signals, outcome)[SignalAt(m, p).name])))
    {
      ToldIsReportable(m, signals, p);
      if Reportable(m, p) {
        InformToldAtIff(m, s, signals, bus, now, outcome, p);
      }
    }
  }

  lemma ToldIsReportable(m: Mapping, signals: Values, p: Place)
    requires IsPlace(m, p)
    ensures IsTold(m, signals, p) ==> Reportable(m, p)
  {}

  /** The step sends an INFORM that reaches the instation. */
  predicate Reaches(e: Event) {
    (e.Finish? || e.Alive?) && Delivered(e.outcome)
  }

  /** The sender loses nothing: the batch is taken only when the last one is finished, every signal of it survives, and
      the keep-alive keeps the record. */
  ghost predicate KeepsTrack(m: Mapping, s: State, observed: Values, e: Event) {
    match e
    case Change(name, value, opMode) => opMode >= 2 || !Watched(m, name) || Tracked(s, name, value)
    case Take(opMode) => s.sending ==> s.inFlight == map[] && (opMode >= 2 || AllRecorded(s))
    case Finish(holdoff, now, outcome, bus) =>
      s.sending ==> forall n :: n in Changed(s) ==> Survives(m, s, n, holdoff, now, outcome, bus)
    case Alive(opMode, period, now, outcome, bus) =>
      s.keeping && AliveRecorded(m, s, opMode, period, now, outcome, bus) ==>
        forall n :: n in observed ==> KeepsRecord(m, s, n, bus)
  }

  /** What reaches the instation is what is recorded. */
  ghost predicate KeepsTold(m: Mapping, s: State, e: Event) {
    Reaches(e) ==> BusMatchesRecord(m, s, SentAbout(m, s, e), e.bus, e.outcome)
  }

  ghost predicate Lossless(m: Mapping, s: State, observed: Values, e: Event) {
    KeepsTrack(m, s, observed, e) && KeepsTold(m, s, e)
  }

  /** No step of the run makes the sender lose anything. */
  ghost predicate TrackingRun(m: Mapping, s: State, observed: Values, events: seq<Event>)
    decreases |events|
  {
    events == []
    || (KeepsTrack(m, s, observed, events[0])
        && TrackingRun(m, Step(m, s, events[0]), Observe(m, observed, events[0]), events[1..]))
  }

  ghost predicate LosslessRun(m: Mapping, s: State, observed: Values, events: seq<Event>)
    decreases |events|
  {
    events == []
    || (Lossless(m, s, observed, events[0])
        && LosslessRun(m, Step(m, s, events[0]), Observe(m, observed, events[0]), events[1..]))
  }

  lemma FinishTracksIff(m: Mapping, s: State, observed: Values, holdoff: int, now: int, outcome: Outcome, bus: Values)
    requires AllTracked(m, s, observed)
    ensures AllTracked(m, FinishBatch(m, s, holdoff, now, outcome, bus), observed)
       <==> forall n :: n in Changed(s) ==> Survives(m, s, n, holdoff, now, outcome, bus)
  {
    hide FinishBatch, Mapped, AnyHeld, Survives, Changed, Tracked, Builds;
    var t := FinishBatch(m, s, holdoff, now, outcome, bus);
    FinishRecords(m, s, holdoff, now, outcome, bus);
    forall n | n in observed
      ensures Tracked(t, n, observed[n]) <==> n !in Changed(s) || Survives(m, s, n, holdoff, now, outcome, bus)
    {
      FinishTrackedIff(m, s, holdoff, now, outcome, bus, n, observed[n]);
    }
    ChangedInFlight(s);
  }

  lemma AliveTracksIff(m: Mapping, s: State, observed: Values, opMode: int, period: int, now: int, outcome: Outcome,
        bus: Values)
    requires AllTracked(m, s, observed)
    ensures AllTracked(m, KeepAlive(m, s, opMode, period, now, outcome, bus), observed)
       <==> (AliveRecorded(m, s, opMode, period, now, outcome, bus) ==>
               forall n :: n in observed ==> KeepsRecord(m, s, n, bus))
  {
    hide Mapped, Groups, Union, Tracked, Tells, Stamped, KeepsRecord, AllSignals, Builds;
    forall n | n in observed
      ensures Tracked(KeepAlive(m, s, opMode, period, now, outcome, bus), n, observed[n])
         <==> (AliveRecorded(m, s, opMode, period, now, outcome, bus) ==> KeepsRecord(m, s, n, bus))
    {
      AliveTrackedIff(m, s, opMode, period, now, outcome, bus, n, observed[n]);
    }
  }

  lemma ChangedInFlight(s: State)
    ensures forall n :: n in Changed(s) <==> n in s.inFlight && !(n in s.lastSent && s.lastSent[n] == s.inFlight[n])
    ensures forall n :: n in Changed(s) ==> Changed(s)[n] == s.inFlight[n]
  {}

  lemma ChangeTracksIff(m: Mapping, s: State, observed: Values, opMode: int, name: string, value: int)
    requires AllTracked(m, s, observed)
    ensures AllTracked(m, OnBusChange(m, s, opMode, name, value), Observe(m, observed, Change(name, value, opMode)))
       <==> opMode >= 2 || !Watched(m, name) || Tracked(s, name, value)
  {
    hide Mapped, IsVsn;
    var t, o := OnBusChange(m, s, opMode, name, value), observed[name := value];
    if Watched(m, name) && opMode < 2 {
      assert t == s;
      assert name in o && o[name] == value;
      assert AllTracked(m, s, o) ==> Tracked(s, name, o[name]);
    }
  }

  lemma TakeTracksIff(m: Mapping, s: State, observed: Values, opMode: int)
    requires AllTracked(m, s, observed) && s.inFlight == map[]
    ensures AllTracked(m, TakeBatch(s, opMode), observed) <==> opMode >= 2 || AllRecorded(s)
  {
    hide Mapped;
    var t := TakeBatch(s, opMode);
    if opMode < 2 {
      if AllTracked(m, t, observed) {
        forall n | n in s.pending ensures n in s.lastSent && s.lastSent[n] == s.pending[n] {
          assert n in observed && Tracked(t, n, observed[n]) && Tracked(s, n, observed[n]);
        }
      }
      if AllRecorded(s) {
        forall n | n in observed ensures Tracked(t, n, observed[n]) {
          assert Tracked(s, n, observed[n]);
        }
      }
    }
  }

  lemma NothingToTell(m: Mapping, s: State, bus: Values, outcome: Outcome)
    ensures BusMatchesRecord(m, s, map[], bus, outcome)
  {}

  lemma StepIsToldIff(m: Mapping, s: State, e: Event)
    requires OnlyMapped(m, s) && RecordIsTold(m, s)
    ensures RecordIsTold(m, Step(m, s, e)) <==> KeepsTold(m, s, e)
  {
    hide RecordIsTold, BusMatchesRecord, SendInform, Changed, AnyHeld, Groups, AllSignals, Mapped, Builds;
    match e
    case Change(_, _, _) => SameRecord(m, s, Step(m, s, e));
    case Take(_) => SameRecord(m, s, Step(m, s, e));
    case Finish(holdoff, now, outcome, bus) =>
      var t := s.(inFlight := map[]);
      SameRecord(m, s, t);
      SameRecord(m, s, t.(pending := t.pending + Changed(s)));
      SameRecord(m, s, t.(sending := false));
      SameMatch(m, s, t, Changed(s), bus, outcome);
      NothingToTell(m, s, bus, outcome);
      GroupsCoverChanges(m, s);
      InformIsToldIff(m, t, Changed(s), bus, now, outcome);
    case Alive(opMode, period, now, outcome, bus) =>
      SameRecord(m, s, s.(keeping := false));
      NothingToTell(m, s, bus, outcome);
      InformIsToldIff(m, s, AllSignals(m, bus), bus, now, outcome);
  }

  lemma SameRecord(m: Mapping, s: State, t: State)
    requires RecordIsTold(m, s) && t.lastSent == s.lastSent && t.told == s.told
    ensures RecordIsTold(m, t)
  {}

  lemma SameMatch(m: Mapping, s: State, t: State, signals: Values, bus: Values, outcome: Outcome)
    requires t.lastSent == s.lastSent
    ensures BusMatchesRecord(m, t, signals, bus, outcome) <==> BusMatchesRecord(m, s, signals, bus, outcome)
  {}

  /** A step keeps every observed value tracked exactly if the sender loses nothing in it. */
  lemma StepTracksIff(m: Mapping, s: State, observed: Values, e: Event)
    requires AllTracked(m, s, observed) && (e.Take? && s.sending ==> s.inFlight == map[])
    ensures AllTracked(m, Step(m, s, e), Observe(m, observed, e)) <==> KeepsTrack(m, s, observed, e)
  {
    hide Watched, FinishBatch, KeepAlive, Survives, Changed, KeepsRecord, AliveRecorded, OnBusChange, TakeBatch,
        AllTracked;
    if e.Finish? {
      FinishTracksIff(m, s, observed, e.holdoff, e.now, e.outcome, e.bus);
    } else if e.Alive? {
      AliveTracksIff(m, s, observed, e.opMode, e.period, e.now, e.outcome, e.bus);
    } else if e.Change? {
      ChangeTracksIff(m, s, observed, e.opMode, e.name, e.value);
    } else if s.sending {
      TakeTracksIff(m, s, observed, e.opMode);
    }
  }

  /** It keeps record and instation in agreement, too, exactly if it is lossless. */
  lemma StepLosslessIff(m: Mapping, s: State, observed: Values, e: Event)
    requires AllTracked(m, s, observed) && RecordIsTold(m, s) && (e.Take? && s.sending ==> s.inFlight == map[])
    ensures AllTracked(m, Step(m, s, e), Observe(m, observed, e)) && RecordIsTold(m, Step(m, s, e))
       <==> Lossless(m, s, observed, e)
  {
    hide Step, Tracked, KeepsTrack, KeepsTold, RecordIsTold;
    StepTracksIff(m, s, observed, e);
    StepIsToldIff(m, s, e);
  }

  /** Nothing is waiting or being sent. */
  predicate IsIdle(s: State) {
    s.pending == map[] && s.inFlight == map[]
  }

  /** The instation was told the latest value of every signal, at every place where the mapping reports it. */
  ghost predicate InstationKnows(m: Mapping, s: State, observed: Values) {
    forall p :: IsPlace(m, p) && Reportable(m, p) && SignalAt(m, p).name in observed
      ==> p in s.told && s.told[p] == ShownAt(m, p, observed[SignalAt(m, p).name])
  }

  lemma IdleKnows(m: Mapping, s: State, observed: Values)
    requires AllTracked(m, s, observed) && RecordIsTold(m, s) && IsIdle(s)
    ensures InstationKnows(m, s, observed)
  {
    hide ShownAt, OnlyMapped;
  }

  /** Over a run in which the sender loses nothing, whatever the instation hears, the latest value of every signal is
      waiting, being sent, or recorded. */
  lemma {:induction false} RunTracks(m: Mapping, s: State, observed: Values, events: seq<Event>)
    requires AllTracked(m, s, observed) && TrackingRun(m, s, observed, events)
    ensures AllTracked(m, Run(m, s, events), Observed(m, observed, events))
    decreases |events|
  {
    hide AllTracked, Step, KeepsTrack, Observe;
    if events != [] {
      TakeWhenFree(m, s, observed, events[0]);
      StepTracksIff(m, s, observed, events[0]);
      RunTracks(m, Step(m, s, events[0]), Observe(m, observed, events[0]), events[1..]);
    }
  }

  /** Over a lossless run the instation was told what is recorded, besides; so when the sender is idle, the instation
      knows the latest value of every signal. */
  lemma {:induction false} RunTells(m: Mapping, s: State, observed: Values, events: seq<Event>)
    requires AllTracked(m, s, observed) && RecordIsTold(m, s) && LosslessRun(m, s, observed, events)
    ensures var t, o := Run(m, s, events), Observed(m, observed, events);
            && AllTracked(m, t, o) && RecordIsTold(m, t)
            && (IsIdle(t) ==> InstationKnows(m, t, o))
    decreases |events|
  {
    hide OnlyMapped, Step, KeepsTrack, KeepsTold, Observe, RecordIsTold, AllTracked, InstationKnows, IsIdle;
    if events == [] {
      if IsIdle(s) {
        IdleKnows(m, s, observed);
      }
    } else {
      TakeWhenFree(m, s, observed, events[0]);
      StepLosslessIff(m, s, observed, events[0]);
      RunTells(m, Step(m, s, events[0]), Observe(m, observed, events[0]), events[1..]);
    }
  }

  lemma TakeWhenFree(m: Mapping, s: State, observed: Values, e: Event)
    requires KeepsTrack(m, s, observed, e)
    ensures e.Take? && s.sending ==> s.inFlight == map[]
  {}

  lemma StartTracks(m: Mapping)
    ensures AllTracked(m, START, map[]) && RecordIsTold(m, START)
  {}

  /** A pass that is acknowledged, whether it is held off or not, is lossless if no callback came between its halves for
      a signal of the batch, and the bus still is as the sender believes: a signal of the batch as it was when it was
      taken, and any other that is on record as it was recorded. */
  lemma UndisturbedIsLossless(m: Mapping, s: State, observed: Values, holdoff: int, now: int, bus: Values)
    requires OnlyMapped(m, s) && Builds(m, Changed(s), bus)
    requires forall n :: n in Changed(s) ==> n !in s.pending && BusValue(bus, n) == Changed(s)[n]
    requires forall n :: n in s.lastSent && n !in Changed(s) ==> BusValue(bus, n) == s.lastSent[n]
    ensures Lossless(m, s, observed, Finish(holdoff, now, Acknowledged, bus))
  {
    hide Changed, Groups, Union, AnyHeld, BusValue, ShownAt, IsTold, Mapped, Builds;
    GroupsCoverChanges(m, s);
    var signals := SentAbout(m, s, Finish(holdoff, now, Acknowledged, bus));
    NoneRecorded(m);
    assert forall n :: n in RecordAfter(m, s, signals, Acknowledged) ==> n in signals || n in s.lastSent;
    NothingToTell(m, s, bus, Acknowledged);
  }

  lemma NoneRecorded(m: Mapping)
    ensures Union(Groups(m, map[])) == map[]
  {
    UnionOfGroups(m, map[]);
  }

  // ---- Runs judged by their events -----------------------------------------------------------------------

  /** Every pass is acknowledged, and its bus is one from which everything can be built; the keep-alive is off; a batch
      is finished before the next is taken; and unless the holdoff is off, no callback comes while one is open. */
  predicate Smooth(m: Mapping, events: seq<Event>, holdoff: int, open: bool)
    decreases |events|
  {
    events == [] ||
    match events[0]
    case Change(_, _, opMode) => opMode >= 2 && (open ==> holdoff <= 0) && Smooth(m, events[1..], holdoff, open)
    case Take(opMode) => opMode >= 2 && !open && Smooth(m, events[1..], holdoff, true)
    case Finish(h, _, outcome, bus) =>
      h == holdoff && outcome == Acknowledged && BusFits(m, bus) && Smooth(m, events[1..], holdoff, false)
    case Alive(_, period, _, _, _) => period <= 0 && Smooth(m, events[1..], holdoff, open)
  }

  /** Whether a batch is open after the event. */
  predicate OpenAfter(e: Event, open: bool) {
    e.Take? || (open && !e.Finish?)
  }

  predicate SmoothState(s: State, holdoff: int, open: bool) {
    && s.sending
    && (!open ==> s.inFlight == map[])
    && (open && holdoff > 0 ==> s.pending == map[])
  }

  lemma SmoothStep(m: Mapping, s: State, observed: Values, events: seq<Event>, holdoff: int, open: bool)
    requires events != [] && Smooth(m, events, holdoff, open) && SmoothState(s, holdoff, open)
    ensures KeepsTrack(m, s, observed, events[0])
    ensures SmoothState(Step(m, s, events[0]), holdoff, OpenAfter(events[0], open))
    ensures Smooth(m, events[1..], holdoff, OpenAfter(events[0], open))
  {
    hide BusFits, FinishBatch, Survives, Mapped, IsVsn, Changed;
    match events[0]
    case Change(name, value, opMode) =>
    case Take(opMode) =>
    case Alive(opMode, period, now, outcome, bus) =>
    case Finish(_, now, outcome, bus) =>
      SmoothFinish(m, s, holdoff, open, now, bus);
  }

  lemma SmoothFinish(m: Mapping, s: State, holdoff: int, open: bool, now: int, bus: Values)
    requires SmoothState(s, holdoff, open) && BusFits(m, bus)
    ensures forall n :: n in Changed(s) ==> Survives(m, s, n, holdoff, now, Acknowledged, bus)
    ensures var t := FinishBatch(m, s, holdoff, now, Acknowledged, bus); t.sending && t.inFlight == map[]
  {
    hide Groups, BusFits, Builds, HeldOrSent, AnyHeld, Changed;
    ChangedInFlight(s);
    FitsBuilds(m, Changed(s), bus);
    BlockedHolds(m, s, holdoff, now);
    BatchKeeps(m, s.(inFlight := map[]), Changed(s), holdoff, now, Acknowledged, bus);
  }

  lemma BlockedHolds(m: Mapping, s: State, holdoff: int, now: int)
    ensures Blocked(m, s, holdoff, now) ==> holdoff > 0
  {}

  lemma {:induction false} SmoothIsTracking(m: Mapping, s: State, observed: Values, events: seq<Event>, holdoff: int,
        open: bool)
    requires Smooth(m, events, holdoff, open) && SmoothState(s, holdoff, open)
    ensures TrackingRun(m, s, observed, events)
    decreases |events|
  {
    hide Smooth, SmoothState, Step, KeepsTrack, OpenAfter, Observe;
    if events != [] {
      SmoothStep(m, s, observed, events, holdoff, open);
      SmoothIsTracking(m, Step(m, s, events[0]), Observe(m, observed, events[0]), events[1..], holdoff,
          OpenAfter(events[0], open));
    }
  }

  lemma {:induction false} SmoothPrefix(m: Mapping, events: seq<Event>, holdoff: int, open: bool, k: nat)
    requires Smooth(m, events, holdoff, open) && k <= |events|
    ensures Smooth(m, events[..k], holdoff, open)
    decreases |events|
  {
    hide BusFits;
    if k > 0 {
      SmoothPrefix(m, events[1..], holdoff, OpenAfter(events[0], open), k - 1);
      assert events[..k][1..] == events[1..][..k - 1];
    }
  }

  /** With the keep-alive off and every pass acknowledged, whatever the bus shows when the INFORMs are built, at every
      point of the run the latest value observed of every signal is waiting, being sent, or recorded. */
  lemma AcknowledgedTracks(m: Mapping, events: seq<Event>, holdoff: int, k: nat)
    requires Smooth(m, events, holdoff, false) && k <= |events|
    ensures AllTracked(m, Run(m, START, events[..k]), Observed(m, map[], events[..k]))
  {
    hide AllTracked, Smooth, TrackingRun;
    StartTracks(m);
    SmoothPrefix(m, events, holdoff, false, k);
    SmoothIsTracking(m, START, map[], events[..k], holdoff, false);
    RunTracks(m, START, map[], events[..k]);
  }

  /** The bus has the latest value observed of every signal. */
  predicate Shows(bus: Values, observed: Values) {
    forall n :: n in observed ==> BusValue(bus, n) == observed[n]
  }

  /** No callback comes while a batch is open, and the bus of every pass is up to date. */
  predicate Prompt(m: Mapping, observed: Values, events: seq<Event>, open: bool)
    decreases |events|
  {
    events == []
    || (&& (events[0].Change? ==> !open)
        && (events[0].Finish? ==> Shows(events[0].bus, observed))
        && Prompt(m, Observe(m, observed, events[0]), events[1..], OpenAfter(events[0], open)))
  }

  /** Nothing is on record that was not observed; while a batch is open nothing else is waiting. */
  ghost predicate PromptState(m: Mapping, s: State, observed: Values, open: bool) {
    && AllTracked(m, s, observed)
    && (forall n :: n in s.lastSent ==> n in observed)
    && (open ==> s.pending == map[])
  }

  lemma PromptFinish(m: Mapping, s: State, observed: Values, e: Event, open: bool)
    requires PromptState(m, s, observed, open) && (!open ==> s.inFlight == map[])
    requires e.Finish? && e.outcome == Acknowledged && Builds(m, Changed(s), e.bus) && Shows(e.bus, observed)
    ensures KeepsTold(m, s, e)
    ensures forall n :: n in Step(m, s, e).lastSent ==> n in observed
    ensures open ==> !Blocked(m, s, e.holdoff, e.now) ==> Step(m, s, e).pending == map[]
  {
    hide Groups, Union, AnyHeld, Mapped, Builds, BusValue, Tells, Stamped, BusMatchesRecord, Changed;
    ChangedInFlight(s);
    GroupsCoverChanges(m, s);
    NothingToTell(m, s, e.bus, e.outcome);
    if open {
      UndisturbedIsLossless(m, s, observed, e.holdoff, e.now, e.bus);
    } else {
      assert Changed(s) == map[];
    }
  }

  lemma PromptStep(m: Mapping, s: State, observed: Values, events: seq<Event>, holdoff: int, open: bool)
    requires events != [] && Smooth(m, events, holdoff, open) && SmoothState(s, holdoff, open)
    requires Prompt(m, observed, events, open) && PromptState(m, s, observed, open)
    ensures KeepsTold(m, s, events[0])
    ensures PromptState(m, Step(m, s, events[0]), Observe(m, observed, events[0]), OpenAfter(events[0], open))
  {
    hide Tracked, OnlyMapped, KeepsTrack, FinishBatch, Mapped, IsVsn, BusFits, Builds, AllTracked, Shows;
    var e := events[0];
    SmoothStep(m, s, observed, events, holdoff, open);
    TakeWhenFree(m, s, observed, e);
    StepTracksIff(m, s, observed, e);
    if e.Finish? {
      FitsBuilds(m, Changed(s), e.bus);
      PromptFinish(m, s, observed, e, open);
    }
    if e.Alive? {
      NothingToTell(m, s, e.bus, e.outcome);
    }
  }

  lemma {:induction false} PromptIsLossless(m: Mapping, s: State, observed: Values, events: seq<Event>, holdoff: int,
        open: bool)
    requires Smooth(m, events, holdoff, open) && SmoothState(s, holdoff, open)
    requires Prompt(m, observed, events, open) && PromptState(m, s, observed, open)
    ensures LosslessRun(m, s, observed, events)
    decreases |events|
  {
    hide Smooth, SmoothState, PromptState, Step, KeepsTrack, KeepsTold, OpenAfter, Observe, Shows;
    if events != [] {
      SmoothStep(m, s, observed, events, holdoff, open);
      PromptStep(m, s, observed, events, holdoff, open);
      PromptIsLossless(m, Step(m, s, events[0]), Observe(m, observed, events[0]), events[1..], holdoff,
          OpenAfter(events[0], open));
    }
  }

  lemma {:induction false} PromptPrefix(m: Mapping, observed: Values, events: seq<Event>, open: bool, k: nat)
    requires Prompt(m, observed, events, open) && k <= |events|
    ensures Prompt(m, observed, events[..k], open)
    decreases |events|
  {
    hide Shows, Observe, OpenAfter;
    if k > 0 {
      PromptPrefix(m, Observe(m, observed, events[0]), events[1..], OpenAfter(events[0], open), k - 1);
      assert events[..k][1..] == events[1..][..k - 1];
    }
  }

  /** If, besides, every pass runs undivided on a bus that is up to date, then at every point of the run the instation
      was told what is recorded, and whenever the sender is idle it knows the latest value of every signal. */
  lemma PromptRunTells(m: Mapping, events: seq<Event>, holdoff: int, k: nat)
    requires Smooth(m, events, holdoff, false) && Prompt(m, map[], events, false) && k <= |events|
    ensures var t, o := Run(m, START, events[..k]), Observed(m, map[], events[..k]);
            AllTracked(m, t, o) && RecordIsTold(m, t) && (IsIdle(t) ==> InstationKnows(m, t, o))
  {
    hide AllTracked, Smooth, Prompt, LosslessRun, RecordIsTold, InstationKnows;
    StartTracks(m);
    SmoothPrefix(m, events, holdoff, false, k);
    PromptPrefix(m, map[], events, false, k);
    PromptIsLossless(m, START, map[], events[..k], holdoff, false);
    RunTells(m, START, map[], events[..k]);
  }

  /** What is kept as told is what a manager reads from the INFORM: at every place told, one of its varbinds says so,
      and unless both CA and GPn of an SCN are reported, so does every varbind of the place's identifier. */
  lemma TellsIsRead(m: Mapping, signals: Values, bus: Values, p: Place)
    requires MappingOk(m) && ReportsFit(m, signals, bus) && p in Tells(m, signals, bus)
    ensures IsPlace(m, p) && FieldOk(FieldOf(m, p))
    ensures var vbs := Varbinds(m, Groups(m, signals), bus);
            && (exists vb :: vb in vbs && vb.name == IdAt(m, p) && Reading(m, p, vb.value) == Tells(m, signals, bus)[p])
            && (!ClashReported(m, signals) ==>
                  forall vb :: vb in vbs && vb.name == IdAt(m, p)
                      ==> Reading(m, p, vb.value) == Tells(m, signals, bus)[p])
  {
    hide Varbinds, Groups, FieldIn, ReportsFit, Reading, ShownAt, IdAt, Places;
    PlaceIsTold(m, signals, bus, p);
    var vb :| vb in Varbinds(m, Groups(m, signals), bus) && TellsAt(m, bus, p, vb);
    assert vb.name == IdAt(m, p);
  }

  // ---- When an INFORM is sent -----------------------------------------------------------------------------

  /** Every SCN with a signal to be sent had its last INFORM the holdoff ago. */
  predicate AllDue(m: Mapping, s: State, holdoff: int, now: int) {
    forall k, n :: 0 <= k < |m| && n in s.inFlight && InScn(m[k], n)
        && !(n in s.lastSent && s.lastSent[n] == s.inFlight[n])
      ==> holdoff <= 0 || now - LastInform(s, m[k].name) >= holdoff
  }

  /** A batch that can be built, if anything in it is not on record, is put on record by an acknowledged pass if all its
      SCNs are due, and otherwise waits again. */
  lemma SentIffDue(m: Mapping, s: State, holdoff: int, now: int, bus: Values)
    requires OnlyMapped(m, s) && Builds(m, Changed(s), bus)
    requires exists n :: n in s.inFlight && !(n in s.lastSent && s.lastSent[n] == s.inFlight[n])
    ensures var t := FinishBatch(m, s, holdoff, now, Acknowledged, bus);
            if AllDue(m, s, holdoff, now)
            then t.lastSent == s.lastSent + s.inFlight && t.pending == s.pending && t.informed == now
            else t.lastSent == s.lastSent && t.pending == s.pending + Changed(s) && t.informed == s.informed
  {
    hide FinishBatch, HeldOrSent, Changed, OnlyMapped, Builds, Groups, InScn, LastInform;
    ChangedInFlight(s);
    FinishIs(m, s, holdoff, now, Acknowledged, bus);
    GroupsCoverChanges(m, s);
    BlockedIff(m, s, holdoff, now);
    BatchKeeps(m, s.(inFlight := map[]), Changed(s), holdoff, now, Acknowledged, bus);
    BatchRecords(m, s.(inFlight := map[]), Changed(s), holdoff, now, Acknowledged, bus);
    assert s.lastSent + Changed(s) == s.lastSent + s.inFlight;
  }

  lemma BlockedIff(m: Mapping, s: State, holdoff: int, now: int)
    ensures Blocked(m, s, holdoff, now) <==> !AllDue(m, s, holdoff, now)
  {
    hide Groups, InScn, Changed;
    ChangedInFlight(s);
    var groups := Groups(m, Changed(s));
    if Blocked(m, s, holdoff, now) {
      var g :| g in groups && HeldOff(s.lastInform, g, holdoff, now);
      GroupIn(m, Changed(s), g);
      var k :| IsGroup(m, Changed(s), g, k);
      var n :| n in InGroup(m[k], Changed(s));
      assert InScn(m[k], n) && n in Changed(s);
    }
    if !AllDue(m, s, holdoff, now) {
      var k, n :| 0 <= k < |m| && n in s.inFlight && InScn(m[k], n)
          && !(n in s.lastSent && s.lastSent[n] == s.inFlight[n])
                  && !(holdoff <= 0 || now - LastInform(s, m[k].name) >= holdoff);
      var g := Group(m[k].name, InGroup(m[k], Changed(s)));
      assert n in InGroup(m[k], Changed(s));
      assert IsGroup(m, Changed(s), g, k);
      GroupIn(m, Changed(s), g);
      assert HeldOff(s.lastInform, g, holdoff, now);
    }
  }

  predicate BelowUtc(events: seq<Event>) {
    forall i :: 0 <= i < |events| ==>
      match events[i]
      case Change(_, _, opMode) => opMode < 2
      case Take(opMode) => opMode < 2
      case Alive(opMode, _, _, _, _) => opMode < 2
      case _ => true
  }

  /** As long as the outstation is not in a UTC mode nothing new waits, and nothing is told or recorded. */
  lemma {:induction false} SilentBelowUtc(m: Mapping, s: State, events: seq<Event>)
    requires BelowUtc(events) && s.inFlight == map[]
    ensures var t := Run(m, s, events);
            && t.inFlight == map[] && t.told == s.told && t.lastSent == s.lastSent
            && (t.pending == s.pending || t.pending == map[])
    decreases |events|
  {
    hide Mapped, IsVsn, AllSignals, HeldOrSent;
    if events != [] {
      assert forall i :: 0 <= i < |events[1..]| ==> events[1..][i] == events[i + 1];
      SilentBelowUtc(m, Step(m, s, events[0]), events[1..]);
    }
  }

  // ---- The end of a thread --------------------------------------------------------------------------------

  /** A pass is the last of its thread exactly if it has something to send that is not held off and cannot be built. */
  lemma SendingEndsIff(m: Mapping, s: State, holdoff: int, now: int, outcome: Outcome, bus: Values)
    requires OnlyMapped(m, s) && s.sending
    ensures !FinishBatch(m, s, holdoff, now, outcome, bus).sending
       <==> Changed(s) != map[] && !Blocked(m, s, holdoff, now) && Fails(m, Changed(s), bus, outcome)
  {
    hide FinishBatch, HeldOrSent, Changed, OnlyMapped, Fails, AnyHeld;
    FinishIs(m, s, holdoff, now, outcome, bus);
    BatchKeeps(m, s.(inFlight := map[]), Changed(s), holdoff, now, outcome, bus);
  }

  /** From then on, with the keep-alive off or ended too, nothing is told or recorded any more. */
  lemma {:induction false} EndedIsSilent(m: Mapping, s: State, events: seq<Event>)
    requires !s.sending && (!s.keeping || forall i :: 0 <= i < |events| && events[i].Alive? ==> events[i].period <= 0)
    ensures var t := Run(m, s, events); t.told == s.told && t.lastSent == s.lastSent && !t.sending
    decreases |events|
  {
    hide Mapped, IsVsn, AllSignals, Fails, SendInform;
    if events != [] {
      EndedIsSilent(m, Step(m, s, events[0]), events[1..]);
    }
  }

  // ---- A run that goes wrong ---------------------------------------------------------------------------

  /** A signal goes on, and off again before the INFORM about it is built, and on once more. */
  function Flicker(name: string, opMode: int, now: int, bus: Values): seq<Event> {
    [Change(name, 1, opMode), Take(opMode), Change(name, 0, opMode), Finish(0, now, Acknowledged, bus[name := 0]),
     Change(name, 1, opMode), Take(opMode), Finish(0, now, Acknowledged, bus[name := 1])]
  }

  lemma RunSeven(m: Mapping, s: State, e: seq<Event>)
    requires |e| == 7
    ensures Run(m, s, e)
         == Step(m, Step(m, Step(m, Step(m, Step(m, Step(m, Step(m, s, e[0]), e[1]), e[2]), e[3]), e[4]), e[5]), e[6])
  {
    hide Step;
    RunLast(m, s, e);
    RunLast(m, s, e[..6]);
    RunLast(m, s, e[..5]);
    RunLast(m, s, e[..4]);
    RunLast(m, s, e[..3]);
    RunLast(m, s, e[..2]);
    RunLast(m, s, e[..1]);
    assert e[..6][..5] == e[..5] && e[..5][..4] == e[..4] && e[..4][..3] == e[..3] && e[..3][..2] == e[..2]
        && e[..2][..1] == e[..1];
    assert e[..1][..0] == [];
  }

  lemma {:induction false} RunLast(m: Mapping, s: State, events: seq<Event>)
    requires events != []
    ensures Run(m, s, events) == Step(m, Run(m, s, events[..|events| - 1]), events[|events| - 1])
    decreases |events|
  {
    hide Step;
    if |events| > 1 {
      RunLast(m, Step(m, s, events[0]), events[1..]);
      assert events[1..][..|events| - 2] == events[..|events| - 1][1..];
    } else {
      assert events[1..] == [] && events[..0] == [];
    }
  }

  lemma OneSignal(m: Mapping, name: string, value: int)
    requires Mapped(m, name)
    ensures Groups(m, map[name := value]) != [] && Union(Groups(m, map[name := value])) == map[name := value]
  {
    UnionOfGroups(m, map[name := value]);
    var u := Union(Groups(m, map[name := value]));
    assert name in u;
  }

  /** The run ends with nothing to send, while the instation shows the signal off and the bus has it on: the INFORM told
      what was on the bus when it was built, and the sender recorded what it had meant to tell. */
  lemma FlickerStale(m: Mapping, name: string, opMode: int, now: int, bus: Values, p: Place)
    requires Watched(m, name) && IsPlace(m, p) && Reportable(m, p) && SignalAt(m, p).name == name
    requires opMode >= 2 && BusFits(m, bus[name := 0])
    ensures var t := Run(m, START, Flicker(name, opMode, now, bus));
            && IsIdle(t) && Observed(m, map[], Flicker(name, opMode, now, bus)) == map[name := 1]
            && p in t.told && t.told[p] == ShownAt(m, p, 0) != ShownAt(m, p, 1)
  {
    hide Mapped, IsVsn, Groups, Union, Tells, Observed, SendInform, BusFits, Builds, FinishBatch;
    var e := Flicker(name, opMode, now, bus);
    RunSeven(m, START, e);
    FlickerHalf(m, name, opMode, now, bus, p);
    var s4 := Step(m, Step(m, Step(m, Step(m, START, e[0]), e[1]), e[2]), e[3]);
    var s6 := Step(m, Step(m, s4, e[4]), e[5]);
    var on := map[name := 1];
    assert s6.inFlight == on && s6.pending == map[] && s6.lastSent == on;
    assert Changed(s6) == map[];
    NothingSent(m, s6, now, bus[name := 1]);
    FlickerObserved(m, name, opMode, now, bus);
  }

  /** After the first pass the instation has it off, and the sender has it on record as on. */
  lemma FlickerHalf(m: Mapping, name: string, opMode: int, now: int, bus: Values, p: Place)
    requires Watched(m, name) && IsPlace(m, p) && Reportable(m, p) && SignalAt(m, p).name == name
    requires opMode >= 2 && BusFits(m, bus[name := 0])
    ensures var e := Flicker(name, opMode, now, bus);
            var s4 := Step(m, Step(m, Step(m, Step(m, START, e[0]), e[1]), e[2]), e[3]);
            && s4.pending == map[name := 0] && s4.inFlight == map[] && s4.lastSent == map[name := 1] && s4.sending
            && p in s4.told && s4.told[p] == ShownAt(m, p, 0)
  {
    hide Mapped, IsVsn, Groups, Union, Tells, SendInform, BusFits, Builds, FinishBatch, ShownAt;
    OneSignal(m, name, 1);
    var e, on, off := Flicker(name, opMode, now, bus), map[name := 1], map[name := 0];
    var s3 := Step(m, Step(m, Step(m, START, e[0]), e[1]), e[2]);
    assert s3 == START.(pending := off, inFlight := on);
    assert Changed(s3) == on && name in on;
    FitsBuilds(m, on, bus[name := 0]);
    SentAtOnce(m, s3, now, bus[name := 0]);
    InformOf(m, START.(pending := off), on, bus[name := 0], now, p);
  }

  lemma SentAtOnce(m: Mapping, s: State, now: int, bus: Values)
    requires Groups(m, Changed(s)) != [] && Changed(s) != map[] && Builds(m, Changed(s), bus)
    ensures FinishBatch(m, s, 0, now, Acknowledged, bus)
         == SendInform(m, s.(inFlight := map[]), Changed(s), bus, now, Acknowledged)
  {
    hide Changed, Groups, SendInform, Builds;
  }

  lemma NothingSent(m: Mapping, s: State, now: int, bus: Values)
    requires Changed(s) == map[]
    ensures FinishBatch(m, s, 0, now, Acknowledged, bus) == s.(inFlight := map[])
  {
    hide Changed, Groups, HeldOrSent;
  }

  lemma InformOf(m: Mapping, s: State, signals: Values, bus: Values, now: int, p: Place)
    requires IsPlace(m, p) && Reportable(m, p) && SignalAt(m, p).name in signals && s.lastSent == map[]
    ensures var t := SendInform(m, s, signals, bus, now, Acknowledged);
            && t.pending == s.pending && t.inFlight == s.inFlight && t.lastSent == Union(Groups(m, signals))
            && t.sending == s.sending && p in t.told && t.told[p] == ShownAt(m, p, BusValue(bus, SignalAt(m, p).name))
  {
    hide Groups, Union, ShownAt, SendInform, Stamped;
    InformRecords(m, s, signals, bus, now, Acknowledged);
    ToldAfter(m, s, signals, bus, now, Acknowledged, p);
    SignalInField(m, p, signals);
    assert map[] + Union(Groups(m, signals)) == Union(Groups(m, signals));
  }

  lemma FlickerObserved(m: Mapping, name: string, opMode: int, now: int, bus: Values)
    requires Watched(m, name)
    ensures Observed(m, map[], Flicker(name, opMode, now, bus)) == map[name := 1]
  {
    hide Mapped, IsVsn;
    var e := Flicker(name, opMode, now, bus);
    var on, off := map[name := 1], map[name := 0];
    assert Observed(m, map[], e) == Observed(m, on, e[1..]);
    assert e[1..][1..] == e[2..] && Observed(m, on, e[1..]) == Observed(m, on, e[2..]);
    assert e[2..][1..] == e[3..] && on[name := 0] == off && Observed(m, on, e[2..]) == Observed(m, off, e[3..]);
    assert e[3..][1..] == e[4..] && Observed(m, off, e[3..]) == Observed(m, off, e[4..]);
    assert e[4..][1..] == e[5..] && off[name := 1] == on && Observed(m, off, e[4..]) == Observed(m, on, e[5..]);
    assert e[5..][1..] == e[6..] && Observed(m, on, e[5..]) == Observed(m, on, e[6..]);
    assert e[6..][1..] == [] && Observed(m, on, e[6..]) == Observed(m, on, []);
  }

  // ---- The holdoff ------------------------------------------------------------------------------

  predicate HasGroup(groups: seq<Group>, scn: string) {
    exists i :: 0 <= i < |groups| && groups[i].scn == scn
  }

  /** An INFORM that includes the SCN is sent and acknowledged, by the send loop or by the keep-alive. */
  predicate Informs(m: Mapping, s: State, e: Event, scn: string) {
    (e.Finish? || e.Alive?) && e.outcome == Acknowledged && HasGroup(Groups(m, SentAbout(m, s, e)), scn)
  }

  function LastInform(s: State, scn: string): int {
    if scn in s.lastInform then s.lastInform[scn] else 0
  }

  lemma {:induction false} StampedAt(lastInform: map<string, int>, groups: seq<Group>, now: int, scn: string)
    ensures var after := Stamped(lastInform, groups, now);
            if HasGroup(groups, scn) then scn in after && after[scn] == now
            else (scn in after <==> scn in lastInform) && (scn in lastInform ==> after[scn] == lastInform[scn])
    decreases |groups|
  {
    if groups != [] {
      StampedAt(lastInform, groups[..|groups| - 1], now, scn);
    }
  }

  lemma {:induction false} NoGroups(m: Mapping)
    ensures Groups(m, map[]) == []
  {
    if m != [] {
      NoGroups(m[1..]);
      assert InGroup(m[0], map[]) == map[];
    }
  }

  /** The time of an SCN's last INFORM changes exactly when there is one; the time of the last INFORM at all is no
      earlier. */
  lemma InformStamps(m: Mapping, s: State, e: Event, scn: string)
    ensures LastInform(Step(m, s, e), scn) == if Informs(m, s, e, scn) then e.now else LastInform(s, scn)
    ensures Informs(m, s, e, scn) ==> Step(m, s, e).informed == e.now
    ensures Step(m, s, e).informed == s.informed || ((e.Finish? || e.Alive?) && Step(m, s, e).informed == e.now)
  {
    hide Groups, SentAbout, Stamped, Step;
    StepStamps(m, s, e);
    if e.Finish? || e.Alive? {
      StampedAt(s.lastInform, Groups(m, SentAbout(m, s, e)), e.now, scn);
    }
  }

  lemma StepStamps(m: Mapping, s: State, e: Event)
    ensures var t := Step(m, s, e);
            if (e.Finish? || e.Alive?) && e.outcome == Acknowledged && Groups(m, SentAbout(m, s, e)) != []
            then t.lastInform == Stamped(s.lastInform, Groups(m, SentAbout(m, s, e)), e.now) && t.informed == e.now
            else t.lastInform == s.lastInform && (t.informed == s.informed || (e.Alive? && t.informed == e.now))
  {
    hide SentAbout, Groups, FinishBatch, KeepAlive, Stamped, Mapped, IsVsn;
    if e.Finish? {
      FinishStamps(m, s, e);
    } else if e.Alive? {
      AliveStamps(m, s, e);
    }
  }

  lemma FinishStamps(m: Mapping, s: State, e: Event)
    requires e.Finish?
    ensures var t, groups := Step(m, s, e), Groups(m, SentAbout(m, s, e));
            if e.outcome == Acknowledged && groups != []
            then t.lastInform == Stamped(s.lastInform, groups, e.now) && t.informed == e.now
            else t.lastInform == s.lastInform && t.informed == s.informed
  {
    hide Groups, Changed, AnyHeld, Stamped, HeldOrSent, Builds, Union;
    NoGroups(m);
    BatchRecords(m, s.(inFlight := map[]), Changed(s), e.holdoff, e.now, e.outcome, e.bus);
  }

  lemma AliveStamps(m: Mapping, s: State, e: Event)
    requires e.Alive?
    ensures var t, groups := Step(m, s, e), Groups(m, SentAbout(m, s, e));
            if e.outcome == Acknowledged && groups != []
            then t.lastInform == Stamped(s.lastInform, groups, e.now) && t.informed == e.now
            else t.lastInform == s.lastInform && (t.informed == s.informed || t.informed == e.now)
  {
    hide Groups, Stamped, SendInform, AllSignals, Fails;
    NoGroups(m);
    NoStamps(s.lastInform, e.now);
    InformRecords(m, s, AllSignals(m, e.bus), e.bus, e.now, e.outcome);
  }

  lemma NoStamps(lastInform: map<string, int>, now: int)
    ensures Stamped(lastInform, [], now) == lastInform
  {}

  /** The times of the acknowledged INFORMs that include the SCN. */
  function InformTimes(m: Mapping, s: State, events: seq<Event>, scn: string): seq<int>
    decreases |events|
  {
    if events == [] then []
    else
      var first := if Informs(m, s, events[0], scn) then [events[0].now] else [];
      first + InformTimes(m, Step(m, s, events[0]), events[1..], scn)
  }

  predicate Spaced(times: seq<int>, gap: int) {
    forall i :: 0 <= i < |times| - 1 ==> times[i + 1] - times[i] >= gap
  }

  /** The configured holdoff and keep-alive period stay the same. */
  predicate Configured(events: seq<Event>, holdoff: int, period: int) {
    forall i :: 0 <= i < |events|
        ==> (events[i].Finish? ==> events[i].holdoff == holdoff) && (events[i].Alive? ==> events[i].period == period)
  }

  /** The clock does not go back. */
  predicate InOrder(events: seq<Event>, last: int)
    decreases |events|
  {
    events == []
    || (if events[0].Finish? || events[0].Alive?
          then last <= events[0].now && InOrder(events[1..], events[0].now)
          else InOrder(events[1..], last))
  }

  /** No bus is one from which a keep-alive can be built. */
  ghost predicate NeverAlive(m: Mapping) {
    forall bus :: !Builds(m, AllSignals(m, bus), bus)
  }

  /** The keep-alive cannot come too early: it is off, or slow enough, or never sent. */
  ghost predicate Harmless(m: Mapping, holdoff: int, period: int) {
    period <= 0 || period >= holdoff || NeverAlive(m)
  }

  /** An INFORM about an SCN comes no earlier than the holdoff after the last one about it. */
  lemma InformWaits(m: Mapping, s: State, e: Event, scn: string, holdoff: int, period: int, last: int)
    requires Harmless(m, holdoff, period)
    requires Configured([e], holdoff, period) && InOrder([e], last) && LastInform(s, scn) <= s.informed <= last
    requires Informs(m, s, e, scn)
    ensures e.now - LastInform(s, scn) >= holdoff
  {
    hide Groups, Changed, AllSignals, Builds;
    assert [e][0] == e;
    var groups := Groups(m, SentAbout(m, s, e));
    NoGroups(m);
    var i :| 0 <= i < |groups| && groups[i].scn == scn;
    assert groups[i] in groups;
  }

  lemma {:induction false} SpacedFrom(m: Mapping, s: State, events: seq<Event>, scn: string, holdoff: int, period: int,
        last: int)
    requires Harmless(m, holdoff, period)
    requires Configured(events, holdoff, period) && InOrder(events, last) && LastInform(s, scn) <= s.informed <= last
    ensures var times := InformTimes(m, s, events, scn);
            Spaced(times, holdoff) && (times != [] ==> times[0] - LastInform(s, scn) >= holdoff)
    decreases |events|
  {
    hide Step, Informs, LastInform, Harmless;
    if events != [] {
      var e := events[0];
      assert Configured([e], holdoff, period) && InOrder([e], last);
      InformStamps(m, s, e, scn);
      if Informs(m, s, e, scn) {
        InformWaits(m, s, e, scn, holdoff, period, last);
        assert e.Finish? || e.Alive? by {
          InformsNow(m, s, e, scn);
        }
      }
      var next := if e.Finish? || e.Alive? then e.now else last;
      SpacedFrom(m, Step(m, s, e), events[1..], scn, holdoff, period, next);
    }
  }

  lemma InformsNow(m: Mapping, s: State, e: Event, scn: string)
    requires Informs(m, s, e, scn)
    ensures e.Finish? || e.Alive?
  {}

  /** Two keep-alives, as soon as they are due. */
  function TwoAlive(period: int, base: int, bus: Values): seq<Event> {
    [Alive(2, period, base + period, Acknowledged, bus), Alive(2, period, base + 2 * period, Acknowledged, bus)]
  }

  lemma {:induction false} ScnGrouped(m: Mapping, k: nat, signals: Values, name: string)
    requires k < |m| && InScn(m[k], name) && name in signals
    ensures HasGroup(Groups(m, signals), m[k].name)
  {
    if k == 0 {
      assert name in InGroup(m[0], signals);
      assert Groups(m, signals)[0].scn == m[0].name;
    } else {
      ScnGrouped(m[1..], k - 1, signals, name);
      var rest := Groups(m[1..], signals);
      var i :| 0 <= i < |rest| && rest[i].scn == m[k].name;
      var own := if InGroup(m[0], signals) == map[] then [] else [Group(m[0].name, InGroup(m[0], signals))];
      assert Groups(m, signals) == own + rest && (own + rest)[|own| + i] == rest[i];
    }
  }

  lemma TwoAliveTimes(m: Mapping, k: nat, name: string, period: int, base: nat, bus: Values)
    requires k < |m| && InScn(m[k], name) && period > 0 && Builds(m, AllSignals(m, bus), bus)
    ensures InformTimes(m, START, TwoAlive(period, base, bus), m[k].name) == [base + period, base + 2 * period]
  {
    hide Groups, AllSignals, SendInform, InScn, Builds;
    var all, scn, e := AllSignals(m, bus), m[k].name, TwoAlive(period, base, bus);
    assert Mapped(m, name);
    AllSignalsMapped(m, bus, name);
    ScnGrouped(m, k, all, name);
    assert Informs(m, START, e[0], scn);
    InformRecords(m, START, all, bus, base + period, Acknowledged);
    InformStamps(m, START, e[0], scn);
    var s := Step(m, START, e[0]);
    assert Informs(m, s, e[1], scn);
    assert e[1..][0] == e[1] && e[1..][1..] == [];
    assert InformTimes(m, s, e[1..], scn) == [e[1].now] + InformTimes(m, Step(m, s, e[1]), [], scn) == [e[1].now];
  }

  /** The INFORMs about an SCN are at least the holdoff apart in every run exactly if the keep-alive is off, or its
      period is no shorter than the holdoff, or none can ever be built. */
  lemma HoldoffIff(m: Mapping, k: nat, name: string, holdoff: int, period: int, base: nat)
    requires k < |m| && InScn(m[k], name)
    ensures (forall events :: Configured(events, holdoff, period) && InOrder(events, base)
                         ==> Spaced(InformTimes(m, START, events, m[k].name), holdoff))
       <==> Harmless(m, holdoff, period)
  {
    hide InformTimes, InScn, Builds;
    if Harmless(m, holdoff, period) {
      forall events | Configured(events, holdoff, period) && InOrder(events, base)
        ensures Spaced(InformTimes(m, START, events, m[k].name), holdoff)
      {
        SpacedFrom(m, START, events, m[k].name, holdoff, period, base);
      }
    } else {
      var bus :| Builds(m, AllSignals(m, bus), bus);
      var e := TwoAlive(period, base, bus);
      TwoAliveTimes(m, k, name, period, base, bus);
      assert Configured(e, holdoff, period);
      assert InOrder(e[1..], base + period) by {
        assert e[1..][1..] == [];
      }
      assert InOrder(e, base);
      var times := InformTimes(m, START, e, m[k].name);
      assert times[1] - times[0] == period;
      assert !Spaced(times, holdoff) by {
        assert 0 < |times| - 1 && times[0 + 1] - times[0] < holdoff;
      }
    }
  }

  // ---- The keep-alive ---------------------------------------------------------------------------

  /** Every occurrence of the signal in the mapping is inverted, or none is. */
  ghost predicate Polarity(m: Mapping, name: string, inverted: bool) {
    forall p :: IsPlace(m, p) && SignalAt(m, p).name == name ==> SignalAt(m, p).inverted == inverted
  }

  lemma {:induction false} BitValueOf(bits: seq<(nat, Signal)>, bus: Values, name: string, inverted: bool)
    requires forall j :: 0 <= j < |bits| && bits[j].1.name == name ==> bits[j].1.inverted == inverted
    ensures name in BitValues(bits, bus) ==> BitValues(bits, bus)[name] == ReadSignal(bus, Signal(name, inverted))
  {
    if bits != [] {
      BitValueOf(bits[..|bits| - 1], bus, name, inverted);
    }
  }

  lemma {:induction false} FieldValueOf(fields: seq<FieldMap>, bus: Values, name: string, inverted: bool)
    requires forall i, j :: 0 <= i < |fields| && 0 <= j < |fields[i].bits| && fields[i].bits[j].1.name == name
               ==> fields[i].bits[j].1.inverted == inverted
    ensures name in FieldValues(fields, bus)
        ==> FieldValues(fields, bus)[name] == ReadSignal(bus, Signal(name, inverted))
  {
    if fields != [] {
      FieldValueOf(fields[..|fields| - 1], bus, name, inverted);
      BitValueOf(fields[|fields| - 1].bits, bus, name, inverted);
    }
  }

  lemma {:induction false} AllSignalsOf(m: Mapping, bus: Values, name: string, inverted: bool)
    requires Polarity(m, name, inverted)
    ensures name in AllSignals(m, bus) ==> AllSignals(m, bus)[name] == ReadSignal(bus, Signal(name, inverted))
  {
    if m != [] {
      var n := |m| - 1;
      forall p | IsPlace(m[..n], p) && SignalAt(m[..n], p).name == name
        ensures SignalAt(m[..n], p).inverted == inverted
      {
        assert IsPlace(m, p) && SignalAt(m, p) == SignalAt(m[..n], p);
      }
      AllSignalsOf(m[..n], bus, name, inverted);
      forall i, j | 0 <= i < |m[n].fields| && 0 <= j < |m[n].fields[i].bits| && m[n].fields[i].bits[j].1.name == name
        ensures m[n].fields[i].bits[j].1.inverted == inverted
      {
        assert SignalAt(m, Place(n, i, j)) == m[n].fields[i].bits[j].1;
      }
      FieldValueOf(m[n].fields, bus, name, inverted);
    }
  }

  /** An acknowledged keep-alive, sent while nothing of the signal is under way, keeps it tracked exactly if the mapping
      does not invert it: the keep-alive records the inverted value where changes record the bus value. */
  lemma KeepAliveTrackedIff(m: Mapping, s: State, opMode: int, period: int, now: int, bus: Values, name: string,
        inverted: bool)
    requires Mapped(m, name) && Polarity(m, name, inverted)
        && AliveRecorded(m, s, opMode, period, now, Acknowledged, bus)
    requires name !in s.pending && name !in s.inFlight && Tracked(s, name, BusValue(bus, name))
    ensures Tracked(KeepAlive(m, s, opMode, period, now, Acknowledged, bus), name, BusValue(bus, name)) <==> !inverted
  {
    hide Mapped, Polarity, AllSignals, KeepAlive, BusValue, Builds;
    AllSignalsMapped(m, bus, name);
    AllSignalsOf(m, bus, name, inverted);
    AliveTrackedIff(m, s, opMode, period, now, Acknowledged, bus, name, BusValue(bus, name));
  }

  /** It leaves record and instation in agreement exactly if the mapping inverts no reported signal. */
  lemma KeepAliveToldIff(m: Mapping, s: State, opMode: int, period: int, now: int, bus: Values)
    requires RecordIsTold(m, s) && AliveRecorded(m, s, opMode, period, now, Acknowledged, bus)
        && AllSignals(m, bus) != map[]
    requires forall p :: IsPlace(m, p) ==> Polarity(m, SignalAt(m, p).name, SignalAt(m, p).inverted)
    ensures RecordIsTold(m, KeepAlive(m, s, opMode, period, now, Acknowledged, bus))
       <==> forall p :: IsPlace(m, p) && Reportable(m, p) ==> !SignalAt(m, p).inverted
  {
    hide AllSignals, SendInform, RecordIsTold, Polarity, Groups, Union, Builds;
    var all := AllSignals(m, bus);
    InformIsToldIff(m, s, all, bus, now, Acknowledged);
    forall p | IsPlace(m, p) && Reportable(m, p)
      ensures IsTold(m, all, p) && SignalAt(m, p).name in RecordAfter(m, s, all, Acknowledged)
      ensures (ShownAt(m, p, BusValue(bus, SignalAt(m, p).name))
         == ShownAt(m, p, RecordAfter(m, s, all, Acknowledged)[SignalAt(m, p).name]))
              <==> !SignalAt(m, p).inverted
    {
      AliveRecords(m, s, bus, p);
      InvertedTwice(m, p, BusValue(bus, SignalAt(m, p).name));
    }
    forall p | IsPlace(m, p) && IsTold(m, all, p) ensures Reportable(m, p) {
      ToldIsReportable(m, all, p);
    }
  }

  lemma AliveRecords(m: Mapping, s: State, bus: Values, p: Place)
    requires IsPlace(m, p) && Reportable(m, p) && Polarity(m, SignalAt(m, p).name, SignalAt(m, p).inverted)
    ensures IsTold(m, AllSignals(m, bus), p)
    ensures SignalAt(m, p).name in RecordAfter(m, s, AllSignals(m, bus), Acknowledged)
    ensures RecordAfter(m, s, AllSignals(m, bus), Acknowledged)[SignalAt(m, p).name] == ReadSignal(bus, SignalAt(m, p))
  {
    hide AllSignals, Polarity, Groups, Union, ReadSignal;
    var sig := SignalAt(m, p);
    PlaceIsMapped(m, p);
    AllSignalsMapped(m, bus, sig.name);
    AllSignalsOf(m, bus, sig.name, sig.inverted);
    UnionOfGroups(m, AllSignals(m, bus));
    SignalInField(m, p, AllSignals(m, bus));
  }

  lemma PlaceIsMapped(m: Mapping, p: Place)
    requires IsPlace(m, p)
    ensures Mapped(m, SignalAt(m, p).name)
  {
    assert InField(FieldOf(m, p), SignalAt(m, p).name);
    assert InScn(m[p.scn], SignalAt(m, p).name);
  }

  /** Showing an inverted value inverts it once more, and never gives the same. */
  lemma InvertedTwice(m: Mapping, p: Place, value: int)
    requires IsPlace(m, p)
    ensures ShownAt(m, p, value) == ShownAt(m, p, Inverted(SignalAt(m, p), value)) <==> !SignalAt(m, p).inverted
  {}

  /** After such a keep-alive the next change of an inverted 0/1 signal is filtered out as already sent. */
  lemma KeepAliveHidesChange(m: Mapping, s: State, opMode: int, period: int, now: int, bus: Values, name: string)
    requires Watched(m, name) && Polarity(m, name, true)
    requires AliveRecorded(m, s, opMode, period, now, Acknowledged, bus)
    requires s.pending == map[] && s.inFlight == map[]
    ensures var t := OnBusChange(m, KeepAlive(m, s, opMode, period, now, Acknowledged, bus), opMode, name,
        1 - BusValue(bus, name));
            t.pending == map[name := 1 - BusValue(bus, name)] && Changed(TakeBatch(t, opMode)) == map[]
  {
    hide Mapped, IsVsn, Polarity, AllSignals, Groups, Union, Tells, Stamped, BusValue, Builds;
    AllSignalsMapped(m, bus, name);
    AllSignalsOf(m, bus, name, true);
    UnionOfGroups(m, AllSignals(m, bus));
  }

  // ---- The service object ------------------------------------------------------------------------------

  class RbeService {
    const mapping: Mapping
    var pending: Values
    var batch: Values
    var lastSent: Values
    var lastInform: map<string, int>
    var informed: int
    var depth: int
    ghost var told: map<Place, int>
    ghost var sending: bool
    ghost var keeping: bool

    ghost function Abstract(): State
      reads this
    {
      State(pending, batch, lastSent, lastInform, informed, depth, told, sending, keeping)
    }

    constructor (mapping: Mapping, depth: int)
      ensures this.mapping == mapping && Abstract() == START.(depth := depth)
    {
      this.mapping, this.depth, informed := mapping, depth, 0;
      pending, batch, lastSent, lastInform, told := map[], map[], map[], map[], map[];
      sending, keeping := true, true;
    }

    method BusChanged(opMode: int, name: string, value: int)
      modifies this`pending
      ensures Abstract() == OnBusChange(mapping, old(Abstract()), opMode, name, value)
    {
      if !Mapped(mapping, name) { return; }
      if opMode < 2 { return; }
      if IsVsn(mapping, name) { return; }
      pending := pending[name := value];
    }

    method Take(opMode: int)
      modifies this`pending, this`batch
      ensures Abstract() == TakeBatch(old(Abstract()), opMode)
    {
      if opMode >= 2 {
        batch := pending;
      }
      pending := map[];
    }

    /** The pass of a thread that is running; its end is reported. */
    method Finish(holdoff: int, now: int, outcome: Outcome, bus: Values) returns (ended: bool)
      requires MappingOk(mapping) && sending
      modifies this
      ensures ended <==> !sending
      ensures Abstract() == FinishBatch(mapping, old(Abstract()), holdoff, now, outcome, bus)
    {
      hide Groups, SendInform, MappingOk, Fails, Changed, AnyHeld;
      ended := false;
      var changed := Unsent();
      batch := map[];
      if changed != map[] {
        var groups := GroupByScn(mapping, changed);
        if groups != [] {
          ended := HoldOrSend(groups, holdoff, now, outcome, bus, changed);
        }
      }
    }

    method HoldOrSend(groups: seq<Group>, holdoff: int, now: int, outcome: Outcome, bus: Values, changed: Values)
        returns (ended: bool)
      requires MappingOk(mapping) && sending && groups == Groups(mapping, changed) && groups != []
      modifies this
      ensures ended <==> !sending
      ensures Abstract() == HeldOrSent(mapping, old(Abstract()), changed, holdoff, now, outcome, bus)
    {
      hide Groups, SendInform, MappingOk, Fails, AnyHeld;
      ended := false;
      var blocked := AnyHeldOff(groups, holdoff, now);
      if blocked {
        pending := pending + changed;
      } else {
        var varbinds;
        varbinds, ended := Send(groups, bus, now, outcome, changed);
        sending := !ended;
      }
    }

    /** The signals of the batch whose value is not on record. */
    method Unsent() returns (changed: Values)
      ensures changed == Changed(Abstract())
    {
      changed := map n | n in batch && !(n in lastSent && lastSent[n] == batch[n]) :: batch[n];
    }

    method AnyHeldOff(groups: seq<Group>, holdoff: int, now: int) returns (blocked: bool)
      ensures blocked == AnyHeld(lastInform, groups, holdoff, now)
    {
      hide HeldOff;
      blocked := false;
      for i := 0 to |groups|
        invariant !blocked && forall k :: 0 <= k < i ==> !HeldOff(lastInform, groups[k], holdoff, now)
      {
        if HeldOff(lastInform, groups[i], holdoff, now) {
          return true;
        }
      }
    }

    method CollectField(bits: seq<(nat, Signal)>, bus: Values, start: Values) returns (all: Values)
      ensures all == start + BitValues(bits, bus)
    {
      hide ReadSignal;
      all := start;
      for j := 0 to |bits|
        invariant all == start + BitValues(bits[..j], bus)
      {
        assert bits[..j + 1][..j] == bits[..j];
        all := all[bits[j].1.name := ReadSignal(bus, bits[j].1)];
      }
      assert bits[..|bits|] == bits;
    }

    method CollectScnSignals(fields: seq<FieldMap>, bus: Values, start: Values) returns (all: Values)
      ensures all == start + FieldValues(fields, bus)
    {
      hide BitValues;
      all := start;
      for i := 0 to |fields|
        invariant all == start + FieldValues(fields[..i], bus)
      {
        assert fields[..i + 1][..i] == fields[..i];
        all := CollectField(fields[i].bits, bus, all);
        AddAdd(start, FieldValues(fields[..i], bus), BitValues(fields[i].bits, bus));
      }
      assert fields[..|fields|] == fields;
    }

    method CollectAll(bus: Values) returns (all: Values)
      ensures all == AllSignals(mapping, bus)
    {
      hide FieldValues;
      all := map[];
      for k := 0 to |mapping|
        invariant all == AllSignals(mapping[..k], bus)
      {
        assert mapping[..k + 1][..k] == mapping[..k];
        all := CollectScnSignals(mapping[k].fields, bus, all);
      }
      assert mapping[..|mapping|] == mapping;
    }

    method Alive(opMode: int, period: int, now: int, outcome: Outcome, bus: Values) returns (ended: bool)
      requires MappingOk(mapping) && keeping
      modifies this
      ensures ended <==> !keeping
      ensures Abstract() == KeepAlive(mapping, old(Abstract()), opMode, period, now, outcome, bus)
    {
      hide Groups, AllSignals, SendInform, MappingOk, Fails;
      ended := false;
      if opMode < 2 { return; }
      if period <= 0 { return; }
      if now - informed >= period {
        var all := CollectAll(bus);
        if all != map[] {
          AllGrouped(mapping, bus);
          var groups := GroupByScn(mapping, all);
          var varbinds;
          varbinds, ended := Send(groups, bus, now, outcome, all);
          keeping := !ended;
        }
      }
    }

    /** The INFORM about the groups of some signals, with the varbinds built for it.  It fails if a mask does not fit
        its octet, and does not come to an end if a varbind has an integer that cannot be encoded. */
    method Send(groups: seq<Group>, bus: Values, now: int, outcome: Outcome, ghost signals: Values)
        returns (varbinds: seq<Ber.VarBind>, failed: bool)
      requires MappingOk(mapping) && groups == Groups(mapping, signals) && groups != []
      modifies this`lastSent, this`lastInform, this`informed, this`depth, this`told
      ensures failed == Fails(mapping, signals, bus, outcome)
      ensures Abstract() == if failed then old(Abstract())
                              else SendInform(mapping, old(Abstract()), signals, bus, now, outcome)
      ensures outcome != NoInstation && !failed ==> varbinds == Varbinds(mapping, groups, bus)
    {
      hide Groups, Union, Tells, MappingOk, Varbinds, GroupsFit, ReportsFit, Encodable, Ber.GoodVarBind;
      varbinds, failed := [], false;
      if outcome == NoInstation {
        return;
      }
      GroupsFitIff(mapping, signals, bus);
      VarbindsGoodIff(mapping, signals, bus);
      var built := BuildVarbinds(mapping, groups, bus);
      if built == None {
        failed := true;
        return;
      }
      varbinds := built.value;
      if exists i :: 0 <= i < |varbinds| && !Ber.GoodVarBind(varbinds[i]) {
        failed := true;
        return;
      }
      GroupsAreReported(mapping, signals, bus);
      match outcome {
        case NoInstation =>
        case Unacknowledged(received) =>
          depth := depth + 1;
          told := if received then told + Tells(mapping, signals, bus) else told;
        case Acknowledged =>
          RecordSent(groups, now);
          informed := now;
          depth := if depth - 1 > 0 then depth - 1 else 0;
          told := told + Tells(mapping, signals, bus);
      }
    }

    method RecordSent(groups: seq<Group>, now: int)
      modifies this`lastSent, this`lastInform
      ensures lastInform == Stamped(old(lastInform), groups, now)
      ensures lastSent == old(lastSent) + Union(groups)
    {
      ghost var sent0, inform0 := lastSent, lastInform;
      assert groups[..0] == [] && groups[0..] == groups;
      for i := 0 to |groups|
        invariant lastInform == Stamped(inform0, groups[..i], now)
        invariant lastSent + Union(groups[i..]) == sent0 + Union(groups)
      {
        UnionStep(lastSent, groups, i);
        assert groups[..i + 1][..i] == groups[..i];
        lastInform := lastInform[groups[i].scn := now];
        lastSent := lastSent + groups[i].signals;
      }
      assert groups[..|groups|] == groups && groups[|groups|..] == [];
      assert Union(groups[|groups|..]) == map[];
      assert lastSent == sent0 + Union(groups);
    }
  }

  lemma AddAdd(a: Values, b: Values, c: Values)
    ensures (a + b) + c == a + (b + c)
  {}

  lemma UnionStep(sent: Values, groups: seq<Group>, i: nat)
    requires i < |groups|
    ensures sent + Union(groups[i..]) == (sent + groups[i].signals) + Union(groups[i + 1..])
  {
    assert groups[i..][0] == groups[i] && groups[i..][1..] == groups[i + 1..];
  }

  lemma AllGrouped(m: Mapping, bus: Values)
    requires AllSignals(m, bus) != map[]
    ensures Groups(m, AllSignals(m, bus)) != []
  {
    hide AllSignals, Groups;
    var all := AllSignals(m, bus);
    var n :| n in all;
    AllSignalsMapped(m, bus, n);
    UnionOfGroups(m, all);
    assert n in Union(Groups(m, all));
  }

  /** The backlog counter, whatever happens to the INFORMs, never becomes negative. */
  lemma DepthNonNegative(m: Mapping, s: State, e: Event)
    requires s.depth >= 0
    ensures Step(m, s, e).depth >= 0
  {
    hide Changed, Groups, AllSignals, AnyHeld, Fails, SendInform, Mapped, IsVsn;
    if e.Finish? {
      InformDepth(m, s.(inFlight := map[]), Changed(s), e.bus, e.now, e.outcome);
    } else if e.Alive? {
      InformDepth(m, s, AllSignals(m, e.bus), e.bus, e.now, e.outcome);
    }
  }

  /** It counts one up for an INFORM that is sent in vain, and one down, not below 0, for one that is acknowledged. */
  lemma StepBacklog(m: Mapping, s: State, e: Event)
    requires OnlyMapped(m, s)
    ensures Step(m, s, e).depth
         == if !(e.Finish? || e.Alive?) || SentAbout(m, s, e) == map[] || e.outcome == NoInstation then s.depth
            else if e.outcome != Acknowledged then s.depth + 1
            else if s.depth > 0 then s.depth - 1 else 0
  {
    hide Changed, Groups, AllSignals, AnyHeld, Builds, Mapped, IsVsn, SendInform, OnlyMapped;
    if e.Finish? {
      GroupsCoverChanges(m, s);
      InformBacklog(m, s.(inFlight := map[]), Changed(s), e.bus, e.now, e.outcome);
    } else if e.Alive? {
      InformBacklog(m, s, AllSignals(m, e.bus), e.bus, e.now, e.outcome);
    }
  }

  lemma InformBacklog(m: Mapping, s: State, signals: Values, bus: Values, now: int, outcome: Outcome)
    ensures SendInform(m, s, signals, bus, now, outcome).depth
         == if outcome == NoInstation then s.depth
            else if outcome != Acknowledged then s.depth + 1
            else if s.depth > 0 then s.depth - 1 else 0
  {
    hide Groups, Union, Tells, Stamped;
  }

  lemma InformDepth(m: Mapping, s: State, signals: Values, bus: Values, now: int, outcome: Outcome)
    requires s.depth >= 0
    ensures SendInform(m, s, signals, bus, now, outcome).depth >= 0
  {
    hide Groups, Union, Tells, Stamped;
  }
}
