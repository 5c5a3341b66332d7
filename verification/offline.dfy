/**
  The offline plan player: which plan the timetable asks for, where in its cycle the plan is, and what a
  tick writes.

  StartsRightIff says which starts of the timetable come into force on time, RunsInForceIff which plan runs
  after a tick, and MomentIsShown what is then on the bus.  RunStaysGood, InactiveTickZeroes
  and WrittenOnlyOnChange are about ticks that do not reload the plan file; ReloadQuietIff says when a
  reloading tick leaves outputs on that no plan drives any more.
 */
module Offline {
  import opened Bytes
  import opened MaskWrite
  import opened UtcControl

  // ---- Timetable -----------------------------------------------------------------------------------

  /** The order of Python strings. */
  predicate Before(a: string, b: string)
    decreases |a|
  {
    b != "" && (a == "" || a[0] < b[0] || (a[0] == b[0] && Before(a[1..], b[1..])))
  }

  predicate AtMost(a: string, b: string) {
    !Before(b, a)
  }

  lemma {:induction false} BeforeTransitive(a: string, b: string, c: string)
    requires Before(a, b) && Before(b, c)
    ensures Before(a, c)
  {
    if a != "" && a[0] == b[0] && b[0] == c[0] {
      BeforeTransitive(a[1..], b[1..], c[1..]);
    }
  }

  lemma {:induction false} BeforeTotal(a: string, b: string)
    ensures a == b || Before(a, b) || Before(b, a)
    ensures !(Before(a, b) && Before(b, a)) && !Before(a, a)
    decreases |a|
  {
    if a != "" && b != "" {
      BeforeTotal(a[1..], b[1..]);
      assert a == [a[0]] + a[1..] && b == [b[0]] + b[1..];
    }
    if a != "" {
      BeforeTotal(a[1..], a[1..]);
    }
  }

  datatype Entry = Entry(days: seq<string>, start: string, plan: Option<string>)

  predicate Candidate(e: Entry, day: string, limit: Option<string>) {
    day in e.days && (limit.Some? ==> AtMost(e.start, limit.value))
  }

  /** Entry i is the first of those with the greatest start among the candidates. */
  ghost predicate IsBest(tt: seq<Entry>, day: string, limit: Option<string>, i: nat) {
    && i < |tt| && Eligible(tt, day, limit, i)
    && (forall j :: 0 <= j < |tt| && Eligible(tt, day, limit, j) ==> AtMost(tt[j].start, tt[i].start))
    && (forall j :: 0 <= j < i && Eligible(tt, day, limit, j) ==> Before(tt[j].start, tt[i].start))
  }

  ghost predicate NoCandidate(tt: seq<Entry>, day: string, limit: Option<string>) {
    forall j :: 0 <= j < |tt| ==> !Eligible(tt, day, limit, j)
  }

  /** Entry i is for that day, and starts no later than the limit, if there is one. */
  ghost predicate Eligible(tt: seq<Entry>, day: string, limit: Option<string>, i: int)
    requires 0 <= i < |tt|
  {
    (exists d :: 0 <= d < |tt[i].days| && tt[i].days[d] == day)
    && match limit case None => true case Some(last) => tt[i].start == last || Before(tt[i].start, last)
  }

  lemma EligibleIs(tt: seq<Entry>, day: string, limit: Option<string>)
    ensures forall i :: 0 <= i < |tt| ==> (Eligible(tt, day, limit, i) <==> Candidate(tt[i], day, limit))
  {
    hide Before;
    forall i | 0 <= i < |tt| ensures Eligible(tt, day, limit, i) <==> Candidate(tt[i], day, limit) {
      if limit.Some? {
        BeforeTotal(tt[i].start, limit.value);
      }
    }
  }

  function Better(best: Option<Entry>, e: Entry, day: string, limit: Option<string>): Option<Entry> {
    if Candidate(e, day, limit) && (best.None? || Before(best.value.start, e.start)) then Some(e) else best
  }

  function Best(tt: seq<Entry>, day: string, limit: Option<string>): Option<Entry> {
    if tt == [] then None else Better(Best(tt[..|tt| - 1], day, limit), tt[|tt| - 1], day, limit)
  }

  function Resolve(tt: seq<Entry>, day: string, prevDay: string, hhmm: string): Option<Entry> {
    var today := Best(tt, day, Some(hhmm));
    if today.Some? then today else Best(tt, prevDay, None)
  }

  method ResolveTimetable(tt: seq<Entry>, day: string, prevDay: string, hhmm: string) returns (best: Option<Entry>)
    ensures best == Resolve(tt, day, prevDay, hhmm)
  {
    hide Before;
    best := None;
    for i := 0 to |tt|
      invariant best == Best(tt[..i], day, Some(hhmm))
    {
      assert tt[..i + 1][..i] == tt[..i];
      if day in tt[i].days && AtMost(tt[i].start, hhmm) {
        if best.None? || Before(best.value.start, tt[i].start) {
          best := Some(tt[i]);
        }
      }
    }
    assert tt[..|tt|] == tt;
    if best.Some? {
      return;
    }
    for i := 0 to |tt|
      invariant best == Best(tt[..i], prevDay, None)
    {
      assert tt[..i + 1][..i] == tt[..i];
      if prevDay in tt[i].days && (best.None? || Before(best.value.start, tt[i].start)) {
        best := Some(tt[i]);
      }
    }
  }

  lemma {:induction false} BestIsBest(tt: seq<Entry>, day: string, limit: Option<string>) returns (i: nat)
    ensures match Best(tt, day, limit)
            case None => NoCandidate(tt, day, limit)
            case Some(e) => IsBest(tt, day, limit, i) && tt[i] == e
  {
    hide Before, Candidate, Eligible;
    i := 0;
    EligibleIs(tt, day, limit);
    if tt != [] {
      var n := |tt| - 1;
      var b := Best(tt[..n], day, limit);
      i := BestIsBest(tt[..n], day, limit);
      EligibleIs(tt[..n], day, limit);
      assert forall j :: 0 <= j < n ==> tt[..n][j] == tt[j];
      BeforeTotal(tt[n].start, tt[n].start);
      if Candidate(tt[n], day, limit) && (b.None? || Before(b.value.start, tt[n].start)) {
        if b.Some? {
          forall j | 0 <= j < n && Candidate(tt[j], day, limit)
            ensures Before(tt[j].start, tt[n].start) && AtMost(tt[j].start, tt[n].start)
          {
            Climbs(tt[j].start, tt[i].start, tt[n].start);
          }
        }
        i := n;
      }
    }
  }

  lemma Climbs(a: string, b: string, c: string)
    requires AtMost(a, b) && Before(b, c)
    ensures Before(a, c) && AtMost(a, c)
  {
    hide Before;
    BeforeTotal(a, b);
    if a != b {
      BeforeTransitive(a, b, c);
    }
    BeforeTotal(a, c);
  }

  /** The entry in force is the first with the greatest start that has come today; if there is none, the first with the
      greatest start of yesterday; and if there is none either, there is no entry. */
  lemma ResolvesTo(tt: seq<Entry>, day: string, prevDay: string, hhmm: string) returns (i: nat)
    ensures var r := Resolve(tt, day, prevDay, hhmm);
            if !NoCandidate(tt, day, Some(hhmm)) then IsBest(tt, day, Some(hhmm), i) && r == Some(tt[i])
            else if !NoCandidate(tt, prevDay, None) then IsBest(tt, prevDay, None, i) && r == Some(tt[i])
            else r == None
  {
    hide Best, AtMost, Before;
    i := BestIsBest(tt, day, Some(hhmm));
    if Best(tt, day, Some(hhmm)).None? {
      i := BestIsBest(tt, prevDay, None);
    }
  }

  predicate AllDigits(s: string) {
    forall i :: 0 <= i < |s| ==> '0' <= s[i] <= '9'
  }

  predicate FourDigits(s: string) {
    |s| == 4 && AllDigits(s)
  }

  /** Hours and minutes, read as a number. */
  function Clock(s: string): nat
    requires AllDigits(s)
  {
    if s == "" then 0 else Clock(s[..|s| - 1]) * 10 + (s[|s| - 1] as int - 48)
  }

  predicate TimeOfDay(hhmm: string) {
    FourDigits(hhmm) && Clock(hhmm) < 2400 && Clock(hhmm) % 100 < 60
  }

  lemma BeforeOne(a: string, b: string)
    requires a != "" && b != ""
    ensures Before(a, b) <==> a[0] < b[0] || (a[0] == b[0] && Before(a[1..], b[1..]))
  {}

  lemma ClockOfFour(s: string)
    requires FourDigits(s)
    ensures Clock(s)
       == (s[0] as int - 48) * 1000 + (s[1] as int - 48) * 100 + (s[2] as int - 48) * 10 + (s[3] as int - 48)
  {
    assert s[..3][..2] == s[..2] && s[..2][..1] == s[..1] && s[..1][..0] == "";
    assert Clock(s[..1]) == s[0] as int - 48;
    assert Clock(s[..2]) == Clock(s[..1]) * 10 + (s[1] as int - 48);
    assert Clock(s[..3]) == Clock(s[..2]) * 10 + (s[2] as int - 48);
  }

  /** Between times of four digits, comparing the texts is comparing the times. */
  lemma PaddedTimesCompare(a: string, b: string)
    requires FourDigits(a) && FourDigits(b)
    ensures Before(a, b) <==> Clock(a) < Clock(b)
  {
    hide Clock;
    ClockOfFour(a);
    ClockOfFour(b);
    BeforeOne(a, b);
    BeforeOne(a[1..], b[1..]);
    BeforeOne(a[2..], b[2..]);
    BeforeOne(a[3..], b[3..]);
    EmptyNotBefore();
    hide Before;
    assert a[1..][1..] == a[2..] && a[2..][1..] == a[3..] && a[3..][1..] == "" && a[4..] == "";
    assert b[1..][1..] == b[2..] && b[2..][1..] == b[3..] && b[3..][1..] == "" && b[4..] == "";
  }

  lemma EmptyNotBefore()
    ensures !Before("", "")
  {}

  lemma {:induction false} BeforeLonger(a: string, b: string)
    requires |a| > |b| && AllDigits(a)
    ensures Before(a, b) <==> Before(a, b + "0")
    decreases |b|
  {
    if b == "" {
      BeforeOne(a, "0");
      assert "" + "0" == "0" && "0"[1..] == "";
    } else {
      BeforeOne(a, b);
      BeforeOne(a, b + "0");
      assert (b + "0")[1..] == b[1..] + "0";
      BeforeLonger(a[1..], b[1..]);
    }
  }

  /** A start of three digits comes into force as if it had a 0 at its end: "130" at 13:00, "700" never. */
  lemma UnpaddedMeans(start: string, hhmm: string)
    requires |start| == 3 && AllDigits(start) && FourDigits(hhmm)
    ensures AtMost(start, hhmm) <==> Clock(start) * 10 <= Clock(hhmm)
  {
    hide Before, Clock;
    BeforeLonger(hhmm, start);
    PaddedTimesCompare(hhmm, start + "0");
    ClockWithZero(start);
  }

  lemma ClockWithZero(s: string)
    requires AllDigits(s)
    ensures AllDigits(s + "0") && Clock(s + "0") == Clock(s) * 10
  {
    assert (s + "0")[..|s|] == s;
  }

  /** A start is in force from its time on, on its own day. */
  ghost predicate StartsRight(start: string)
    requires AllDigits(start)
  {
    forall hhmm :: TimeOfDay(hhmm) ==> (AtMost(start, hhmm) <==> Clock(start) <= Clock(hhmm))
  }

  /** A time of day not before v, but before 10 * v. */
  lemma Between(v: nat) returns (hhmm: string)
    requires 0 < v < 1000
    ensures TimeOfDay(hhmm) && v <= Clock(hhmm) < 10 * v
  {
    hhmm := if v == 1 then "0001" else if v <= 10 then "0010" else if v <= 100 then "0100" else "1000";
    ClockOfFour(hhmm);
  }

  /** Of the starts of three or four digits, those come into force on time that have four, or are "000". */
  lemma StartsRightIff(start: string)
    requires (|start| == 3 || |start| == 4) && AllDigits(start)
    ensures StartsRight(start) <==> |start| == 4 || start == "000"
  {
    hide Before, AtMost;
    if |start| == 4 {
      forall hhmm | TimeOfDay(hhmm) ensures AtMost(start, hhmm) <==> Clock(start) <= Clock(hhmm) {
        AtMostIs(start, hhmm);
        PaddedTimesCompare(hhmm, start);
      }
    } else {
      ClockOfThree(start);
      if start == "000" {
        forall hhmm | TimeOfDay(hhmm) ensures AtMost(start, hhmm) <==> Clock(start) <= Clock(hhmm) {
          UnpaddedMeans(start, hhmm);
        }
      } else {
        var hhmm := Between(Clock(start));
        UnpaddedMeans(start, hhmm);
      }
    }
  }

  lemma AtMostIs(a: string, b: string)
    ensures AtMost(a, b) <==> !Before(b, a)
  {}

  lemma ClockOfThree(s: string)
    requires |s| == 3 && AllDigits(s)
    ensures Clock(s) < 1000 && (Clock(s) == 0 <==> s == "000")
  {
    ClockWithZero(s);
    ClockOfFour(s + "0");
    hide Clock;
    if Clock(s) == 0 {
      assert s[0] == '0' && s[1] == '0' && s[2] == '0';
    }
  }

  /** So "700" is never reached on its own day, and "130" is reached at 13:00. */
  lemma UnpaddedInstances(hhmm: string)
    requires TimeOfDay(hhmm)
    ensures !AtMost("700", hhmm)
    ensures AtMost("130", hhmm) <==> Clock(hhmm) >= 1300
  {
    hide Before, AtMost, Clock;
    Instances();
    UnpaddedMeans("700", hhmm);
    UnpaddedMeans("130", hhmm);
  }

  lemma Instances()
    ensures AllDigits("700") && Clock("700") == 700 && AllDigits("130") && Clock("130") == 130
  {
    assert "700"[..2] == "70" && "70"[..1] == "7" && "7"[..0] == "";
    assert "130"[..2] == "13" && "13"[..1] == "1" && "1"[..0] == "";
  }

  // ---- Position in the cycle ---------------------------------------------------------------------------

  const DAY_SECONDS := 86_400

  /** Python's remainder: it has the sign of the divisor. */
  function PyMod(a: int, b: int): int
    requires b != 0
  {
    if b > 0 then a % b else -((-a) % (-b))
  }

  datatype TimeMode = ByDate(base: Option<int>) | ByTime(base: Option<int>) | ByActivation

  /** What a tick knows about the time: days and time of day for the timetable, and seconds since an epoch, since
      midnight and of the monotonic clock. */
  datatype Now = Now(day: string, prevDay: string, hhmm: string, clock: int, ofDay: int, mono: int)

  function SinceBase(base: int, ofDay: int): int {
    if ofDay >= base then ofDay - base else (DAY_SECONDS - base) + ofDay
  }

  /** None where the division by zero is not caught. */
  function CyclePos(mode: TimeMode, cycle: int, now: Now, since: int): Option<int> {
    match mode
    case ByDate(base) => Some(if base.None? || cycle == 0 then 0 else PyMod(now.clock - base.value, cycle))
    case ByTime(base) => Some(if base.None? || cycle == 0 then 0 else PyMod(SinceBase(base.value, now.ofDay), cycle))
    case ByActivation => if cycle == 0 then None else Some(PyMod(now.mono - since, cycle))
  }

  lemma CyclePosInRange(mode: TimeMode, cycle: int, now: Now, since: int)
    requires cycle > 0
    ensures var p := CyclePos(mode, cycle, now, since); p.Some? && 0 <= p.value < cycle
  {}

  lemma SuccessorMod(a: int, c: int)
    requires c > 0
    ensures (a + 1) % c == (a % c + 1) % c
  {
    var q := a / c;
    var r := a % c;
    assert a == q * c + r;
    if r + 1 < c {
      ModUnique(a + 1, c, q, r + 1);
      ModUnique(r + 1, c, 0, r + 1);
    } else {
      assert (q + 1) * c == q * c + c;
      ModUnique(a + 1, c, q + 1, 0);
      ModUnique(r + 1, c, 1, 0);
    }
  }

  lemma ModUnique(a: int, c: int, q: int, r: int)
    requires c > 0 && a == q * c + r && 0 <= r < c
    ensures a % c == r && a / c == q
  {
    var q', r' := a / c, a % c;
    assert a == q' * c + r';
    assert (q - q') * c == q * c - q' * c == r' - r;
    assert q - q' >= 1 ==> (q - q') * c >= c;
    assert q - q' <= -1 ==> (q - q') * c <= -c;
  }

  /** By date, a second later is one further in the cycle, even before the base date. */
  lemma DateModeAdvances(base: int, cycle: int, now: Now, since: int)
    requires cycle > 0
    ensures var p := CyclePos(ByDate(Some(base)), cycle, now, since).value;
            CyclePos(ByDate(Some(base)), cycle, now.(clock := now.clock + 1), since) == Some((p + 1) % cycle)
  {
    SuccessorMod(now.clock - base, cycle);
    assert now.clock + 1 - base == now.clock - base + 1;
  }

  /** At the base date and time the cycle starts; so it does at the base time of day. */
  lemma BaseStartsCycle(base: int, cycle: int, now: Now, since: int)
    requires cycle > 0
    ensures CyclePos(ByDate(Some(base)), cycle, now.(clock := base), since) == Some(0)
    ensures CyclePos(ByTime(Some(base)), cycle, now.(ofDay := base), since) == Some(0)
  {
    ModUnique(0, cycle, 0, 0);
  }

  /** Without a base, or with a cycle of 0, plans by date or time of day stay at their start; by activation, a cycle of
      0 is an error. */
  lemma NoCycle(base: Option<int>, cycle: int, now: Now, since: int)
    requires base.None? || cycle == 0
    ensures CyclePos(ByDate(base), cycle, now, since) == CyclePos(ByTime(base), cycle, now, since) == Some(0)
    ensures CyclePos(ByActivation, cycle, now, since) == None <==> cycle == 0
  {}

  /** From activation, too. */
  lemma ActivationModeAdvances(cycle: int, now: Now, since: int)
    requires cycle > 0
    ensures CyclePos(ByActivation, cycle, now.(mono := since), since) == Some(0)
    ensures var p := CyclePos(ByActivation, cycle, now, since).value;
            CyclePos(ByActivation, cycle, now.(mono := now.mono + 1), since) == Some((p + 1) % cycle)
  {
    ModUnique(0, cycle, 0, 0);
    SuccessorMod(now.mono - since, cycle);
    assert now.mono + 1 - since == now.mono - since + 1;
  }

  /** By time of day it is, too, across midnight as well; across the base time only for a cycle that divides the day. */
  lemma TimeModeAdvancesIff(base: nat, cycle: int, now: Now, since: int)
    requires cycle > 0 && 0 <= now.ofDay < DAY_SECONDS && base < DAY_SECONDS
    ensures var p := CyclePos(ByTime(Some(base)), cycle, now, since).value;
            var next := (now.ofDay + 1) % DAY_SECONDS;
            (CyclePos(ByTime(Some(base)), cycle, now.(ofDay := next), since) == Some((p + 1) % cycle))
            <==> (next != base || 86_400 % cycle == 0)
  {
    hide PyMod;
    var next := (now.ofDay + 1) % DAY_SECONDS;
    var e := SinceBase(base, now.ofDay);
    PyModPositive(e, cycle);
    PyModPositive(SinceBase(base, next), cycle);
    SuccessorMod(e, cycle);
    if next == base {
      assert SinceBase(base, next) == 0 && e + 1 == DAY_SECONDS;
      ModUnique(0, cycle, 0, 0);
    } else {
      assert SinceBase(base, next) == e + 1;
    }
  }

  lemma PyModPositive(a: int, b: int)
    requires b > 0
    ensures PyMod(a, b) == a % b
  {}

  // ---- Configuration and plans ---------------------------------------------------------------------------

  /** The fields of an SCN, in configuration order. */
  type Fields = seq<(ControlField, Bits)>

  /** A moment of a plan, with what it sets: a mask for a bitmask field, a value for any other. */
  datatype Offset = Offset(at: int, settings: map<ControlField, int>)
  datatype Plan = Plan(cycle: int, offsets: seq<Offset>)
  datatype PlanFile = PlanFile(timetable: seq<Entry>,
      plans: map<string, map<string, Plan>>, modes: set<int>, time: TimeMode)

  /** The order in which a moment's fields are written. */
  const ORDER: seq<ControlField> := [Fn, Dn, SFn, GO, FM, TS, SO, MO, DX, PV, PX, SG, LO, LL, TO, HI, CP, EP, FF]

  function Lookup(fields: Fields, f: ControlField): Option<Bits> {
    if fields == [] then None
    else if fields[0].0 == f then Some(fields[0].1)
    else Lookup(fields[1..], f)
  }

  /** Field names are keys; every field has a signal, and the bits of a mask have numbers. */
  predicate FieldsOk(fields: Fields) {
    && (forall i, j :: 0 <= i < j < |fields| ==> fields[i].0 != fields[j].0)
    && (forall i :: 0 <= i < |fields| ==> fields[i].1 != [] && (IsBitmask(fields[i].0) ==> Numbered(fields[i].1)))
  }

  lemma {:induction false} LookupFinds(fields: Fields, f: ControlField)
    requires FieldsOk(fields)
    ensures match Lookup(fields, f)
            case None => forall i :: 0 <= i < |fields| ==> fields[i].0 != f
            case Some(bits) => exists i :: 0 <= i < |fields| && fields[i] == (f, bits)
    ensures Lookup(fields, f).Some?
        ==> Lookup(fields, f).value != [] && (IsBitmask(f) ==> Numbered(Lookup(fields, f).value))
  {
    if fields != [] && fields[0].0 != f {
      LookupFinds(fields[1..], f);
      if Lookup(fields, f).Some? {
        var i :| 0 <= i < |fields[1..]| && fields[1..][i] == (f, Lookup(fields, f).value);
        assert fields[i + 1] == (f, Lookup(fields, f).value);
      } else {
        forall i | 0 <= i < |fields| ensures fields[i].0 != f {
          assert i > 0 ==> fields[i] == fields[1..][i - 1];
        }
      }
    } else if fields != [] {
      assert fields[0] == (f, fields[0].1);
    }
  }

  // ---- What a moment of a plan writes ----------------------------------------------------------------------

  function FieldWrites(fields: Fields, off: Offset, f: ControlField): seq<BusWrite>
    requires FieldsOk(fields)
  {
    if f !in off.settings || Lookup(fields, f).None? then []
    else
      LookupFinds(fields, f);
      var bits := Lookup(fields, f).value;
      if IsBitmask(f) then MaskWrites(bits, off.settings[f]) else [BusWrite(bits[0].1, off.settings[f])]
  }

  function OffsetWrites(fields: Fields, off: Offset, order: seq<ControlField>): seq<BusWrite>
    requires FieldsOk(fields)
  {
    if order == [] then []
    else OffsetWrites(fields, off, order[..|order| - 1]) + FieldWrites(fields, off, order[|order| - 1])
  }

  method ApplyField(io: BusClient, fields: Fields, off: Offset, f: ControlField)
    requires FieldsOk(fields)
    modifies io
    ensures io.log == old(io.log) + FieldWrites(fields, off, f)
  {
    hide MaskWrites, Lookup, FieldsOk;
    LookupFinds(fields, f);
    if f in off.settings && Lookup(fields, f).Some? {
      var bits := Lookup(fields, f).value;
      if IsBitmask(f) {
        SetMask(io, bits, off.settings[f]);
      } else {
        io.Write(bits[0].1, off.settings[f]);
      }
    }
  }

  method ApplyOffset(io: BusClient, fields: Fields, off: Offset)
    requires FieldsOk(fields)
    modifies io
    ensures io.log == old(io.log) + OffsetWrites(fields, off, ORDER)
  {
    hide FieldWrites, FieldsOk;
    var order := ORDER;
    for i := 0 to |order|
      invariant io.log == old(io.log) + OffsetWrites(fields, off, order[..i])
    {
      assert order[..i + 1][..i] == order[..i];
      ApplyField(io, fields, off, order[i]);
    }
    assert order[..|order|] == order;
  }

  function ZeroBits(bits: Bits): seq<BusWrite> {
    seq(|bits|, i requires 0 <= i < |bits| => BusWrite(bits[i].1, 0))
  }

  function ZeroWrites(fields: Fields): seq<BusWrite> {
    if fields == [] then [] else ZeroWrites(fields[..|fields| - 1]) + ZeroBits(fields[|fields| - 1].1)
  }

  method ZeroScn(io: BusClient, fields: Fields)
    modifies io
    ensures io.log == old(io.log) + ZeroWrites(fields)
  {
    for i := 0 to |fields|
      invariant io.log == old(io.log) + ZeroWrites(fields[..i])
    {
      assert fields[..i + 1][..i] == fields[..i];
      var bits := fields[i].1;
      ghost var start := io.log;
      for j := 0 to |bits|
        invariant io.log == start + ZeroBits(bits)[..j]
      {
        io.Write(bits[j].1, 0);
      }
      assert ZeroBits(bits)[..|bits|] == ZeroBits(bits);
    }
    assert fields[..|fields|] == fields;
  }

  /** The last moment listed whose time has come, or -1. */
  function ActiveIdx(offsets: seq<Offset>, pos: int): (idx: int)
    ensures -1 <= idx < |offsets|
    ensures idx >= 0 ==> offsets[idx].at <= pos
    ensures forall k :: idx < k < |offsets| ==> offsets[k].at > pos
  {
    if offsets == [] then -1
    else if offsets[|offsets| - 1].at <= pos then |offsets| - 1
    else ActiveIdx(offsets[..|offsets| - 1], pos)
  }

  // ---- The player ---------------------------------------------------------------------------------------------

  datatype PlayerState = PlayerState(
    active: map<string, string>,   // SCN to plan, for those that have one
    since: map<string, int>,       // when it was activated
    lastIdx: map<string, int>,     // the moment applied last
    bus: Bus,                      // the last values this service wrote
    log: seq<BusWrite>)            // all its writes

  const NEW_PLAYER := PlayerState(map[], map[], map[], map[], [])

  type Control = map<string, Fields>

  function FieldsOf(control: Control, scn: string): Fields {
    if scn in control then control[scn] else []
  }

  predicate AllWellFormed(control: Control) {
    forall scn :: scn in control ==> FieldsOk(control[scn])
  }

  function Activated(s: PlayerState, scn: string, plan: string, now: Now): PlayerState {
    if scn in s.active && s.active[scn] == plan then s
    else s.(active := s.active[scn := plan], since := s.since[scn := now.mono], lastIdx := s.lastIdx[scn := -1])
  }

  function Applied(control: Control, s: PlayerState, scn: string, offsets: seq<Offset>, pos: int): PlayerState
    requires AllWellFormed(control)
  {
    var idx := ActiveIdx(offsets, pos);
    if scn in s.lastIdx && s.lastIdx[scn] == idx then s
    else s.(lastIdx := s.lastIdx[scn := idx],
            bus := if idx < 0 then s.bus else Apply(s.bus, OffsetWrites(FieldsOf(control, scn), offsets[idx], ORDER)),
            log := if idx < 0 then s.log else s.log + OffsetWrites(FieldsOf(control, scn), offsets[idx], ORDER))
  }

  function StoodDown(control: Control, s: PlayerState, scn: string): PlayerState {
    s.(active := s.active - {scn}, lastIdx := s.lastIdx - {scn},
       bus := if scn in s.active then Apply(s.bus, ZeroWrites(FieldsOf(control, scn))) else s.bus,
       log := if scn in s.active then s.log + ZeroWrites(FieldsOf(control, scn)) else s.log)
  }

  /** The plan an SCN is to run. */
  function Wanted(file: PlanFile, scn: string, plan: Option<string>): Option<Plan>
    requires scn in file.plans
  {
    if plan.Some? && plan.value != "" && plan.value in file.plans[scn] then Some(file.plans[scn][plan.value]) else None
  }

  /** One SCN's part of a tick, and whether it ends in an error. */
  function TickScn(control: Control, file: PlanFile, s: PlayerState, scn: string, plan: Option<string>,
        now: Now): (PlayerState, bool)
    requires AllWellFormed(control)
  {
    if scn !in file.plans then (s, false)
    else
      var wanted := Wanted(file, scn, plan);
      if wanted.None? then (StoodDown(control, s, scn), false)
      else
        var t := Activated(s, scn, plan.value, now);
        var pos := CyclePos(file.time, wanted.value.cycle, now, if scn in t.since then t.since[scn] else now.mono);
        if pos.None? then (t, true) else (Applied(control, t, scn, wanted.value.offsets, pos.value), false)
  }

  /** An error ends the tick. */
  function TickScns(control: Control, file: PlanFile, s: PlayerState, scns: seq<string>, plan: Option<string>,
        now: Now): (PlayerState, bool)
    requires AllWellFormed(control)
  {
    if scns == [] then (s, false)
    else
      var (t, failed) := TickScns(control, file, s, scns[..|scns| - 1], plan, now);
      if failed then (t, true) else TickScn(control, file, t, scns[|scns| - 1], plan, now)
  }

  predicate Playing(file: PlanFile, opMode: int) {
    opMode < 3 && opMode in file.modes
  }

  function PlanName(file: PlanFile, opMode: int, now: Now): Option<string> {
    if !Playing(file, opMode) then None
    else
      var entry := Resolve(file.timetable, now.day, now.prevDay, now.hhmm);
      if entry.None? then None else entry.value.plan
  }

  /** The plan file is unchanged, or has changed and cannot be read, or has been read. */
  datatype Reload = Unchanged | Unreadable | Read(file: PlanFile)

  function FileAfter(file: PlanFile, reload: Reload): PlanFile {
    if reload.Read? then reload.file else file
  }

  function Reloaded(s: PlayerState, reload: Reload): PlayerState {
    if reload.Unchanged? then s else s.(active := map[], since := map[], lastIdx := map[])
  }

  function Tick(control: Control, scns: seq<string>, file: PlanFile, s: PlayerState, opMode: int, now: Now,
        reload: Reload): PlayerState
    requires AllWellFormed(control)
  {
    var f := FileAfter(file, reload);
    TickScns(control, f, Reloaded(s, reload), scns, PlanName(f, opMode, now), now).0
  }

  class Player {
    const control: Control
    const scns: seq<string>
    const io: BusClient
    var file: PlanFile
    var active: map<string, string>
    var since: map<string, int>
    var lastIdx: map<string, int>

    ghost function Current(): PlayerState
      reads this, io
    {
      PlayerState(active, since, lastIdx, Apply(map[], io.log), io.log)
    }

    constructor (control: Control, scns: seq<string>, file: PlanFile)
      ensures this.control == control && this.scns == scns && this.file == file && fresh(io)
      ensures Current() == NEW_PLAYER
    {
      this.control, this.scns, this.file := control, scns, file;
      io := new BusClient();
      active, since, lastIdx := map[], map[], map[];
    }

    method ApplyOffsets(scn: string, offsets: seq<Offset>, pos: int)
      requires AllWellFormed(control)
      modifies `lastIdx, io
      ensures Current() == Applied(control, old(Current()), scn, offsets, pos)
    {
      hide FieldsOk, OffsetWrites, Apply;
      var idx := -1;
      for i := 0 to |offsets|
        invariant idx == ActiveIdx(offsets[..i], pos)
        invariant unchanged(this) && unchanged(io)
      {
        assert offsets[..i + 1][..i] == offsets[..i];
        if offsets[i].at <= pos {
          idx := i;
        }
      }
      assert offsets[..|offsets|] == offsets;
      if scn in lastIdx && lastIdx[scn] == idx {
        return;
      }
      lastIdx := lastIdx[scn := idx];
      if idx >= 0 {
        NoFieldsOk();
        var fields := if scn in control then control[scn] else [];
        ApplyOffset(io, fields, offsets[idx]);
        ApplyAppend(map[], old(io.log), OffsetWrites(fields, offsets[idx], ORDER));
      }
    }

    method StandDown(scn: string)
      modifies `active, `lastIdx, io
      ensures Current() == StoodDown(control, old(Current()), scn)
    {
      hide ZeroWrites, Apply;
      if scn in active {
        var fields := if scn in control then control[scn] else [];
        ZeroScn(io, fields);
        ApplyAppend(map[], old(io.log), ZeroWrites(fields));
      }
      active, lastIdx := active - {scn}, lastIdx - {scn};
    }

    method PlayScn(scn: string, plan: Option<string>, now: Now) returns (failed: bool)
      requires AllWellFormed(control)
      modifies `active, `since, `lastIdx, io
      ensures (Current(), failed) == TickScn(control, file, old(Current()), scn, plan, now)
    {
      hide AllWellFormed, CyclePos, Applied, StoodDown, Apply;
      failed := false;
      if scn !in file.plans {
        return;
      }
      var plans := file.plans[scn];
      if plan.Some? && plan.value != "" && plan.value in plans {
        if !(scn in active && active[scn] == plan.value) {
          active, since, lastIdx := active[scn := plan.value], since[scn := now.mono], lastIdx[scn := -1];
        }
        var wanted := plans[plan.value];
        var pos := CyclePos(file.time, wanted.cycle, now, if scn in since then since[scn] else now.mono);
        if pos.None? {
          return true;
        }
        ApplyOffsets(scn, wanted.offsets, pos.value);
      } else {
        StandDown(scn);
      }
    }

    method PlayTick(opMode: int, now: Now, reload: Reload)
      requires AllWellFormed(control)
      modifies this, io
      ensures file == FileAfter(old(file), reload)
      ensures Current() == Tick(control, scns, old(file), old(Current()), opMode, now, reload)
    {
      hide TickScn, Resolve, AllWellFormed, Apply;
      if !reload.Unchanged? {
        active, since, lastIdx := map[], map[], map[];
        if reload.Read? {
          file := reload.file;
        }
      }
      ghost var s := Current();
      var plan := None;
      if opMode < 3 && opMode in file.modes {
        var entry := ResolveTimetable(file.timetable, now.day, now.prevDay, now.hhmm);
        if entry.Some? {
          plan := entry.value.plan;
        }
      }
      for i := 0 to |scns|
        invariant file == FileAfter(old(file), reload)
        invariant (Current(), false) == TickScns(control, file, s, scns[..i], plan, now)
      {
        assert scns[..i + 1][..i] == scns[..i];
        var failed := PlayScn(scns[i], plan, now);
        if failed {
          TickScnsStops(control, file, s, scns, i + 1, plan, now);
          return;
        }
      }
      assert scns[..|scns|] == scns;
    }
  }

  lemma NoFieldsOk()
    ensures FieldsOk([])
  {}

  lemma {:induction false} TickScnsStops(control: Control, file: PlanFile, s: PlayerState, scns: seq<string>, i: nat,
        plan: Option<string>, now: Now)
    requires AllWellFormed(control) && i <= |scns| && TickScns(control, file, s, scns[..i], plan, now).1
    ensures TickScns(control, file, s, scns, plan, now) == TickScns(control, file, s, scns[..i], plan, now)
    decreases |scns|
  {
    hide TickScn;
    if i < |scns| {
      assert scns[..|scns| - 1][..i] == scns[..i];
      TickScnsStops(control, file, s, scns[..|scns| - 1], i, plan, now);
    } else {
      assert scns[..i] == scns;
    }
  }

  // ---- Signals ---------------------------------------------------------------------------------------------------

  predicate InBits(bits: Bits, sig: string) {
    exists j :: 0 <= j < |bits| && bits[j].1 == sig
  }

  predicate InFields(fields: Fields, sig: string) {
    exists i :: 0 <= i < |fields| && InBits(fields[i].1, sig)
  }

  /** No signal stands for two bits, within an SCN or across SCNs. */
  predicate OwnSignals(fields: Fields) {
    && (forall i :: 0 <= i < |fields| ==> Distinct(fields[i].1))
    && (forall i, k :: 0 <= i < k < |fields| ==>
          forall j :: 0 <= j < |fields[i].1| ==> !InBits(fields[k].1, fields[i].1[j].1))
  }

  ghost predicate Separate(control: Control) {
    && AllWellFormed(control)
    && (forall scn :: scn in control ==> OwnSignals(control[scn]))
    && (forall a, b, sig :: a in control && b in control && InFields(control[a], sig) && InFields(control[b], sig)
          ==> a == b)
  }

  /** The bus shows what a moment sets for a field. */
  predicate FieldShown(bus: Bus, bits: Bits, f: ControlField, v: int)
    requires bits != [] && (IsBitmask(f) ==> Numbered(bits))
  {
    if IsBitmask(f) then forall j :: 0 <= j < |bits| ==> Value(bus, bits[j].1) == BitOf(v, bits[j].0)
    else Value(bus, bits[0].1) == v
  }

  /** The bus shows all that a moment sets. */
  predicate Shown(bus: Bus, fields: Fields, off: Offset)
    requires FieldsOk(fields)
  {
    forall i :: 0 <= i < |fields| && fields[i].0 in off.settings && fields[i].0 in ORDER
      ==> FieldShown(bus, fields[i].1, fields[i].0, off.settings[fields[i].0])
  }

  predicate AllZero(bus: Bus, fields: Fields) {
    forall i, j :: 0 <= i < |fields| && 0 <= j < |fields[i].1| ==> Value(bus, fields[i].1[j].1) == 0
  }

  lemma LookupIs(fields: Fields, i: nat)
    requires FieldsOk(fields) && i < |fields|
    ensures Lookup(fields, fields[i].0) == Some(fields[i].1)
  {
    LookupFinds(fields, fields[i].0);
  }

  /** Writing a field shows it and touches no other signal. */
  lemma FieldEffect(bus: Bus, fields: Fields, off: Offset, i: nat)
    requires FieldsOk(fields) && OwnSignals(fields) && i < |fields|
    ensures var after := Apply(bus, FieldWrites(fields, off, fields[i].0));
            && (fields[i].0 in off.settings ==> FieldShown(after, fields[i].1, fields[i].0, off.settings[fields[i].0]))
            && (forall sig :: !InBits(fields[i].1, sig) ==> Value(after, sig) == Value(bus, sig))
  {
    hide MaskWrites, Lookup;
    var (f, bits) := fields[i];
    LookupIs(fields, i);
    if f in off.settings {
      if IsBitmask(f) {
        FinalState(bus, bits, off.settings[f]);
      } else {
        One(bus, bits[0].1, off.settings[f]);
      }
    } else {
      NoWrites(bus);
    }
  }

  lemma One(bus: Bus, sig: string, v: int)
    ensures Apply(bus, [BusWrite(sig, v)]) == bus[sig := v]
  {
    assert [BusWrite(sig, v)][1..] == [];
  }

  lemma FieldUnconfigured(bus: Bus, fields: Fields, off: Offset, f: ControlField)
    requires FieldsOk(fields) && forall i :: 0 <= i < |fields| ==> fields[i].0 != f
    ensures Apply(bus, FieldWrites(fields, off, f)) == bus
  {
    LookupFinds(fields, f);
    NoWrites(bus);
  }

  lemma {:induction false} OffsetEffect(bus: Bus, fields: Fields, off: Offset, order: seq<ControlField>)
    requires FieldsOk(fields) && OwnSignals(fields)
    requires forall a, b :: 0 <= a < b < |order| ==> order[a] != order[b]
    ensures var after := Apply(bus, OffsetWrites(fields, off, order));
            && (forall i :: 0 <= i < |fields| && fields[i].0 in off.settings && fields[i].0 in order
                  ==> FieldShown(after, fields[i].1, fields[i].0, off.settings[fields[i].0]))
            && (forall sig :: !InFields(fields, sig) ==> Value(after, sig) == Value(bus, sig))
    decreases |order|
  {
    hide Apply, FieldWrites, FieldsOk, OwnSignals, FieldShown, InFields;
    if order == [] {
      NoWrites(bus);
    } else {
      var n := |order| - 1;
      OffsetEffect(bus, fields, off, order[..n]);
      var mid := Apply(bus, OffsetWrites(fields, off, order[..n]));
      ApplyAppend(bus, OffsetWrites(fields, off, order[..n]), FieldWrites(fields, off, order[n]));
      OffsetStep(mid, fields, off, order[..n], order[n]);
    }
  }

  /** One more field is shown, and those shown before still are. */
  lemma OffsetStep(bus: Bus, fields: Fields, off: Offset, done: seq<ControlField>, f: ControlField)
    requires FieldsOk(fields) && OwnSignals(fields) && f !in done
    requires forall i :: 0 <= i < |fields| && fields[i].0 in off.settings && fields[i].0 in done
               ==> FieldShown(bus, fields[i].1, fields[i].0, off.settings[fields[i].0])
    ensures var after := Apply(bus, FieldWrites(fields, off, f));
            && (forall i :: 0 <= i < |fields| && fields[i].0 in off.settings
                  && (fields[i].0 in done || fields[i].0 == f)
                  ==> FieldShown(after, fields[i].1, fields[i].0, off.settings[fields[i].0]))
            && (forall sig :: !InFields(fields, sig) ==> Value(after, sig) == Value(bus, sig))
  {
    hide Apply, FieldWrites, BitOf, FieldShown, InBits;
    if exists k :: 0 <= k < |fields| && fields[k].0 == f {
      var k :| 0 <= k < |fields| && fields[k].0 == f;
      FieldEffect(bus, fields, off, k);
      var after := Apply(bus, FieldWrites(fields, off, f));
      forall i | 0 <= i < |fields| && fields[i].0 in off.settings && fields[i].0 in done
        ensures FieldShown(after, fields[i].1, fields[i].0, off.settings[fields[i].0])
      {
        OtherField(fields, i, k);
        SameShown(bus, after, fields[i].1, fields[i].0, off.settings[fields[i].0]);
      }
    } else {
      FieldUnconfigured(bus, fields, off, f);
    }
  }

  lemma OtherField(fields: Fields, i: nat, k: nat)
    requires OwnSignals(fields) && i < |fields| && k < |fields| && i != k
    ensures forall j :: 0 <= j < |fields[i].1| ==> !InBits(fields[k].1, fields[i].1[j].1)
  {
    forall j | 0 <= j < |fields[i].1| ensures !InBits(fields[k].1, fields[i].1[j].1) {
      if k < i && InBits(fields[k].1, fields[i].1[j].1) {
        var l :| 0 <= l < |fields[k].1| && fields[k].1[l].1 == fields[i].1[j].1;
        assert InBits(fields[i].1, fields[k].1[l].1);
      }
    }
  }

  lemma SameShown(bus: Bus, after: Bus, bits: Bits, f: ControlField, v: int)
    requires bits != [] && (IsBitmask(f) ==> Numbered(bits)) && FieldShown(bus, bits, f, v)
    requires forall j :: 0 <= j < |bits| ==> Value(after, bits[j].1) == Value(bus, bits[j].1)
    ensures FieldShown(after, bits, f, v)
  {}

  lemma {:induction false} ZeroEffect(bus: Bus, fields: Fields)
    ensures var after := Apply(bus, ZeroWrites(fields));
            forall sig :: Value(after, sig) == if InFields(fields, sig) then 0 else Value(bus, sig)
  {
    hide Apply, Value;
    if fields == [] {
      NoWrites(bus);
    } else {
      var n := |fields| - 1;
      var bits := fields[n].1;
      ZeroEffect(bus, fields[..n]);
      var mid := Apply(bus, ZeroWrites(fields[..n]));
      ApplyAppend(bus, ZeroWrites(fields[..n]), ZeroBits(bits));
      ZeroBitsEffect(mid, bits);
      forall sig ensures InFields(fields, sig) <==> InFields(fields[..n], sig) || InBits(bits, sig) {
        if InFields(fields[..n], sig) {
          var i :| 0 <= i < n && InBits(fields[..n][i].1, sig);
          assert InBits(fields[i].1, sig);
        }
        if InFields(fields, sig) && !InBits(bits, sig) {
          var i :| 0 <= i < |fields| && InBits(fields[i].1, sig);
          assert InBits(fields[..n][i].1, sig);
        }
      }
    }
  }

  lemma ZeroBitsEffect(bus: Bus, bits: Bits)
    ensures forall sig :: Value(Apply(bus, ZeroBits(bits)), sig) == if InBits(bits, sig) then 0 else Value(bus, sig)
  {
    ApplyUniform(bus, ZeroBits(bits), 0);
    forall sig ensures InBits(bits, sig) <==> BusWrite(sig, 0) in ZeroBits(bits) {
      if InBits(bits, sig) {
        var j :| 0 <= j < |bits| && bits[j].1 == sig;
        assert ZeroBits(bits)[j] == BusWrite(sig, 0);
      }
    }
  }

  // ---- Ticks -------------------------------------------------------------------------------------------------------

  /** An SCN without a plan is off; one with a plan runs a plan of the file, and shows the moment applied last. */
  ghost predicate Good(control: Control, file: PlanFile, s: PlayerState, scn: string)
    requires AllWellFormed(control)
  {
    if scn !in s.active then Quiet(control, s, scn)
    else
      && scn in file.plans && s.active[scn] != "" && s.active[scn] in file.plans[scn] && scn in s.lastIdx
      && var offsets := file.plans[scn][s.active[scn]].offsets;
         var idx := s.lastIdx[scn];
         -1 <= idx < |offsets| && (idx >= 0 ==> Shown(s.bus, FieldsOf(control, scn), offsets[idx]))
  }

  /** The last value written to every signal of the SCN is 0. */
  predicate Quiet(control: Control, s: PlayerState, scn: string) {
    AllZero(s.bus, FieldsOf(control, scn))
  }

  predicate SameFields(s: PlayerState, t: PlayerState, fields: Fields) {
    forall i, j :: 0 <= i < |fields| && 0 <= j < |fields[i].1|
        ==> Value(t.bus, fields[i].1[j].1) == Value(s.bus, fields[i].1[j].1)
  }

  /** What the player remembers about an SCN. */
  predicate SameMemory(s: PlayerState, t: PlayerState, scn: string) {
    && (scn in t.active <==> scn in s.active) && (scn in s.active ==> t.active[scn] == s.active[scn])
    && (scn in t.lastIdx <==> scn in s.lastIdx) && (scn in s.lastIdx ==> t.lastIdx[scn] == s.lastIdx[scn])
  }

  lemma StepsRemember(control: Control, s: PlayerState, scn: string, plan: string, now: Now, offsets: seq<Offset>,
        pos: int, other: string)
    requires AllWellFormed(control) && other != scn
    ensures SameMemory(s, Activated(s, scn, plan, now), other)
    ensures SameMemory(s, StoodDown(control, s, scn), other)
    ensures SameMemory(s, Applied(control, s, scn, offsets, pos), other)
  {
    hide Apply, OffsetWrites, ZeroWrites, FieldsOk, ActiveIdx;
  }

  lemma OthersRemembered(control: Control, file: PlanFile, s: PlayerState, scn: string, plan: Option<string>,
        now: Now, other: string)
    requires AllWellFormed(control) && other != scn
    ensures SameMemory(s, TickScn(control, file, s, scn, plan, now).0, other)
  {
    hide CyclePos, Activated, StoodDown, Applied, AllWellFormed;
    StepsRemember(control, s, scn, "", now, [], 0, other);
    if scn in file.plans && Wanted(file, scn, plan).Some? {
      StepsRemember(control, s, scn, plan.value, now, [], 0, other);
      var t := Activated(s, scn, plan.value, now);
      var w := Wanted(file, scn, plan).value;
      var pos := CyclePos(file.time, w.cycle, now, if scn in t.since then t.since[scn] else now.mono);
      StepsRemember(control, t, scn, "", now, w.offsets, if pos.Some? then pos.value else 0, other);
    }
  }

  lemma ForeignSignals(control: Control, scn: string, other: string, i: nat, j: nat)
    requires Separate(control) && other != scn
    requires i < |FieldsOf(control, other)| && j < |FieldsOf(control, other)[i].1|
    ensures !InFields(FieldsOf(control, scn), FieldsOf(control, other)[i].1[j].1)
  {
    hide FieldsOk, OwnSignals, InFields;
    NoFields();
    IsInFields(FieldsOf(control, other), i, j);
  }

  /** A tick of one SCN leaves the others alone. */
  lemma OthersAlone(control: Control, file: PlanFile, s: PlayerState, scn: string, plan: Option<string>, now: Now,
        other: string)
    requires Separate(control) && other != scn
    ensures var t := TickScn(control, file, s, scn, plan, now).0;
            SameMemory(s, t, other) && SameFields(s, t, FieldsOf(control, other))
  {
    hide TickScn, InFields, FieldsOk, OwnSignals, FieldsOf, Value;
    OthersRemembered(control, file, s, scn, plan, now, other);
    var t := TickScn(control, file, s, scn, plan, now).0;
    var theirs := FieldsOf(control, other);
    forall i, j | 0 <= i < |theirs| && 0 <= j < |theirs[i].1|
      ensures Value(t.bus, theirs[i].1[j].1) == Value(s.bus, theirs[i].1[j].1)
    {
      ForeignSignals(control, scn, other, i, j);
      TouchesOwn(control, file, s, scn, plan, now, theirs[i].1[j].1);
    }
  }

  lemma NoFields()
    ensures FieldsOk([]) && OwnSignals([]) && forall sig :: !InFields([], sig)
  {}

  lemma IsInFields(fields: Fields, i: nat, j: nat)
    requires i < |fields| && j < |fields[i].1|
    ensures InFields(fields, fields[i].1[j].1)
  {
    assert InBits(fields[i].1, fields[i].1[j].1);
  }

  lemma OrderDistinct()
    ensures forall a, b :: 0 <= a < b < |ORDER| ==> ORDER[a] != ORDER[b]
  {}

  lemma TouchesOwn(control: Control, file: PlanFile, s: PlayerState, scn: string, plan: Option<string>, now: Now,
        sig: string)
    requires Separate(control) && !InFields(FieldsOf(control, scn), sig)
    ensures Value(TickScn(control, file, s, scn, plan, now).0.bus, sig) == Value(s.bus, sig)
  {
    hide CyclePos, Apply, OffsetWrites, ZeroWrites, OwnSignals, FieldsOk, InFields, Value;
    var fields := FieldsOf(control, scn);
    NoFields();
    OrderDistinct();
    ZeroEffect(s.bus, fields);
    if scn in file.plans && Wanted(file, scn, plan).Some? {
      var offsets := Wanted(file, scn, plan).value.offsets;
      forall off ensures Value(Apply(s.bus, OffsetWrites(fields, off, ORDER)), sig) == Value(s.bus, sig) {
        OffsetEffect(s.bus, fields, off, ORDER);
      }
    }
  }

  lemma AppliedGood(control: Control, file: PlanFile, s: PlayerState, scn: string, pos: int)
    requires Separate(control) && Good(control, file, s, scn) && scn in s.active
    ensures Good(control, file, Applied(control, s, scn, file.plans[scn][s.active[scn]].offsets, pos), scn)
  {
    hide Apply, OffsetWrites, OwnSignals, FieldsOk, Shown;
    NoFields();
    var idx := ActiveIdx(file.plans[scn][s.active[scn]].offsets, pos);
    if idx >= 0 {
      OffsetShown(s.bus, FieldsOf(control, scn), file.plans[scn][s.active[scn]].offsets[idx]);
    }
  }

  /** A tick of an SCN keeps it good. */
  lemma TickScnGood(control: Control, file: PlanFile, s: PlayerState, scn: string, plan: Option<string>, now: Now)
    requires Separate(control) && Good(control, file, s, scn)
    ensures Good(control, file, TickScn(control, file, s, scn, plan, now).0, scn)
  {
    hide CyclePos, Apply, ZeroWrites, OwnSignals, FieldsOk, Shown, Applied, AllZero;
    if scn in file.plans {
      var w := Wanted(file, scn, plan);
      if w.Some? {
        var t := Activated(s, scn, plan.value, now);
        assert Good(control, file, t, scn);
        var pos := CyclePos(file.time, w.value.cycle, now, if scn in t.since then t.since[scn] else now.mono);
        if pos.Some? {
          AppliedGood(control, file, t, scn, pos.value);
        }
      } else {
        ZeroedFields(s.bus, FieldsOf(control, scn));
      }
    }
  }

  lemma OffsetShown(bus: Bus, fields: Fields, off: Offset)
    requires FieldsOk(fields) && OwnSignals(fields)
    ensures Shown(Apply(bus, OffsetWrites(fields, off, ORDER)), fields, off)
  {
    hide Apply, OffsetWrites, OwnSignals, FieldsOk, InFields, FieldShown;
    OrderDistinct();
    OffsetEffect(bus, fields, off, ORDER);
  }

  lemma ZeroedFields(bus: Bus, fields: Fields)
    ensures AllZero(Apply(bus, ZeroWrites(fields)), fields)
  {
    hide Apply, ZeroWrites, InFields;
    ZeroEffect(bus, fields);
    forall i, j | 0 <= i < |fields| && 0 <= j < |fields[i].1| ensures InFields(fields, fields[i].1[j].1) {
      IsInFields(fields, i, j);
    }
  }

  lemma SameGood(control: Control, file: PlanFile, s: PlayerState, t: PlayerState, scn: string)
    requires AllWellFormed(control) && Good(control, file, s, scn)
    requires SameMemory(s, t, scn) && SameFields(s, t, FieldsOf(control, scn))
    ensures Good(control, file, t, scn)
  {
    var fields := FieldsOf(control, scn);
    if scn in s.active && s.lastIdx[scn] >= 0 {
      var off := file.plans[scn][s.active[scn]].offsets[s.lastIdx[scn]];
      forall i | 0 <= i < |fields| && fields[i].0 in off.settings && fields[i].0 in ORDER
        ensures FieldShown(t.bus, fields[i].1, fields[i].0, off.settings[fields[i].0])
      {
        SameShown(s.bus, t.bus, fields[i].1, fields[i].0, off.settings[fields[i].0]);
      }
    }
  }

  ghost predicate AllGood(control: Control, file: PlanFile, s: PlayerState)
    requires AllWellFormed(control)
  {
    forall scn :: Good(control, file, s, scn)
  }

  lemma {:induction false} TickScnsGood(control: Control, file: PlanFile, s: PlayerState, scns: seq<string>,
        plan: Option<string>, now: Now)
    requires Separate(control) && AllGood(control, file, s)
    ensures AllGood(control, file, TickScns(control, file, s, scns, plan, now).0)
    decreases |scns|
  {
    hide TickScn, Good, Separate, SameFields, SameMemory;
    SeparateIsWellFormed(control);
    if scns != [] {
      var n := |scns| - 1;
      TickScnsGood(control, file, s, scns[..n], plan, now);
      var t := TickScns(control, file, s, scns[..n], plan, now).0;
      var u := TickScn(control, file, t, scns[n], plan, now).0;
      forall scn ensures Good(control, file, u, scn) {
        if scn == scns[n] {
          TickScnGood(control, file, t, scn, plan, now);
        } else {
          OthersAlone(control, file, t, scns[n], plan, now, scn);
          SameGood(control, file, t, u, scn);
        }
      }
    }
  }

  lemma SeparateIsWellFormed(control: Control)
    requires Separate(control)
    ensures AllWellFormed(control)
  {}

  datatype Input = Input(opMode: int, now: Now)

  /** Ticks during which the plan file does not change. */
  function Run(control: Control, scns: seq<string>, file: PlanFile, s: PlayerState, inputs: seq<Input>): PlayerState
    requires AllWellFormed(control)
    decreases |inputs|
  {
    if inputs == [] then s
    else Run(control, scns, file, Tick(control, scns, file, s, inputs[0].opMode, inputs[0].now, Unchanged), inputs[1..])
  }

  /** Without reloads, an SCN without a plan is always off, and one with a plan always shows its moment; errors in other
      SCNs' plans do not change that. */
  lemma {:induction false} RunStaysGood(control: Control, scns: seq<string>, file: PlanFile, s: PlayerState,
        inputs: seq<Input>)
    requires Separate(control) && AllGood(control, file, s)
    ensures AllGood(control, file, Run(control, scns, file, s, inputs))
    decreases |inputs|
  {
    hide TickScns, AllGood, Separate, PlanName;
    SeparateIsWellFormed(control);
    if inputs != [] {
      TickScnsGood(control, file, s, scns, PlanName(file, inputs[0].opMode, inputs[0].now), inputs[0].now);
      RunStaysGood(control, scns, file, Tick(control, scns, file, s, inputs[0].opMode, inputs[0].now, Unchanged),
          inputs[1..]);
    }
  }

  lemma StartsGood(control: Control, file: PlanFile)
    requires AllWellFormed(control)
    ensures AllGood(control, file, NEW_PLAYER)
  {}

  /** So from the start of the service on. */
  lemma AlwaysGood(control: Control, scns: seq<string>, file: PlanFile, inputs: seq<Input>)
    requires Separate(control) && AllWellFormed(control)
    ensures AllGood(control, file, Run(control, scns, file, NEW_PLAYER, inputs))
  {
    hide Separate, AllGood;
    StartsGood(control, file);
    RunStaysGood(control, scns, file, NEW_PLAYER, inputs);
  }

  // ---- One SCN's turn in a tick -------------------------------------------------------------------------------------

  predicate DistinctScns(scns: seq<string>) {
    forall i, j :: 0 <= i < j < |scns| ==> scns[i] != scns[j]
  }

  /** Between s and t, no signal of those fields was written. */
  predicate NotWritten(s: PlayerState, t: PlayerState, fields: Fields) {
    s.log <= t.log && forall i :: |s.log| <= i < |t.log| ==> !InFields(fields, t.log[i].sig)
  }

  /** Nothing that concerns the SCN differs, and nothing of it was written. */
  predicate Same(control: Control, s: PlayerState, t: PlayerState, scn: string) {
    SameMemory(s, t, scn) && SameFields(s, t, FieldsOf(control, scn)) && NotWritten(s, t, FieldsOf(control, scn))
  }

  lemma {:induction false} OffsetWritesOwn(fields: Fields, off: Offset, order: seq<ControlField>)
    requires FieldsOk(fields)
    ensures forall w :: w in OffsetWrites(fields, off, order) ==> InFields(fields, w.sig)
    decreases |order|
  {
    hide FieldWrites, InFields;
    if order != [] {
      OffsetWritesOwn(fields, off, order[..|order| - 1]);
      FieldWritesOwn(fields, off, order[|order| - 1]);
    }
  }

  lemma FieldWritesOwn(fields: Fields, off: Offset, f: ControlField)
    requires FieldsOk(fields)
    ensures forall w :: w in FieldWrites(fields, off, f) ==> InFields(fields, w.sig)
  {
    hide Lookup, FieldsOk, Phase, BitOf;
    LookupFinds(fields, f);
    if f in off.settings && Lookup(fields, f).Some? {
      var bits := Lookup(fields, f).value;
      var i :| 0 <= i < |fields| && fields[i] == (f, bits);
      if IsBitmask(f) {
        PhaseWrites(bits, off.settings[f], 1);
        PhaseWrites(bits, off.settings[f], 0);
        forall w | w in MaskWrites(bits, off.settings[f]) ensures InFields(fields, w.sig) {
          var j :| 0 <= j < |bits| && bits[j].1 == w.sig;
          IsInFields(fields, i, j);
        }
      } else {
        IsInFields(fields, i, 0);
      }
    }
  }

  lemma {:induction false} ZeroWritesOwn(fields: Fields)
    ensures forall w :: w in ZeroWrites(fields) ==> InFields(fields, w.sig)
  {
    if fields != [] {
      var n := |fields| - 1;
      ZeroWritesOwn(fields[..n]);
      forall w | w in ZeroWrites(fields) ensures InFields(fields, w.sig) {
        if w in ZeroWrites(fields[..n]) {
          var i :| 0 <= i < n && InBits(fields[..n][i].1, w.sig);
          assert InBits(fields[i].1, w.sig);
        } else {
          var j :| 0 <= j < |fields[n].1| && ZeroBits(fields[n].1)[j] == w;
          IsInFields(fields, n, j);
        }
      }
    }
  }

  /** A tick of an SCN only adds writes to its own signals. */
  lemma OwnWrites(control: Control, file: PlanFile, s: PlayerState, scn: string, plan: Option<string>, now: Now)
    requires AllWellFormed(control)
    ensures var t := TickScn(control, file, s, scn, plan, now).0;
            s.log <= t.log && forall i :: |s.log| <= i < |t.log| ==> InFields(FieldsOf(control, scn), t.log[i].sig)
  {
    hide CyclePos, Apply, OffsetWrites, ZeroWrites, FieldsOk, InFields, ActiveIdx;
    NoFieldsOk();
    var fields := FieldsOf(control, scn);
    ZeroWritesOwn(fields);
    if scn in file.plans && Wanted(file, scn, plan).Some? {
      forall off ensures forall w :: w in OffsetWrites(fields, off, ORDER) ==> InFields(fields, w.sig) {
        OffsetWritesOwn(fields, off, ORDER);
      }
    }
  }

  lemma ForeignWrites(control: Control, file: PlanFile, s: PlayerState, scn: string, plan: Option<string>, now: Now,
        other: string)
    requires Separate(control) && AllWellFormed(control) && other != scn
    ensures NotWritten(s, TickScn(control, file, s, scn, plan, now).0, FieldsOf(control, other))
  {
    hide TickScn, InFields;
    OwnWrites(control, file, s, scn, plan, now);
    NoFields();
  }

  lemma SameTransitive(control: Control, s: PlayerState, t: PlayerState, u: PlayerState, scn: string)
    requires Same(control, s, t, scn) && Same(control, t, u, scn)
    ensures Same(control, s, u, scn)
  {}

  lemma SameReflexive(control: Control, s: PlayerState, scn: string)
    ensures Same(control, s, s, scn)
  {}

  lemma {:induction false} NotInvolved(control: Control, file: PlanFile, s: PlayerState, scns: seq<string>,
        plan: Option<string>, now: Now, scn: string)
    requires Separate(control) && AllWellFormed(control) && scn !in scns
    ensures Same(control, s, TickScns(control, file, s, scns, plan, now).0, scn)
    decreases |scns|
  {
    hide TickScn, Separate, Same;
    SameReflexive(control, s, scn);
    if scns != [] {
      var n := |scns| - 1;
      NotInvolved(control, file, s, scns[..n], plan, now, scn);
      var t := TickScns(control, file, s, scns[..n], plan, now).0;
      OthersAloneSame(control, file, t, scns[n], plan, now, scn);
      SameTransitive(control, s, t, TickScn(control, file, t, scns[n], plan, now).0, scn);
    }
  }

  /** A tick treats an SCN as if it were alone, unless an SCN before it ends the tick. */
  lemma {:induction false} OwnTurn(control: Control, file: PlanFile, s: PlayerState, scns: seq<string>,
        plan: Option<string>, now: Now, i: nat)
    returns (u: PlayerState)
    requires Separate(control) && AllWellFormed(control) && DistinctScns(scns) && i < |scns|
    ensures Same(control, s, u, scns[i])
    ensures var t := TickScns(control, file, s, scns, plan, now).0;
            if TickScns(control, file, s, scns[..i], plan, now).1 then Same(control, s, t, scns[i])
            else Same(control, TickScn(control, file, u, scns[i], plan, now).0, t, scns[i])
    decreases |scns|
  {
    hide TickScn, Separate, Same;
    var n := |scns| - 1;
    var scn := scns[i];
    var (t, failed) := TickScns(control, file, s, scns[..n], plan, now);
    if i == n {
      NotInvolved(control, file, s, scns[..n], plan, now, scn);
      SameReflexive(control, TickScn(control, file, t, scn, plan, now).0, scn);
      u := t;
    } else {
      assert scns[..n][..i] == scns[..i];
      u := OwnTurn(control, file, s, scns[..n], plan, now, i);
      if !failed {
        var v := TickScn(control, file, t, scns[n], plan, now).0;
        OthersAloneSame(control, file, t, scns[n], plan, now, scn);
        if TickScns(control, file, s, scns[..i], plan, now).1 {
          SameTransitive(control, s, t, v, scn);
        } else {
          SameTransitive(control, TickScn(control, file, u, scn, plan, now).0, t, v, scn);
        }
      }
    }
  }

  lemma OthersAloneSame(control: Control, file: PlanFile, s: PlayerState, scn: string, plan: Option<string>, now: Now,
        other: string)
    requires Separate(control) && AllWellFormed(control) && other != scn
    ensures Same(control, s, TickScn(control, file, s, scn, plan, now).0, other)
  {
    hide TickScn, Separate, NotWritten;
    OthersAlone(control, file, s, scn, plan, now, other);
    ForeignWrites(control, file, s, scn, plan, now, other);
  }

  predicate Wants(file: PlanFile, scn: string, plan: Option<string>) {
    scn in file.plans && Wanted(file, scn, plan).Some?
  }

  /** The plan it is to run makes the tick fail: its cycle is 0, and counted from activation. */
  predicate Faulty(file: PlanFile, scn: string, plan: Option<string>) {
    Wants(file, scn, plan) && file.time == ByActivation && Wanted(file, scn, plan).value.cycle == 0
  }

  lemma {:induction false} FailsIff(control: Control, file: PlanFile, s: PlayerState, scns: seq<string>,
        plan: Option<string>, now: Now)
    requires AllWellFormed(control)
    ensures TickScns(control, file, s, scns, plan, now).1
       <==> exists j :: 0 <= j < |scns| && Faulty(file, scns[j], plan)
    decreases |scns|
  {
    hide Applied, StoodDown, Activated, AllWellFormed;
    if scns != [] {
      var front := scns[..|scns| - 1];
      FailsIff(control, file, s, front, plan, now);
      assert forall j :: 0 <= j < |front| ==> front[j] == scns[j];
    }
  }

  lemma UnwantedScn(control: Control, file: PlanFile, s: PlayerState, scn: string, plan: Option<string>, now: Now)
    requires AllWellFormed(control) && !Wants(file, scn, plan)
    ensures var t := TickScn(control, file, s, scn, plan, now).0;
            if scn in s.active && scn in file.plans then scn !in t.active && Quiet(control, t, scn)
            else t.bus == s.bus && (scn in t.active <==> scn in s.active)
  {
    hide Apply, ZeroWrites, AllZero, AllWellFormed;
    ZeroedFields(s.bus, FieldsOf(control, scn));
  }

  lemma WantedScn(control: Control, file: PlanFile, s: PlayerState, scn: string, plan: Option<string>, now: Now)
    requires AllWellFormed(control) && Wants(file, scn, plan)
    ensures scn in TickScn(control, file, s, scn, plan, now).0.active
  {
    hide Apply, OffsetWrites, ActiveIdx, CyclePos, AllWellFormed;
  }

  /** A plan that is new to an SCN begins with its cycle, when that is counted from activation. */
  lemma ActivationStartsCycle(control: Control, file: PlanFile, s: PlayerState, scn: string, plan: Option<string>,
        now: Now)
    requires AllWellFormed(control) && Wants(file, scn, plan) && file.time == ByActivation
        && file.plans[scn][plan.value].cycle > 0
    requires !(scn in s.active && s.active[scn] == plan.value)
    ensures var (t, failed) := TickScn(control, file, s, scn, plan, now);
            && !failed && scn in t.active && t.active[scn] == plan.value && scn in t.since && t.since[scn] == now.mono
            && scn in t.lastIdx && t.lastIdx[scn] == ActiveIdx(file.plans[scn][plan.value].offsets, 0)
  {
    hide Apply, OffsetWrites, ZeroWrites, ActiveIdx, AllWellFormed, CyclePos;
    ActivationModeAdvances(file.plans[scn][plan.value].cycle, now, now.mono);
    assert now.(mono := now.mono) == now;
  }

  /** When no plan is to run, every SCN of the plan file is off after the tick. */
  lemma InactiveTickZeroes(control: Control, scns: seq<string>, file: PlanFile, s: PlayerState, opMode: int, now: Now,
        scn: string)
    requires Separate(control) && AllWellFormed(control) && DistinctScns(scns) && AllGood(control, file, s)
    requires scn in scns && scn in file.plans && PlanName(file, opMode, now) == None
    ensures var t := Tick(control, scns, file, s, opMode, now, Unchanged);
            scn !in t.active && Quiet(control, t, scn)
  {
    hide TickScn, TickScns, Separate, AllGood, Good, PlanName, Quiet;
    var t := Tick(control, scns, file, s, opMode, now, Unchanged);
    var i :| 0 <= i < |scns| && scns[i] == scn;
    var u := OwnTurn(control, file, s, scns, None, now, i);
    FailsIff(control, file, s, scns[..i], None, now);
    UnwantedScn(control, file, u, scn, None, now);
    TickScnsGood(control, file, s, scns, None, now);
    GoodIsQuiet(control, file, t, scn);
  }

  lemma GoodIsQuiet(control: Control, file: PlanFile, s: PlayerState, scn: string)
    requires AllWellFormed(control) && AllGood(control, file, s) && scn !in s.active
    ensures Quiet(control, s, scn)
  {
    assert Good(control, file, s, scn);
  }

  /** A tick in which an SCN keeps its plan and its moment makes no write at all to a signal of it. */
  lemma WrittenOnlyOnChange(control: Control, scns: seq<string>, file: PlanFile, s: PlayerState, opMode: int,
        now: Now, scn: string)
    requires Separate(control) && AllWellFormed(control) && DistinctScns(scns) && scn in scns
    requires scn in s.active && scn in s.lastIdx
    requires SameMemory(s, Tick(control, scns, file, s, opMode, now, Unchanged), scn)
    ensures NotWritten(s, Tick(control, scns, file, s, opMode, now, Unchanged), FieldsOf(control, scn))
  {
    hide TickScn, TickScns, Separate, PlanName, SameFields, NotWritten;
    var plan := PlanName(file, opMode, now);
    var i :| 0 <= i < |scns| && scns[i] == scn;
    var u := OwnTurn(control, file, s, scns, plan, now, i);
    var v := TickScn(control, file, u, scn, plan, now).0;
    var t := Tick(control, scns, file, s, opMode, now, Unchanged);
    if !TickScns(control, file, s, scns[..i], plan, now).1 {
      UnchangedMemory(control, file, u, scn, plan, now);
      SameTransitive(control, s, u, v, scn);
      SameTransitive(control, s, v, t, scn);
    }
  }

  lemma UnchangedMemory(control: Control, file: PlanFile, s: PlayerState, scn: string, plan: Option<string>, now: Now)
    requires AllWellFormed(control) && scn in s.active && scn in s.lastIdx
    requires SameMemory(s, TickScn(control, file, s, scn, plan, now).0, scn)
    ensures Same(control, s, TickScn(control, file, s, scn, plan, now).0, scn)
  {
    hide Apply, OffsetWrites, ZeroWrites, ActiveIdx, CyclePos, AllWellFormed;
  }

  // ---- The writes ---------------------------------------------------------------------------------------------------

  /** The bus is what the writes listed have made of it. */
  predicate LogShows(s: PlayerState) {
    s.bus == Apply(map[], s.log)
  }

  lemma ScnLogShows(control: Control, file: PlanFile, s: PlayerState, scn: string, plan: Option<string>, now: Now)
    requires AllWellFormed(control) && LogShows(s)
    ensures LogShows(TickScn(control, file, s, scn, plan, now).0)
  {
    hide AllWellFormed, CyclePos, ActiveIdx, OffsetWrites, ZeroWrites, Apply, Applied, StoodDown;
    if scn in file.plans {
      var wanted := Wanted(file, scn, plan);
      if wanted.None? {
        StandingDownLogged(control, s, scn);
      } else {
        var t := Activated(s, scn, plan.value, now);
        var pos := CyclePos(file.time, wanted.value.cycle, now, if scn in t.since then t.since[scn] else now.mono);
        if pos.Some? {
          ApplyingLogged(control, t, scn, wanted.value.offsets, pos.value);
        }
      }
    }
  }

  lemma StandingDownLogged(control: Control, s: PlayerState, scn: string)
    requires LogShows(s)
    ensures LogShows(StoodDown(control, s, scn))
  {
    hide ZeroWrites, Apply;
    ApplyAppend(map[], s.log, ZeroWrites(FieldsOf(control, scn)));
  }

  lemma ApplyingLogged(control: Control, s: PlayerState, scn: string, offsets: seq<Offset>, pos: int)
    requires AllWellFormed(control) && LogShows(s)
    ensures LogShows(Applied(control, s, scn, offsets, pos))
  {
    hide OffsetWrites, Apply, FieldsOk;
    var idx := ActiveIdx(offsets, pos);
    NoFieldsOk();
    if idx >= 0 {
      ApplyAppend(map[], s.log, OffsetWrites(FieldsOf(control, scn), offsets[idx], ORDER));
    }
  }

  /** A tick lists all its writes. */
  lemma {:induction false} ScnsLogShows(control: Control, file: PlanFile, s: PlayerState, scns: seq<string>,
        plan: Option<string>, now: Now)
    requires AllWellFormed(control) && LogShows(s)
    ensures LogShows(TickScns(control, file, s, scns, plan, now).0)
    decreases |scns|
  {
    hide AllWellFormed, LogShows, TickScn;
    if scns != [] {
      var front := scns[..|scns| - 1];
      ScnsLogShows(control, file, s, front, plan, now);
      ScnLogShows(control, file, TickScns(control, file, s, front, plan, now).0, scns[|scns| - 1], plan, now);
    }
  }

  // ---- The plan that runs ---------------------------------------------------------------------------------------

  /** The plan of the entry in force: the first with the greatest start that has come today, or, if none has, the first
      with the greatest start of yesterday. */
  ghost predicate InForce(tt: seq<Entry>, now: Now, plan: string) {
    (exists i: nat :: IsBest(tt, now.day, Some(now.hhmm), i) && tt[i].plan == Some(plan))
    || (NoCandidate(tt, now.day, Some(now.hhmm))
        && exists i: nat :: IsBest(tt, now.prevDay, None, i) && tt[i].plan == Some(plan))
  }

  lemma BestUnique(tt: seq<Entry>, day: string, limit: Option<string>, i: nat, j: nat)
    requires IsBest(tt, day, limit, i) && IsBest(tt, day, limit, j)
    ensures i == j
  {
    hide Before, Eligible;
  }

  lemma ResolvesInForce(tt: seq<Entry>, now: Now, plan: string)
    ensures (var r := Resolve(tt, now.day, now.prevDay, now.hhmm); r.Some? && r.value.plan == Some(plan))
       <==> InForce(tt, now, plan)
  {
    hide Resolve, Before, Eligible, NoCandidate;
    var i := ResolvesTo(tt, now.day, now.prevDay, now.hhmm);
    if j: nat :| IsBest(tt, now.day, Some(now.hhmm), j) && tt[j].plan == Some(plan) {
      BestIsCandidate(tt, now.day, Some(now.hhmm), j);
      BestUnique(tt, now.day, Some(now.hhmm), i, j);
    }
    if j: nat :| IsBest(tt, now.prevDay, None, j) && tt[j].plan == Some(plan) {
      BestIsCandidate(tt, now.prevDay, None, j);
      if NoCandidate(tt, now.day, Some(now.hhmm)) {
        BestUnique(tt, now.prevDay, None, i, j);
      }
    }
  }

  lemma BestIsCandidate(tt: seq<Entry>, day: string, limit: Option<string>, i: nat)
    requires IsBest(tt, day, limit, i)
    ensures i < |tt| && !NoCandidate(tt, day, limit)
  {}

  predicate Runs(s: PlayerState, scn: string, plan: string) {
    scn in s.active && s.active[scn] == plan
  }

  predicate Playable(file: PlanFile, scn: string, plan: Option<string>, p: string)
    requires scn in file.plans
  {
    plan == Some(p) && p != "" && p in file.plans[scn]
  }

  lemma {:induction false} ScnsRun(control: Control, file: PlanFile, s: PlayerState, scns: seq<string>,
        plan: Option<string>, now: Now, scn: string, p: string)
    requires AllWellFormed(control) && scn in file.plans && !TickScns(control, file, s, scns, plan, now).1
    ensures Runs(TickScns(control, file, s, scns, plan, now).0, scn, p)
       <==> if scn in scns then Playable(file, scn, plan, p) else Runs(s, scn, p)
    decreases |scns|
  {
    hide AllWellFormed, TickScn, Playable, Runs;
    if scns != [] {
      var front, x := scns[..|scns| - 1], scns[|scns| - 1];
      ScnsRun(control, file, s, front, plan, now, scn, p);
      ScnRuns(control, file, TickScns(control, file, s, front, plan, now).0, x, plan, now, scn, p);
    }
  }

  lemma ScnRuns(control: Control, file: PlanFile, s: PlayerState, x: string, plan: Option<string>, now: Now,
        scn: string, p: string)
    requires AllWellFormed(control) && scn in file.plans && !TickScn(control, file, s, x, plan, now).1
    ensures Runs(TickScn(control, file, s, x, plan, now).0, scn, p)
       <==> if x == scn then Playable(file, scn, plan, p) else Runs(s, scn, p)
  {
    hide AllWellFormed, CyclePos, ActiveIdx, OffsetWrites, ZeroWrites, Apply;
  }

  /** No plan that is to run on a listed SCN is one by activation with a cycle of 0, which would end the tick. */
  ghost predicate Sound(file: PlanFile, scns: seq<string>, opMode: int, now: Now) {
    forall scn, p :: scn in scns && scn in file.plans && p in file.plans[scn] && InForce(file.timetable, now, p)
      ==> opMode >= 3 || opMode !in file.modes || file.time != ByActivation || file.plans[scn][p].cycle != 0
  }

  lemma SoundTick(control: Control, scns: seq<string>, file: PlanFile, s: PlayerState, opMode: int, now: Now)
    requires AllWellFormed(control) && Sound(file, scns, opMode, now)
    ensures !TickScns(control, file, s, scns, PlanName(file, opMode, now), now).1
  {
    hide TickScns, Resolve, InForce, AllWellFormed;
    var plan := PlanName(file, opMode, now);
    FailsIff(control, file, s, scns, plan, now);
    if plan.Some? {
      ResolvesInForce(file.timetable, now, plan.value);
    }
  }

  /** After a tick that comes to its end, an SCN of the plan file runs a plan exactly if the mode is below 3 and one in
      which the file wants plans run, the plan is that of the entry in force, and it is a plan of that SCN. */
  lemma RunsInForceIff(control: Control, scns: seq<string>, file: PlanFile, s: PlayerState, opMode: int, now: Now,
        reload: Reload, scn: string, p: string)
    requires AllWellFormed(control) && scn in scns && scn in FileAfter(file, reload).plans
    requires Sound(FileAfter(file, reload), scns, opMode, now)
    ensures var t, f := Tick(control, scns, file, s, opMode, now, reload), if reload.Read? then reload.file else file;
            (scn in t.active && t.active[scn] == p)
            <==> (opMode < 3 && opMode in f.modes && InForce(f.timetable, now, p) && p != "" && p in f.plans[scn])
  {
    hide TickScns, Resolve, InForce, AllWellFormed, Sound;
    var f := FileAfter(file, reload);
    SoundTick(control, scns, f, Reloaded(s, reload), opMode, now);
    ScnsRun(control, f, Reloaded(s, reload), scns, PlanName(f, opMode, now), now, scn, p);
    ResolvesInForce(f.timetable, now, p);
  }

  // ---- The moment that shows ----------------------------------------------------------------------------------------

  /** When the plan began that an SCN is to run: now, unless it runs already. */
  function Began(s: PlayerState, scn: string, p: string, now: Now): int {
    if scn in s.active && s.active[scn] == p && scn in s.since then s.since[scn] else now.mono
  }

  predicate SameSince(s: PlayerState, t: PlayerState, scn: string) {
    (scn in t.since <==> scn in s.since) && (scn in s.since ==> t.since[scn] == s.since[scn])
  }

  lemma OthersRemember(control: Control, file: PlanFile, s: PlayerState, x: string, plan: Option<string>, now: Now,
        scn: string)
    requires AllWellFormed(control) && x != scn
    ensures var t := TickScn(control, file, s, x, plan, now).0; SameMemory(s, t, scn) && SameSince(s, t, scn)
  {
    hide AllWellFormed, CyclePos, Applied, StoodDown, Activated, SameMemory;
    if x in file.plans {
      var wanted := Wanted(file, x, plan);
      if wanted.None? {
        StandsDownAlone(control, s, x, scn);
      } else {
        var t := Activated(s, x, plan.value, now);
        ActivatesAlone(s, x, plan.value, now, scn);
        var pos := CyclePos(file.time, wanted.value.cycle, now, if x in t.since then t.since[x] else now.mono);
        if pos.Some? {
          AppliesAlone(control, t, x, wanted.value.offsets, pos.value, scn);
          SameChain(s, t, Applied(control, t, x, wanted.value.offsets, pos.value), scn);
        }
      }
    } else {
      SameSelf(s, scn);
    }
  }

  lemma StandsDownAlone(control: Control, s: PlayerState, x: string, scn: string)
    requires x != scn
    ensures SameMemory(s, StoodDown(control, s, x), scn) && SameSince(s, StoodDown(control, s, x), scn)
  {
    hide ZeroWrites, Apply;
  }

  lemma ActivatesAlone(s: PlayerState, x: string, p: string, now: Now, scn: string)
    requires x != scn
    ensures SameMemory(s, Activated(s, x, p, now), scn) && SameSince(s, Activated(s, x, p, now), scn)
  {}

  lemma AppliesAlone(control: Control, s: PlayerState, x: string, offsets: seq<Offset>, pos: int, scn: string)
    requires AllWellFormed(control) && x != scn
    ensures var t := Applied(control, s, x, offsets, pos); SameMemory(s, t, scn) && SameSince(s, t, scn)
  {
    hide AllWellFormed, ActiveIdx, OffsetWrites, Apply;
  }

  lemma SameChain(s: PlayerState, t: PlayerState, u: PlayerState, scn: string)
    requires SameMemory(s, t, scn) && SameMemory(t, u, scn)
    ensures SameMemory(s, u, scn)
  {}

  lemma SameSelf(s: PlayerState, scn: string)
    ensures SameMemory(s, s, scn)
  {}

  lemma {:induction false} NotListed(control: Control, file: PlanFile, s: PlayerState, scns: seq<string>,
        plan: Option<string>, now: Now, scn: string)
    requires AllWellFormed(control) && scn !in scns
    ensures var t := TickScns(control, file, s, scns, plan, now).0; SameMemory(s, t, scn) && SameSince(s, t, scn)
    decreases |scns|
  {
    hide AllWellFormed, TickScn;
    if scns != [] {
      var front := scns[..|scns| - 1];
      NotListed(control, file, s, front, plan, now, scn);
      OthersRemember(control, file, TickScns(control, file, s, front, plan, now).0, scns[|scns| - 1], plan, now, scn);
    }
  }

  /** The moment of a plan at a position of its cycle: the last one listed that has come. */
  predicate IsMoment(offsets: seq<Offset>, pos: int, k: int) {
    0 <= k < |offsets| && offsets[k].at <= pos && forall j :: k < j < |offsets| ==> offsets[j].at > pos
  }

  lemma ScnMoment(control: Control, file: PlanFile, s: PlayerState, scn: string, p: string, now: Now, k: nat)
    requires AllWellFormed(control) && scn in file.plans && Playable(file, scn, Some(p), p)
    requires var pos := CyclePos(file.time, file.plans[scn][p].cycle, now, Began(s, scn, p, now));
             pos.Some? && IsMoment(file.plans[scn][p].offsets, pos.value, k)
    ensures var t := TickScn(control, file, s, scn, Some(p), now).0;
            Runs(t, scn, p) && scn in t.lastIdx && t.lastIdx[scn] == k
  {
    hide AllWellFormed, CyclePos, OffsetWrites, ZeroWrites, Apply;
    var pos := CyclePos(file.time, file.plans[scn][p].cycle, now, Began(s, scn, p, now)).value;
    assert ActiveIdx(file.plans[scn][p].offsets, pos) == k;
  }

  lemma {:induction false} ScnsMoment(control: Control, file: PlanFile, s: PlayerState, scns: seq<string>, scn: string,
        p: string, now: Now, k: nat)
    requires AllWellFormed(control) && DistinctScns(scns) && scn in scns
    requires scn in file.plans && Playable(file, scn, Some(p), p) && !TickScns(control, file, s, scns, Some(p), now).1
    requires var pos := CyclePos(file.time, file.plans[scn][p].cycle, now, Began(s, scn, p, now));
             pos.Some? && IsMoment(file.plans[scn][p].offsets, pos.value, k)
    ensures var t := TickScns(control, file, s, scns, Some(p), now).0;
            Runs(t, scn, p) && scn in t.lastIdx && t.lastIdx[scn] == k
    decreases |scns|
  {
    hide AllWellFormed, TickScn, CyclePos, IsMoment, Playable;
    var n := |scns| - 1;
    var front := scns[..n];
    var t := TickScns(control, file, s, front, Some(p), now).0;
    if scns[n] == scn {
      assert scn !in front by {
        assert forall j :: 0 <= j < n ==> front[j] == scns[j];
      }
      NotListed(control, file, s, front, Some(p), now, scn);
      assert Began(t, scn, p, now) == Began(s, scn, p, now);
      ScnMoment(control, file, t, scn, p, now, k);
    } else {
      assert DistinctScns(front);
      ScnsMoment(control, file, s, front, scn, p, now, k);
      OthersRemember(control, file, t, scns[n], Some(p), now, scn);
    }
  }

  lemma AllOrdered(f: ControlField)
    ensures f in ORDER
  {}

  /** After a tick in which a plan is in force for an SCN and one of its moments has come, every field of the SCN that
      the last such moment sets shows it: the bits of a mask, or the value of any other field on its first signal. */
  lemma MomentIsShown(control: Control, scns: seq<string>, file: PlanFile, s: PlayerState, opMode: int, now: Now,
        scn: string, p: string, k: nat, i: nat, j: nat)
    requires Separate(control) && AllWellFormed(control) && DistinctScns(scns) && AllGood(control, file, s)
    requires Sound(file, scns, opMode, now) && opMode < 3 && opMode in file.modes && InForce(file.timetable, now, p)
    requires scn in scns && scn in control && scn in file.plans && p in file.plans[scn] && p != ""
    requires var pos := CyclePos(file.time, file.plans[scn][p].cycle, now, Began(s, scn, p, now));
             pos.Some? && IsMoment(file.plans[scn][p].offsets, pos.value, k)
    requires i < |control[scn]| && j < |control[scn][i].1|
        && control[scn][i].0 in file.plans[scn][p].offsets[k].settings
    ensures var t := Tick(control, scns, file, s, opMode, now, Unchanged);
            var (f, bits) := control[scn][i];
            var setting := file.plans[scn][p].offsets[k].settings[f];
            if IsBitmask(f) then bits[j].0 >= 1 && Value(t.bus, bits[j].1) == setting / PowerOfTwo(bits[j].0 - 1) % 2
            else Value(t.bus, bits[0].1) == setting
  {
    hide TickScns, Resolve, InForce, AllWellFormed, Separate, Sound, Good, CyclePos, PowerOfTwo, BitOf;
    var t := Tick(control, scns, file, s, opMode, now, Unchanged);
    SoundTick(control, scns, file, s, opMode, now);
    ResolvesInForce(file.timetable, now, p);
    assert PlanName(file, opMode, now) == Some(p);
    ScnsMoment(control, file, s, scns, scn, p, now, k);
    TickScnsGood(control, file, s, scns, Some(p), now);
    GoodShows(control, file, t, scn, p, k, i, j);
  }

  lemma GoodShows(control: Control, file: PlanFile, s: PlayerState, scn: string, p: string, k: nat, i: nat, j: nat)
    requires AllWellFormed(control) && Good(control, file, s, scn) && Runs(s, scn, p) && scn in s.lastIdx
        && s.lastIdx[scn] == k
    requires scn in control && scn in file.plans && p in file.plans[scn] && k < |file.plans[scn][p].offsets|
    requires i < |control[scn]| && j < |control[scn][i].1|
        && control[scn][i].0 in file.plans[scn][p].offsets[k].settings
    ensures var (f, bits) := control[scn][i];
            var setting := file.plans[scn][p].offsets[k].settings[f];
            if IsBitmask(f) then bits[j].0 >= 1 && Value(s.bus, bits[j].1) == setting / PowerOfTwo(bits[j].0 - 1) % 2
            else Value(s.bus, bits[0].1) == setting
  {
    hide PowerOfTwo, BitOf;
    var (f, bits) := control[scn][i];
    AllOrdered(f);
    assert FieldsOk(control[scn]);
    assert FieldShown(s.bus, bits, f, file.plans[scn][p].offsets[k].settings[f]);
    if IsBitmask(f) {
      BitOfIs(file.plans[scn][p].offsets[k].settings[f], bits[j].0);
    }
  }

  /** An SCN that runs no plan has every one of its signals off. */
  lemma IdleIsOff(control: Control, file: PlanFile, s: PlayerState, scn: string, i: nat, j: nat)
    requires AllWellFormed(control) && AllGood(control, file, s) && scn !in s.active && scn in control
    requires i < |control[scn]| && j < |control[scn][i].1|
    ensures Value(s.bus, control[scn][i].1[j].1) == 0
  {
    assert Good(control, file, s, scn);
  }

  /** The position in a cycle of negative length is not positive, and larger than the length. */
  lemma NegativeCycle(cycle: int, now: Now, since: int) returns (rounds: int)
    requires cycle < 0
    ensures var p := CyclePos(ByActivation, cycle, now, since).value;
            cycle < p <= 0 && now.mono - since == cycle * rounds + p
  {
    var a, b := since - now.mono, -cycle;
    rounds := a / b;
    assert a == b * rounds + a % b;
  }

  // ---- Reloading ----------------------------------------------------------------------------------------------------

  /** A tick that reloads the plan file leaves an SCN driven by a plan or off exactly if it was off before, or the tick
      starts a plan for it: what was on is not switched off.  An SCN before it whose plan is faulty ends the tick. */
  lemma ReloadQuietIff(control: Control, scns: seq<string>, file: PlanFile, s: PlayerState, opMode: int, now: Now,
        reload: Reload, i: nat)
    requires Separate(control) && AllWellFormed(control) && DistinctScns(scns) && i < |scns| && reload != Unchanged
    ensures var f := FileAfter(file, reload);
            var plan := PlanName(f, opMode, now);
            var t := Tick(control, scns, file, s, opMode, now, reload);
            scns[i] in t.active || Quiet(control, t, scns[i])
            <==> Quiet(control, s, scns[i])
                 || (Wants(f, scns[i], plan) && forall j :: 0 <= j < i ==> !Faulty(f, scns[j], plan))
  {
    hide TickScn, TickScns, Separate, PlanName, SameFields, Wants, Quiet, AllWellFormed, Faulty, NotWritten;
    var scn := scns[i];
    var f := FileAfter(file, reload);
    var plan := PlanName(f, opMode, now);
    var r := Reloaded(s, reload);
    var t := Tick(control, scns, file, s, opMode, now, reload);
    var u := OwnTurn(control, f, r, scns, plan, now, i);
    FailsIff(control, f, r, scns[..i], plan, now);
    assert forall j :: 0 <= j < i ==> scns[..i][j] == scns[j];
    QuietBus(control, s, r, scn);
    if TickScns(control, f, r, scns[..i], plan, now).1 {
      SameQuiet(control, r, t, scn);
    } else {
      var v := TickScn(control, f, u, scn, plan, now).0;
      if Wants(f, scn, plan) {
        WantedScn(control, f, u, scn, plan, now);
      } else {
        UnwantedScn(control, f, u, scn, plan, now);
        SameQuiet(control, r, u, scn);
        SameQuiet(control, v, t, scn);
        QuietBus(control, u, v, scn);
      }
    }
  }

  lemma SameQuiet(control: Control, s: PlayerState, t: PlayerState, scn: string)
    requires SameFields(s, t, FieldsOf(control, scn))
    ensures Quiet(control, s, scn) <==> Quiet(control, t, scn)
  {}

  lemma QuietBus(control: Control, s: PlayerState, t: PlayerState, scn: string)
    ensures s.bus == t.bus ==> (Quiet(control, s, scn) <==> Quiet(control, t, scn))
  {}

  /** Outputs left on that way stay on, in any number of ticks, until a plan starts for their SCN. */
  lemma {:induction false} StuckUntilWanted(control: Control, scns: seq<string>, file: PlanFile, s: PlayerState,
        inputs: seq<Input>, scn: string)
    requires Separate(control) && AllWellFormed(control) && DistinctScns(scns) && scn in scns && scn !in s.active
    requires forall k :: 0 <= k < |inputs| ==> !Wants(file, scn, PlanName(file, inputs[k].opMode, inputs[k].now))
    ensures scn !in Run(control, scns, file, s, inputs).active
    ensures SameFields(s, Run(control, scns, file, s, inputs), FieldsOf(control, scn))
    decreases |inputs|
  {
    hide TickScn, TickScns, Separate, PlanName, SameFields, Wants, AllWellFormed, FieldsOf, NotWritten;
    if inputs == [] {
      SameReflexive(control, s, scn);
    } else {
      var plan := PlanName(file, inputs[0].opMode, inputs[0].now);
      var t := Tick(control, scns, file, s, inputs[0].opMode, inputs[0].now, Unchanged);
      var i :| 0 <= i < |scns| && scns[i] == scn;
      var u := OwnTurn(control, file, s, scns, plan, inputs[0].now, i);
      if !TickScns(control, file, s, scns[..i], plan, inputs[0].now).1 {
        var v := TickScn(control, file, u, scn, plan, inputs[0].now).0;
        UnwantedScn(control, file, u, scn, plan, inputs[0].now);
        SameBus(u, v, FieldsOf(control, scn));
        SameFieldsChain(s, u, v, FieldsOf(control, scn));
        SameFieldsChain(s, v, t, FieldsOf(control, scn));
      }
      StuckUntilWanted(control, scns, file, t, inputs[1..], scn);
      SameFieldsChain(s, t, Run(control, scns, file, s, inputs), FieldsOf(control, scn));
    }
  }

  lemma SameBus(s: PlayerState, t: PlayerState, fields: Fields)
    requires s.bus == t.bus
    ensures SameFields(s, t, fields)
  {}

  lemma SameFieldsChain(s: PlayerState, t: PlayerState, u: PlayerState, fields: Fields)
    ensures SameFields(s, t, fields) && SameFields(t, u, fields) ==> SameFields(s, u, fields)
  {}
}
