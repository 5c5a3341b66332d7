/**
  The kernel's view of the bus: detector values with a rising-edge latch, and outputs written only when
  they change.

  LatchedIff says what the latch reports in any run of samples of any signals; AgreeIff and
  NotRetried say what ignoring the outcome of a write costs.
 */
module KernelIO {
  import opened Bytes

  const LATCH := 150   // milliseconds

  // ---- The latch -----------------------------------------------------------------------------------

  datatype Sample = Sample(sig: string, raw: int, now: nat)

  datatype LatchState = LatchState(prev: map<string, int>, until: map<string, int>)

  function Prev(s: LatchState, sig: string): int {
    if sig in s.prev then s.prev[sig] else 0
  }

  function Until(s: LatchState, sig: string): int {
    if sig in s.until then s.until[sig] else 0
  }

  function Sampled(s: LatchState, x: Sample): LatchState {
    LatchState(s.prev[x.sig := x.raw],
               if x.raw != 0 && Prev(s, x.sig) == 0 then s.until[x.sig := x.now + LATCH] else s.until)
  }

  function Reported(s: LatchState, x: Sample): int {
    if x.raw != 0 || x.now < Until(Sampled(s, x), x.sig) then 1 else 0
  }

  class DetLatch {
    var prev: map<string, int>
    var until: map<string, int>

    ghost function Now(): LatchState
      reads this
    {
      LatchState(prev, until)
    }

    constructor ()
      ensures Now() == LatchState(map[], map[])
    {
      prev, until := map[], map[];
    }

    method Apply(sig: string, raw: int, now: nat) returns (value: int)
      modifies this
      ensures Now() == Sampled(old(Now()), Sample(sig, raw, now))
      ensures value == Reported(old(Now()), Sample(sig, raw, now))
    {
      var before := if sig in prev then prev[sig] else 0;
      if raw != 0 && before == 0 {
        until := until[sig := now + LATCH];
      }
      prev := prev[sig := raw];
      value := if raw != 0 || now < (if sig in until then until[sig] else 0) then 1 else 0;
    }

    /** The detectors of one tick, in order. */
    method ReadDetectors(dets: seq<string>, vals: seq<int>, now: nat) returns (buffer: seq<int>)
      modifies this
      ensures Now() == After(old(Now()), TickSamples(dets, vals, now))
      ensures buffer == Reports(old(Now()), TickSamples(dets, vals, now))
    {
      hide Reported, Sampled;
      buffer := [];
      ghost var xs := TickSamples(dets, vals, now);
      for i := 0 to |dets|
        invariant Now() == After(old(Now()), xs[..i]) && buffer == Reports(old(Now()), xs[..i])
      {
        assert xs[..i + 1][..i] == xs[..i];
        var value := Apply(dets[i], if i < |vals| then vals[i] else 0, now);
        buffer := buffer + [value];
      }
      assert xs[..|dets|] == xs;
    }
  }

  function Reports(s: LatchState, xs: seq<Sample>): seq<int> {
    if xs == [] then [] else Reports(s, xs[..|xs| - 1]) + [Reported(After(s, xs[..|xs| - 1]), xs[|xs| - 1])]
  }

  /** A detector without a value reads as 0. */
  function TickSamples(dets: seq<string>, vals: seq<int>, now: nat): seq<Sample> {
    seq(|dets|, i requires 0 <= i < |dets| => Sample(dets[i], if i < |vals| then vals[i] else 0, now))
  }

  function After(s: LatchState, xs: seq<Sample>): LatchState {
    if xs == [] then s else Sampled(After(s, xs[..|xs| - 1]), xs[|xs| - 1])
  }

  const START := LatchState(map[], map[])

  /** The raw value that a signal had last among the first k samples. */
  function LastRaw(xs: seq<Sample>, k: nat, sig: string): int
    requires k <= |xs|
  {
    if k == 0 then 0 else if xs[k - 1].sig == sig then xs[k - 1].raw else LastRaw(xs, k - 1, sig)
  }

  predicate Rising(xs: seq<Sample>, j: nat)
    requires j < |xs|
  {
    xs[j].raw != 0 && LastRaw(xs, j, xs[j].sig) == 0
  }

  predicate InOrder(xs: seq<Sample>) {
    forall i, j :: 0 <= i < j < |xs| ==> xs[i].now <= xs[j].now
  }

  lemma {:induction false} PrevIsLastRaw(xs: seq<Sample>, k: nat, sig: string)
    requires k <= |xs|
    ensures Prev(After(START, xs[..k]), sig) == LastRaw(xs, k, sig)
  {
    if k > 0 {
      PrevIsLastRaw(xs, k - 1, sig);
      assert xs[..k][..k - 1] == xs[..k - 1];
    }
  }

  /** The deadline of a signal is that of its last rising edge, which is the latest of its deadlines. */
  lemma {:induction false} UntilBounds(xs: seq<Sample>, k: nat, sig: string)
    requires k <= |xs| && InOrder(xs)
    ensures var u := Until(After(START, xs[..k]), sig);
            && (forall j :: 0 <= j < k && xs[j].sig == sig && Rising(xs, j) ==> xs[j].now + LATCH <= u)
            && (u != 0 ==> exists j :: 0 <= j < k && xs[j].sig == sig && Rising(xs, j) && u == xs[j].now + LATCH)
  {
    if k > 0 {
      UntilBounds(xs, k - 1, sig);
      assert xs[..k][..k - 1] == xs[..k - 1];
      PrevIsLastRaw(xs, k - 1, xs[k - 1].sig);
      hide LastRaw;
      var s := After(START, xs[..k - 1]);
      assert After(START, xs[..k]) == Sampled(s, xs[k - 1]);
      if xs[k - 1].sig == sig && Rising(xs, k - 1) {
        assert Until(Sampled(s, xs[k - 1]), sig) == xs[k - 1].now + LATCH;
      }
    }
  }

  lemma {:induction false} ReportsAt(s: LatchState, xs: seq<Sample>, k: nat)
    requires k < |xs|
    ensures |Reports(s, xs)| == |xs| && Reports(s, xs)[k] == Reported(After(s, xs[..k]), xs[k])
  {
    hide Reported, After;
    var n := |xs| - 1;
    if n > 0 {
      ReportsAt(s, xs[..n], if k < n then k else 0);
      if k < n {
        assert xs[..n][..k] == xs[..k];
      }
    }
  }

  /** In any run of samples in order of time, the latch reports a detector on exactly if it is on, or a rising edge of
      it is less than 150 milliseconds ago; other signals have no part in it. */
  lemma LatchedIff(xs: seq<Sample>, k: nat)
    requires k < |xs| && InOrder(xs)
    ensures |Reports(START, xs)| == |xs|
    ensures Reports(START, xs)[k] == 1
       <==> xs[k].raw != 0 || exists j :: 0 <= j <= k && xs[j].sig == xs[k].sig && Rising(xs, j)
                                && xs[k].now - xs[j].now < 150
  {
    hide LastRaw, After, Reports;
    ReportsAt(START, xs, k);
    UntilBounds(xs, k + 1, xs[k].sig);
    AfterOne(xs, k);
  }

  lemma AfterOne(xs: seq<Sample>, k: nat)
    requires k < |xs|
    ensures After(START, xs[..k + 1]) == Sampled(After(START, xs[..k]), xs[k])
  {
    assert xs[..k + 1][..k] == xs[..k];
  }

  /** In a tick every detector of a different signal is reported by its own value, 0 if it has none, and its own
      latch. */
  lemma TickReports(s: LatchState, dets: seq<string>, vals: seq<int>, now: nat, i: nat)
    requires i < |dets| && forall j, k :: 0 <= j < k < |dets| ==> dets[j] != dets[k]
    ensures |Reports(s, TickSamples(dets, vals, now))| == |dets|
    ensures Reports(s, TickSamples(dets, vals, now))[i]
         == if (i < |vals| && vals[i] != 0) || (dets[i] in s.until && now < s.until[dets[i]]) then 1 else 0
  {
    hide Reports, After;
    var xs := TickSamples(dets, vals, now);
    ReportsAt(s, xs, i);
    OthersKeep(s, xs[..i], dets[i]);
  }

  lemma {:induction false} OthersKeep(s: LatchState, xs: seq<Sample>, sig: string)
    requires forall j :: 0 <= j < |xs| ==> xs[j].sig != sig
    ensures Until(After(s, xs), sig) == Until(s, sig) && Prev(After(s, xs), sig) == Prev(s, sig)
  {
    if xs != [] {
      OthersKeep(s, xs[..|xs| - 1], sig);
    }
  }

  // ---- Outputs --------------------------------------------------------------------------------------

  /** The values the kernel takes to have been written, and those on the bus. */
  datatype OutState = OutState(cache: map<string, int>, bus: map<string, int>)

  /** An output of a tick, and whether the bus would accept a write of it. */
  datatype Out = Out(sig: string, value: int, accepted: bool)

  predicate Skipped(s: OutState, o: Out) {
    o.sig == "" || (o.sig in s.cache && s.cache[o.sig] == o.value)
  }

  function Put(s: OutState, o: Out): OutState {
    if Skipped(s, o) then s
    else OutState(s.cache[o.sig := o.value], if o.accepted then s.bus[o.sig := o.value] else s.bus)
  }

  function PutAll(s: OutState, outs: seq<Out>): OutState {
    if outs == [] then s else Put(PutAll(s, outs[..|outs| - 1]), outs[|outs| - 1])
  }

  class Outputs {
    var cache: map<string, int>
    var bus: map<string, int>

    ghost function Now(): OutState
      reads this
    {
      OutState(cache, bus)
    }

    constructor (bus: map<string, int>)
      ensures Now() == OutState(map[], bus)
    {
      cache, this.bus := map[], bus;
    }

    method WriteOutputs(outs: seq<Out>)
      modifies this
      ensures Now() == PutAll(old(Now()), outs)
    {
      for i := 0 to |outs|
        invariant Now() == PutAll(old(Now()), outs[..i])
      {
        assert outs[..i + 1][..i] == outs[..i];
        var o := outs[i];
        if o.sig != "" && !(o.sig in cache && cache[o.sig] == o.value) {
          if o.accepted {
            bus := bus[o.sig := o.value];
          }
          cache := cache[o.sig := o.value];
        }
      }
      assert outs[..|outs|] == outs;
    }
  }

  predicate Agree(s: OutState, sig: string) {
    sig in s.cache ==> sig in s.bus && s.bus[sig] == s.cache[sig]
  }

  /** The last of the outputs for a signal that is to be written. */
  function LastWrite(s: OutState, outs: seq<Out>, sig: string): Option<Out> {
    if outs == [] then None
    else
      var n := |outs| - 1;
      if outs[n].sig == sig && !Skipped(PutAll(s, outs[..n]), outs[n]) then Some(outs[n])
          else LastWrite(s, outs[..n], sig)
  }

  lemma {:induction false} LastWriteDecides(s: OutState, outs: seq<Out>, sig: string)
    ensures var t := PutAll(s, outs);
            match LastWrite(s, outs, sig)
            case None => (sig in t.cache <==> sig in s.cache) && (sig in s.cache ==> t.cache[sig] == s.cache[sig])
                         && (sig in t.bus <==> sig in s.bus) && (sig in s.bus ==> t.bus[sig] == s.bus[sig])
            case Some(o) =>
              && sig in t.cache && t.cache[sig] == o.value
              && (o.accepted ==> sig in t.bus && t.bus[sig] == o.value)
  {
    if outs != [] {
      LastWriteDecides(s, outs[..|outs| - 1], sig);
    }
  }

  predicate DistinctSigs(outs: seq<Out>) {
    forall i, j :: 0 <= i < j < |outs| ==> outs[i].sig != outs[j].sig
  }

  lemma {:induction false} UntouchedBy(s: OutState, outs: seq<Out>, sig: string)
    requires forall i :: 0 <= i < |outs| ==> outs[i].sig != sig
    ensures LastWrite(s, outs, sig) == None
  {
    if outs != [] {
      UntouchedBy(s, outs[..|outs| - 1], sig);
    }
  }

  /** After a tick the cache has the value of every output that has a signal of its own.  The bus has it, too, if the
      cache did not and the write was accepted, and otherwise has what it had; nothing is written for an output without
      one. */
  lemma {:induction false} TickWrites(s: OutState, outs: seq<Out>, i: nat)
    requires DistinctSigs(outs) && i < |outs|
    ensures var t, o := PutAll(s, outs), outs[i];
            if o.sig == "" then
              (o.sig in t.cache <==> o.sig in s.cache) && (o.sig in t.bus <==> o.sig in s.bus)
              && (o.sig in s.cache ==> t.cache[o.sig] == s.cache[o.sig])
                   && (o.sig in s.bus ==> t.bus[o.sig] == s.bus[o.sig])
            else
              && o.sig in t.cache && t.cache[o.sig] == o.value
              && (if o.accepted && !(o.sig in s.cache && s.cache[o.sig] == o.value)
                  then o.sig in t.bus && t.bus[o.sig] == o.value
                  else (o.sig in t.bus <==> o.sig in s.bus) && (o.sig in s.bus ==> t.bus[o.sig] == s.bus[o.sig]))
    decreases |outs|
  {
    var n := |outs| - 1;
    if i == n {
      UntouchedBy(s, outs[..n], outs[n].sig);
      LastWriteDecides(s, outs[..n], outs[n].sig);
    } else {
      TickWrites(s, outs[..n], i);
      assert outs[..n][i] == outs[i] && outs[n].sig != outs[i].sig;
    }
  }

  /** Whether an output that has to be written gets to the bus, or is on it anyway. */
  predicate Arrives(s: OutState, o: Out) {
    if Skipped(s, o) then Agree(s, o.sig) else o.accepted || (o.sig in s.bus && s.bus[o.sig] == o.value)
  }

  /** When every output has its own signal, the cache of one agrees with the bus after a tick exactly if its write was
      not needed and it agreed before, or its write was accepted, or the bus held the value anyway. */
  lemma {:induction false} AgreeIff(s: OutState, outs: seq<Out>, i: nat)
    requires DistinctSigs(outs) && i < |outs| && outs[i].sig != ""
    ensures Agree(PutAll(s, outs), outs[i].sig) <==> Arrives(s, outs[i])
    decreases |outs|
  {
    var n := |outs| - 1;
    var front := outs[..n];
    if i == n {
      UntouchedBy(s, front, outs[n].sig);
      LastWriteDecides(s, front, outs[n].sig);
    } else {
      AgreeIff(s, front, i);
      assert outs[n].sig != outs[i].sig;
    }
  }

  /** A write that was not accepted is not made again, in any number of ticks, while the output keeps its value. */
  lemma {:induction false} NotRetried(s: OutState, o: Out, outs: seq<Out>)
    requires !Skipped(s, o) && !o.accepted && !(o.sig in s.bus && s.bus[o.sig] == o.value)
    requires forall i :: 0 <= i < |outs| && outs[i].sig == o.sig ==> outs[i].value == o.value
    ensures !Agree(PutAll(Put(s, o), outs), o.sig)
    ensures PutAll(Put(s, o), outs).cache[o.sig] == o.value
  {
    if outs != [] {
      NotRetried(s, o, outs[..|outs| - 1]);
    }
  }
}
