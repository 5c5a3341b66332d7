/**
  The SCOOT occupancy sampler: detectors are counted every tick, and at the end of a window the counts are
  packed as nibbles.

  Sampler.Tick ties what is reported to the samples of the window; NibbleMeans says what a nibble tells.
 */
module Scoot {
  import opened Bytes

  // ---- Nibbles ---------------------------------------------------------------------------------------

  /** The occupancy of c out of total ticks, in fifteenths. */
  function Nibble(c: nat, total: nat): (n: nat)
    requires total > 0
    ensures n <= 15
  {
    if c * 15 / total > 15 then 15 else c * 15 / total
  }

  /** Nibble k of packed octets: the low one of an octet comes first. */
  function NibbleAt(packed: seq<byte>, k: nat): nat
    requires k < 2 * |packed|
  {
    if k % 2 == 0 then packed[k / 2] % 16 else packed[k / 2] / 16
  }

  /** The nibbles of a detector's counts, and 0 for the place that an odd number of detectors leaves. */
  function Wanted(counts: seq<nat>, total: nat, k: nat): nat {
    if k < |counts| && total > 0 then Nibble(counts[k], total) else 0
  }

  ghost predicate Packs(packed: seq<byte>, counts: seq<nat>, total: nat) {
    && |packed| == (|counts| + 1) / 2
    && forall k :: 0 <= k < 2 * |packed| ==> NibbleAt(packed, k) == Wanted(counts, total, k)
  }

  /** Every octet is a nibble and sixteen times the next one; a place without a detector is 0, and everything is if
      there were no ticks. */
  lemma PackedOctets(packed: seq<byte>, counts: seq<nat>, total: nat, j: nat)
    requires Packs(packed, counts, total) && j < |packed|
    ensures |counts| <= 2 * |packed| <= |counts| + 1
    ensures total == 0 ==> packed[j] == 0
    ensures 2 * j < |counts|
    ensures total > 0 ==>
      packed[j] == Nibble(counts[2 * j], total)
                   + 16 * (if 2 * j + 1 < |counts| then Nibble(counts[2 * j + 1], total) else 0)
  {
    hide Nibble;
    assert NibbleAt(packed, 2 * j) == packed[j] % 16 && NibbleAt(packed, 2 * j + 1) == packed[j] / 16;
  }

  method PackNibbles(counts: seq<nat>, total: nat) returns (packed: seq<byte>)
    ensures Packs(packed, counts, total)
  {
    hide Nibble;
    var size := (|counts| + 1) / 2;
    if total == 0 || counts == [] {
      packed := seq(size, i => 0);
      return;
    }
    var nibbles: seq<nat> := [];
    for i := 0 to |counts|
      invariant |nibbles| == i && forall k :: 0 <= k < i ==> nibbles[k] == Wanted(counts, total, k) <= 15
    {
      nibbles := nibbles + [Nibble(counts[i], total)];
    }
    if |nibbles| % 2 == 1 {
      nibbles := nibbles + [0];
    }
    packed := PackPairs(nibbles);
  }

  method PackPairs(nibbles: seq<nat>) returns (packed: seq<byte>)
    requires |nibbles| % 2 == 0 && forall k :: 0 <= k < |nibbles| ==> nibbles[k] <= 15
    ensures 2 * |packed| == |nibbles| && forall k :: 0 <= k < |nibbles| ==> NibbleAt(packed, k) == nibbles[k]
  {
    hide NibbleAt;
    packed := [];
    var i := 0;
    while i < |nibbles|
      invariant i == 2 * |packed| <= |nibbles|
      invariant forall k :: 0 <= k < i ==> NibbleAt(packed, k) == nibbles[k]
    {
      var next := nibbles[i + 1] * 16 + nibbles[i];
      PackOne(packed, nibbles[i + 1], nibbles[i]);
      packed := packed + [next];
      i := i + 2;
    }
  }

  /** One more octet adds two nibbles, the low one first. */
  lemma PackOne(packed: seq<byte>, high: nat, low: nat)
    requires high <= 15 && low <= 15
    ensures var after: seq<byte> := packed + [high * 16 + low];
            && (forall k :: 0 <= k < 2 * |packed| ==> NibbleAt(after, k) == NibbleAt(packed, k))
            && NibbleAt(after, 2 * |packed|) == low && NibbleAt(after, 2 * |packed| + 1) == high
  {
    Unpack(high, low);
    var after: seq<byte> := packed + [high * 16 + low];
    forall k | 0 <= k < 2 * |packed| ensures NibbleAt(after, k) == NibbleAt(packed, k) {
      assert after[k / 2] == packed[k / 2];
    }
    assert after[|packed|] == high * 16 + low;
  }

  lemma Unpack(high: nat, low: nat)
    requires low <= 15
    ensures (high * 16 + low) % 16 == low && (high * 16 + low) / 16 == high
  {}

  /** What a nibble tells of the occupancy; the highest is for full occupancy only. */
  lemma NibbleMeans(c: nat, total: nat)
    requires 0 < total && c <= total
    ensures var n := Nibble(c, total);
            n * total <= 15 * c < (n + 1) * total && (n == 15 <==> c == total)
  {
    var q := c * 15 / total;
    assert c * 15 == q * total + c * 15 % total;
    assert (q + 1) * total == q * total + total;
    assert q >= 16 ==> q * total >= 16 * total;
    assert q >= 15 ==> q * total >= 15 * total;
    assert q <= 14 ==> (q + 1) * total <= 15 * total;
  }

  // ---- Sampling ----------------------------------------------------------------------------------------

  /** One tick's readings, per SCN and detector. */
  type Reading = map<string, seq<bool>>

  predicate Fits(sizes: map<string, nat>, r: Reading) {
    r.Keys == sizes.Keys && forall scn :: scn in sizes ==> |r[scn]| == sizes[scn]
  }

  predicate AllFit(sizes: map<string, nat>, window: seq<Reading>) {
    forall i :: 0 <= i < |window| ==> Fits(sizes, window[i])
  }

  /** The ticks of a window in which a detector was occupied. */
  function Occupied(window: seq<Reading>, scn: string, det: nat): (n: nat)
    requires forall i :: 0 <= i < |window| ==> scn in window[i] && det < |window[i][scn]|
    ensures n <= |window|
  {
    if window == [] then 0
    else Occupied(window[..|window| - 1], scn, det) + if window[|window| - 1][scn][det] then 1 else 0
  }

  function Counts(sizes: map<string, nat>, window: seq<Reading>, scn: string): seq<nat>
    requires AllFit(sizes, window) && scn in sizes
  {
    seq(sizes[scn], d requires 0 <= d < sizes[scn] => Occupied(window, scn, d))
  }

  /** The counts after one more tick. */
  function Bumped(cs: seq<nat>, r: seq<bool>): (next: seq<nat>)
    requires |cs| == |r|
    ensures |next| == |cs|
  {
    seq(|cs|, d requires 0 <= d < |cs| => cs[d] + if r[d] then 1 else 0)
  }

  method Bump(cs: seq<nat>, r: seq<bool>) returns (next: seq<nat>)
    requires |cs| == |r|
    ensures next == Bumped(cs, r)
  {
    next := cs;
    for i := 0 to |r|
      invariant |next| == |cs|
      invariant forall d :: 0 <= d < |cs| ==> next[d] == if d < i then Bumped(cs, r)[d] else cs[d]
    {
      if r[i] {
        next := next[i := next[i] + 1];
      }
    }
  }

  method BumpAll(counts: map<string, seq<nat>>, r: Reading) returns (next: map<string, seq<nat>>)
    requires counts.Keys == r.Keys && forall scn :: scn in counts ==> |counts[scn]| == |r[scn]|
    ensures next.Keys == counts.Keys && forall scn :: scn in counts ==> next[scn] == Bumped(counts[scn], r[scn])
  {
    hide Bumped;
    next := counts;
    var todo := counts.Keys;
    while todo != {}
      invariant todo <= counts.Keys && next.Keys == counts.Keys
      invariant forall scn :: scn in counts
                  ==> next[scn] == if scn in todo then counts[scn] else Bumped(counts[scn], r[scn])
      decreases |todo|
    {
      var scn :| scn in todo;
      var bumped := Bump(counts[scn], r[scn]);
      next := next[scn := bumped];
      todo := todo - {scn};
    }
  }

  method PackAll(counts: map<string, seq<nat>>, ticks: nat) returns (packed: map<string, seq<byte>>)
    ensures packed.Keys == counts.Keys && forall scn :: scn in counts ==> Packs(packed[scn], counts[scn], ticks)
  {
    hide Packs;
    packed := map[];
    var todo := counts.Keys;
    while todo != {}
      invariant todo <= counts.Keys && packed.Keys == counts.Keys - todo
      invariant forall scn :: scn in packed ==> Packs(packed[scn], counts[scn], ticks)
      decreases |todo|
    {
      var scn :| scn in todo;
      var bytes := PackNibbles(counts[scn], ticks);
      packed := packed[scn := bytes];
      todo := todo - {scn};
    }
  }

  lemma SameKeys(sizes: map<string, nat>, r: Reading)
    requires Fits(sizes, r)
    ensures r.Keys == sizes.Keys
  {}

  lemma CountsGrow(sizes: map<string, nat>, window: seq<Reading>, r: Reading, scn: string)
    requires AllFit(sizes, window) && Fits(sizes, r) && scn in sizes
    ensures AllFit(sizes, window + [r])
    ensures |Counts(sizes, window, scn)| == |r[scn]|
    ensures Counts(sizes, window + [r], scn) == Bumped(Counts(sizes, window, scn), r[scn])
  {
    assert (window + [r])[..|window|] == window;
  }

  lemma CountsLength(sizes: map<string, nat>, window: seq<Reading>, scn: string)
    requires AllFit(sizes, window) && scn in sizes
    ensures |Counts(sizes, window, scn)| == sizes[scn]
  {}

  lemma CountsStart(sizes: map<string, nat>, scn: string)
    requires scn in sizes
    ensures Counts(sizes, [], scn) == seq(sizes[scn], i => 0)
  {}

  const TICKS_PER_SECOND := 10

  class Sampler {
    const sizes: map<string, nat>
    var counts: map<string, seq<nat>>
    var ticks: nat
    var packed: map<string, seq<byte>>
    ghost var window: seq<Reading>   // the ticks since the last report

    ghost predicate Valid()
      reads this
    {
      && AllFit(sizes, window) && ticks == |window|
      && counts.Keys == sizes.Keys && packed.Keys == sizes.Keys
      && forall scn :: scn in sizes ==> counts[scn] == Counts(sizes, window, scn)
    }

    constructor (sizes: map<string, nat>)
      ensures this.sizes == sizes && Valid() && window == []
      ensures forall scn :: scn in sizes ==> Packs(packed[scn], Counts(sizes, [], scn), 0)
    {
      this.sizes := sizes;
      counts := map scn | scn in sizes :: seq(sizes[scn], i => 0);
      packed := map scn | scn in sizes :: seq((sizes[scn] + 1) / 2, i => 0);
      ticks, window := 0, [];
    }

    method Count(r: Reading)
      requires Valid() && Fits(sizes, r)
      modifies `counts, `ticks, `window
      ensures Valid() && window == old(window) + [r]
    {
      hide Counts, Bumped, Fits;
      SameKeys(sizes, r);
      forall scn | scn in sizes
        ensures |counts[scn]| == |r[scn]| && Bumped(counts[scn], r[scn]) == Counts(sizes, window + [r], scn)
      {
        CountsGrow(sizes, window, r, scn);
      }
      counts := BumpAll(counts, r);
      ticks, window := ticks + 1, window + [r];
    }

    method PackAndReset()
      requires Valid()
      modifies this
      ensures Valid() && window == []
      ensures forall scn :: scn in sizes ==> Packs(packed[scn], Counts(sizes, old(window), scn), |old(window)|)
    {
      hide Counts, Packs;
      packed := PackAll(counts, ticks);
      counts := map scn | scn in counts :: seq(|counts[scn]|, i => 0);
      forall scn | scn in sizes ensures counts[scn] == Counts(sizes, [], scn) {
        CountsLength(sizes, window, scn);
        CountsStart(sizes, scn);
      }
      ticks, window := 0, [];
    }

    /** One pass of the sample loop: when the window is full, what is reported is the occupancy of its ticks. */
    method Tick(r: Reading, seconds: int)
      requires Valid() && Fits(sizes, r)
      modifies this
      ensures Valid()
      ensures if old(ticks) + 1 < seconds * 10 then window == old(window) + [r] && packed == old(packed)
              else window == [] && forall scn :: scn in sizes ==>
                Packs(packed[scn], Counts(sizes, old(window) + [r], scn), |old(window)| + 1)
    {
      Count(r);
      if ticks >= seconds * TICKS_PER_SECOND {
        PackAndReset();
      }
    }
  }

  /** In a report, the nibble of a detector tells its occupancy over the window, between 0 and all of it. */
  lemma ReportMeans(sizes: map<string, nat>, window: seq<Reading>, scn: string, det: nat, packed: seq<byte>)
    requires AllFit(sizes, window) && window != [] && scn in sizes && det < sizes[scn]
    requires Packs(packed, Counts(sizes, window, scn), |window|)
    ensures var n, occupied, total := NibbleAt(packed, det), Occupied(window, scn, det), |window|;
            && n * total <= 15 * occupied < (n + 1) * total
            && (n == 15 <==> occupied == total)
  {
    var counts := Counts(sizes, window, scn);
    assert NibbleAt(packed, det) == Wanted(counts, |window|, det) == Nibble(counts[det], |window|);
    NibbleMeans(counts[det], |window|);
  }
}
