/**
  The two-phase write of a bit-mapped control field, used by the UTC outstation and by the plan player:
  the bits that are to be on are written first, the others are cleared afterwards.
 */
module MaskWrite {
  import opened Bytes

  datatype BusWrite = BusWrite(sig: string, value: int)
  type Bus = map<string, int>
  type Bits = seq<(nat, string)>   // bit number and signal, in configuration order

  /** The bus client of a service; the log lists every write it has made. */
  class BusClient {
    var log: seq<BusWrite>

    constructor ()
      ensures log == []
    {
      log := [];
    }

    method Write(sig: string, value: int)
      modifies this
      ensures log == old(log) + [BusWrite(sig, value)]
    {
      log := log + [BusWrite(sig, value)];
    }
  }

  function Apply(bus: Bus, writes: seq<BusWrite>): Bus
    decreases |writes|
  {
    if writes == [] then bus else Apply(bus[writes[0].sig := writes[0].value], writes[1..])
  }

  lemma {:induction false} ApplyAppend(bus: Bus, a: seq<BusWrite>, b: seq<BusWrite>)
    ensures Apply(bus, a + b) == Apply(Apply(bus, a), b)
    decreases |a|
  {
    if a == [] {
      assert a + b == b;
    } else {
      assert (a + b)[1..] == a[1..] + b;
      ApplyAppend(bus[a[0].sig := a[0].value], a[1..], b);
    }
  }

  lemma NoWrites(bus: Bus)
    ensures Apply(bus, []) == bus
  {
  }

  // ---- Bits of a mask ----------------------------------------------------------------------

  /** Bit number 1 is the lowest. */
  function BitOf(mask: int, bit: nat): (r: int)
    requires bit >= 1
    ensures r == 0 || r == 1
    decreases bit
  {
    if bit == 1 then mask % 2 else BitOf(mask / 2, bit - 1)
  }

  /** The mask with one more bit set. */
  function WithBit(mask: int, bit: nat): (r: int)
    requires bit >= 1
    ensures mask >= 0 ==> r >= 0
    decreases bit
  {
    if bit == 1 then mask / 2 * 2 + 1 else WithBit(mask / 2, bit - 1) * 2 + mask % 2
  }

  lemma {:induction false} BitOfWithBit(mask: int, bit: nat, b: nat)
    requires bit >= 1 && b >= 1
    ensures BitOf(WithBit(mask, bit), b) == if b == bit then 1 else BitOf(mask, b)
    decreases bit
  {
    if bit > 1 {
      if b > 1 {
        assert WithBit(mask, bit) / 2 == WithBit(mask / 2, bit - 1);
        BitOfWithBit(mask / 2, bit - 1, b - 1);
      }
    }
  }

  function PowerOfTwo(n: nat): (power: nat)
    ensures power >= 1
  {
    if n == 0 then 1 else 2 * PowerOfTwo(n - 1)
  }

  /** The bits are those of the binary number: bit n is worth 2 to the power of n - 1. */
  lemma {:induction false} BitOfIs(mask: int, bit: nat)
    requires bit >= 1
    ensures BitOf(mask, bit) == mask / PowerOfTwo(bit - 1) % 2
    decreases bit
  {
    if bit > 1 {
      BitOfIs(mask / 2, bit - 1);
      DivideTwice(mask, PowerOfTwo(bit - 2));
    }
  }

  lemma DivideTwice(a: int, c: int)
    requires c > 0
    ensures a / 2 / c == a / (2 * c)
  {
    var q, r := a / 2 / c, a / 2 % c;
    var x := c * q;
    assert a / 2 == x + r && (2 * c) * q == 2 * x;
    QuotientIs(a, 2 * c, q, 2 * r + a % 2);
  }

  lemma QuotientIs(a: int, b: int, q: int, r: int)
    requires b > 0 && a == b * q + r && 0 <= r < b
    ensures a / b == q
  {
    var q', r' := a / b, a % b;
    assert a == b * q' + r';
    assert b * (q - q') == b * q - b * q' == r' - r;
    assert q - q' >= 1 ==> b * (q - q') >= b;
    assert q - q' <= -1 ==> b * (q - q') <= -b;
  }

  /** Setting a bit adds what it is worth, unless it is on already. */
  lemma {:induction false} WithBitIs(mask: int, bit: nat)
    requires bit >= 1
    ensures WithBit(mask, bit) == if BitOf(mask, bit) == 1 then mask else mask + PowerOfTwo(bit - 1)
    decreases bit
  {
    if bit > 1 {
      WithBitIs(mask / 2, bit - 1);
    }
  }

  /** Setting one of the lowest n bits leaves a number of n bits. */
  lemma {:induction false} WithBitBound(mask: int, bit: nat, n: nat)
    requires 1 <= bit <= n && 0 <= mask < PowerOfTwo(n)
    ensures 0 <= WithBit(mask, bit) < PowerOfTwo(n)
    decreases bit
  {
    var half := PowerOfTwo(n - 1);
    assert PowerOfTwo(n) == 2 * half;
    if bit > 1 {
      assert 0 <= mask / 2 < half;
      WithBitBound(mask / 2, bit - 1, n - 1);
      var r := WithBit(mask / 2, bit - 1);
      assert r * 2 + mask % 2 < 2 * half;
    }
  }

  /** A bit beyond the lowest n is on only in a number that has more than n bits. */
  lemma {:induction false} HighBitIsLarge(mask: nat, bit: nat, n: nat)
    requires bit > n && BitOf(mask, bit) == 1
    ensures mask >= PowerOfTwo(n)
    decreases bit
  {
    if n > 0 {
      HighBitIsLarge(mask / 2, bit - 1, n - 1);
    } else if bit > 1 {
      HighBitIsLarge(mask / 2, bit - 1, 0);
    }
  }

  lemma {:induction false} BitOfZero(b: nat)
    requires b >= 1
    ensures BitOf(0, b) == 0
  {
    if b > 1 {
      BitOfZero(b - 1);
    }
  }

  predicate Numbered(bits: Bits) {
    && (forall i :: 0 <= i < |bits| ==> bits[i].0 >= 1)
    && forall i, j :: 0 <= i < j < |bits| ==> bits[i].0 != bits[j].0
  }

  predicate Distinct(bits: Bits) {
    forall i, j :: 0 <= i < j < |bits| ==> bits[i].1 != bits[j].1
  }

  // ---- The two phases ------------------------------------------------------------------------

  /** The writes of one phase: value to every signal whose bit has that value. */
  function Phase(bits: Bits, mask: int, value: int): seq<BusWrite>
    requires Numbered(bits)
  {
    if bits == [] then []
    else
      var last := |bits| - 1;
      Phase(bits[..last], mask, value)
          + (if BitOf(mask, bits[last].0) == value then [BusWrite(bits[last].1, value)] else [])
  }

  function MaskWrites(bits: Bits, mask: int): seq<BusWrite>
    requires Numbered(bits)
  {
    Phase(bits, mask, 1) + Phase(bits, mask, 0)
  }

  method SetMask(io: BusClient, bits: Bits, mask: int)
    requires Numbered(bits)
    modifies io
    ensures io.log == old(io.log) + MaskWrites(bits, mask)
  {
    for i := 0 to |bits|
      invariant io.log == old(io.log) + Phase(bits[..i], mask, 1)
    {
      assert bits[..i + 1][..i] == bits[..i];
      if BitOf(mask, bits[i].0) == 1 {
        io.Write(bits[i].1, 1);
      }
    }
    assert bits[..|bits|] == bits;
    for i := 0 to |bits|
      invariant io.log == old(io.log) + Phase(bits, mask, 1) + Phase(bits[..i], mask, 0)
    {
      assert bits[..i + 1][..i] == bits[..i];
      if BitOf(mask, bits[i].0) != 1 {
        io.Write(bits[i].1, 0);
      }
    }
  }

  /** The writes of a phase go to exactly the signals whose bit has the value of the phase. */
  lemma {:induction false} PhaseWrites(bits: Bits, mask: int, value: int)
    requires Numbered(bits)
    ensures forall w :: w in Phase(bits, mask, value) <==>
              w.value == value && exists i :: 0 <= i < |bits| && bits[i].1 == w.sig && BitOf(mask, bits[i].0) == value
  {
    if bits != [] {
      var last := |bits| - 1;
      PhaseWrites(bits[..last], mask, value);
      forall w: BusWrite | w.value == value && exists i :: 0 <= i < |bits| && bits[i].1 == w.sig
                                                 && BitOf(mask, bits[i].0) == value
        ensures w in Phase(bits, mask, value)
      {
        var i :| 0 <= i < |bits| && bits[i].1 == w.sig && BitOf(mask, bits[i].0) == value;
        if i < last {
          assert bits[..last][i] == bits[i];
        }
      }
    }
  }

  /** Applying writes that all carry one value sets their signals to it and leaves the rest alone. */
  lemma {:induction false} ApplyUniform(bus: Bus, writes: seq<BusWrite>, value: int)
    requires forall w :: w in writes ==> w.value == value
    ensures var after := Apply(bus, writes);
            forall s :: if BusWrite(s, value) in writes then s in after && after[s] == value
                        else (s in after <==> s in bus) && (s in bus ==> after[s] == bus[s])
    decreases |writes|
  {
    if writes != [] {
      ApplyUniform(bus[writes[0].sig := writes[0].value], writes[1..], value);
    }
  }

  predicate On(bus: Bus, sig: string) {
    sig in bus && bus[sig] != 0
  }

  /** The state after the first k writes. */
  function After(bus: Bus, bits: Bits, mask: int, k: nat): Bus
    requires Numbered(bits) && k <= |MaskWrites(bits, mask)|
  {
    Apply(bus, MaskWrites(bits, mask)[..k])
  }

  /** During the first phase signals are only switched on. */
  lemma SettingPhase(bus: Bus, bits: Bits, mask: int, k: nat, s: string)
    requires Numbered(bits) && k <= |Phase(bits, mask, 1)|
    ensures On(bus, s) ==> On(After(bus, bits, mask, k), s)
  {
    PhaseWrites(bits, mask, 1);
    var done := Phase(bits, mask, 1)[..k];
    assert MaskWrites(bits, mask)[..k] == done;
    ApplyUniform(bus, done, 1);
  }

  /** During the second phase every wanted signal is on. */
  lemma ClearingPhase(bus: Bus, bits: Bits, mask: int, k: nat, i: nat)
    requires Numbered(bits) && Distinct(bits) && |Phase(bits, mask, 1)| <= k <= |MaskWrites(bits, mask)|
    requires i < |bits| && BitOf(mask, bits[i].0) == 1
    ensures On(After(bus, bits, mask, k), bits[i].1)
  {
    hide Phase, BitOf, Apply;
    PhaseWrites(bits, mask, 1);
    PhaseWrites(bits, mask, 0);
    var set1, cleared := Phase(bits, mask, 1), Phase(bits, mask, 0)[..k - |Phase(bits, mask, 1)|];
    assert MaskWrites(bits, mask)[..k] == set1 + cleared;
    ApplyAppend(bus, set1, cleared);
    ApplyUniform(bus, set1, 1);
    assert BusWrite(bits[i].1, 1) in set1;
    ApplyUniform(Apply(bus, set1), cleared, 0);
    assert BusWrite(bits[i].1, 0) !in cleared;
  }

  /** No signal that is on before and after the write is ever off in between. */
  lemma NoDropOut(bus: Bus, bits: Bits, mask: int, k: nat, i: nat)
    requires Numbered(bits) && Distinct(bits) && k <= |MaskWrites(bits, mask)|
    requires i < |bits| && On(bus, bits[i].1) && BitOf(mask, bits[i].0) == 1
    ensures On(After(bus, bits, mask, k), bits[i].1)
  {
    if k <= |Phase(bits, mask, 1)| {
      SettingPhase(bus, bits, mask, k, bits[i].1);
    } else {
      ClearingPhase(bus, bits, mask, k, i);
    }
  }

  ghost predicate SomeOn(bus: Bus, bits: Bits) {
    exists i :: 0 <= i < |bits| && On(bus, bits[i].1)
  }

  ghost predicate SomeWanted(bits: Bits, mask: int)
    requires Numbered(bits)
  {
    exists i :: 0 <= i < |bits| && BitOf(mask, bits[i].0) == 1
  }

  /** The final state is the mask, and nothing else changes. */
  lemma FinalState(bus: Bus, bits: Bits, mask: int)
    requires Numbered(bits) && Distinct(bits)
    ensures var after := Apply(bus, MaskWrites(bits, mask));
            && (forall i :: 0 <= i < |bits| ==> bits[i].1 in after && after[bits[i].1] == BitOf(mask, bits[i].0))
            && (forall s :: (forall i :: 0 <= i < |bits| ==> bits[i].1 != s)
                  ==> (s in after <==> s in bus) && (s in bus ==> after[s] == bus[s]))
  {
    hide Phase, BitOf, Apply;
    PhaseWrites(bits, mask, 1);
    PhaseWrites(bits, mask, 0);
    ApplyAppend(bus, Phase(bits, mask, 1), Phase(bits, mask, 0));
    ApplyUniform(bus, Phase(bits, mask, 1), 1);
    ApplyUniform(Apply(bus, Phase(bits, mask, 1)), Phase(bits, mask, 0), 0);
    forall i | 0 <= i < |bits|
      ensures BusWrite(bits[i].1, 0) in Phase(bits, mask, 0) <==> BitOf(mask, bits[i].0) == 0
    {}
  }

  /** The field is never entirely off during a write exactly when it is not off before and not to be off after. */
  lemma NeverAllOffIff(bus: Bus, bits: Bits, mask: int)
    requires Numbered(bits) && Distinct(bits)
    ensures (forall k :: 0 <= k <= |MaskWrites(bits, mask)| ==> SomeOn(After(bus, bits, mask, k), bits))
       <==> SomeOn(bus, bits) && SomeWanted(bits, mask)
  {
    hide Phase, BitOf, Apply;
    var n := |MaskWrites(bits, mask)|;
    if SomeOn(bus, bits) && SomeWanted(bits, mask) {
      var i :| 0 <= i < |bits| && On(bus, bits[i].1);
      var j :| 0 <= j < |bits| && BitOf(mask, bits[j].0) == 1;
      forall k | 0 <= k <= n ensures SomeOn(After(bus, bits, mask, k), bits) {
        if k <= |Phase(bits, mask, 1)| {
          SettingPhase(bus, bits, mask, k, bits[i].1);
        } else {
          ClearingPhase(bus, bits, mask, k, j);
        }
      }
    }
    if forall k :: 0 <= k <= n ==> SomeOn(After(bus, bits, mask, k), bits) {
      assert After(bus, bits, mask, 0) == bus by {
        assert MaskWrites(bits, mask)[..0] == [];
        NoWrites(bus);
      }
      assert MaskWrites(bits, mask)[..n] == MaskWrites(bits, mask);
      assert SomeOn(After(bus, bits, mask, n), bits);
      FinalState(bus, bits, mask);
    }
  }

  // ---- Reading the field back ---------------------------------------------------------------

  /** The getter's mask: the odd values of the field's signals. */
  function ReadMask(bus: Bus, bits: Bits): nat
    requires Numbered(bits)
  {
    if bits == [] then 0
    else
      var last := |bits| - 1;
      var below := ReadMask(bus, bits[..last]);
      if ReadsOdd(bus, bits[last].1) then WithBit(below, bits[last].0) else below
  }

  predicate ReadsOdd(bus: Bus, sig: string) {
    sig in bus && bus[sig] % 2 == 1
  }

  /** The getter answers with one octet, and fails if the mask does not fit it. */
  method GetMask(bus: Bus, bits: Bits) returns (octet: Option<byte>)
    requires Numbered(bits)
    ensures octet == if ReadMask(bus, bits) < 256 then Some(ReadMask(bus, bits)) else None
  {
    var result: nat := 0;
    for i := 0 to |bits|
      invariant result == ReadMask(bus, bits[..i])
    {
      assert bits[..i + 1][..i] == bits[..i];
      var value := if bits[i].1 in bus then bus[bits[i].1] else 0;
      if value % 2 == 1 {
        result := WithBit(result, bits[i].0);
      }
    }
    assert bits[..|bits|] == bits;
    octet := if result < 256 then Some(result) else None;
  }

  lemma {:induction false} LowBitsFit(bus: Bus, bits: Bits)
    requires Numbered(bits) && forall i :: 0 <= i < |bits| && bits[i].0 > 8 ==> !ReadsOdd(bus, bits[i].1)
    ensures ReadMask(bus, bits) < PowerOfTwo(8)
  {
    if bits != [] {
      var n := |bits| - 1;
      LowBitsFit(bus, bits[..n]);
      if ReadsOdd(bus, bits[n].1) {
        WithBitBound(ReadMask(bus, bits[..n]), bits[n].0, 8);
      }
    }
  }

  /** It does not fit exactly if a signal with a bit number above 8 is on. */
  lemma MaskFitsIff(bus: Bus, bits: Bits)
    requires Numbered(bits)
    ensures ReadMask(bus, bits) < 256 <==> forall i :: 0 <= i < |bits| && bits[i].0 > 8 ==> !ReadsOdd(bus, bits[i].1)
  {
    hide ReadMask, ReadsOdd;
    Octet();
    if exists i :: 0 <= i < |bits| && bits[i].0 > 8 && ReadsOdd(bus, bits[i].1) {
      var i :| 0 <= i < |bits| && bits[i].0 > 8 && ReadsOdd(bus, bits[i].1);
      ReadMaskBit(bus, bits, bits[i].0);
      HighBitIsLarge(ReadMask(bus, bits), bits[i].0, 8);
    } else {
      LowBitsFit(bus, bits);
    }
  }

  lemma Octet()
    ensures PowerOfTwo(8) == 256
  {
    assert PowerOfTwo(4) == 16 && PowerOfTwo(6) == 64;
  }

  lemma {:induction false} ReadMaskBit(bus: Bus, bits: Bits, b: nat)
    requires Numbered(bits) && b >= 1
    ensures BitOf(ReadMask(bus, bits), b) == 1
       <==> exists i :: 0 <= i < |bits| && bits[i].0 == b && ReadsOdd(bus, bits[i].1)
  {
    if bits == [] {
      BitOfZero(b);
    } else {
      var last := |bits| - 1;
      ReadMaskBit(bus, bits[..last], b);
      BitOfWithBit(ReadMask(bus, bits[..last]), bits[last].0, b);
      if exists i :: 0 <= i < last && bits[i].0 == b && ReadsOdd(bus, bits[i].1) {
        var i :| 0 <= i < last && bits[i].0 == b && ReadsOdd(bus, bits[i].1);
        assert bits[..last][i] == bits[i];
      }
    }
  }

  ghost predicate Mapped(bits: Bits, b: nat) {
    exists i :: 0 <= i < |bits| && bits[i].0 == b
  }

  /** What is read back after a write is the mask, restricted to the mapped bits. */
  lemma ReadBack(bus: Bus, bits: Bits, mask: int, b: nat)
    requires Numbered(bits) && Distinct(bits) && b >= 1
    ensures BitOf(ReadMask(Apply(bus, MaskWrites(bits, mask)), bits), b)
       == if Mapped(bits, b) then BitOf(mask, b) else 0
  {
    var after := Apply(bus, MaskWrites(bits, mask));
    FinalState(bus, bits, mask);
    ReadMaskBit(after, bits, b);
  }

  /** Reading back works for every mask only if no two bits share a signal. */
  lemma ReadBackIff(bus: Bus, bits: Bits)
    requires Numbered(bits)
    ensures Distinct(bits) <==> forall mask: int, b: nat :: b >= 1 ==>
              BitOf(ReadMask(Apply(bus, MaskWrites(bits, mask)), bits), b)
              == if Mapped(bits, b) then BitOf(mask, b) else 0
  {
    if Distinct(bits) {
      forall mask: int, b: nat | b >= 1
        ensures BitOf(ReadMask(Apply(bus, MaskWrites(bits, mask)), bits), b)
           == if Mapped(bits, b) then BitOf(mask, b) else 0
      {
        ReadBack(bus, bits, mask, b);
      }
    } else {
      var i, j :| 0 <= i < j < |bits| && bits[i].1 == bits[j].1;
      var a, b := bits[i].0, bits[j].0;
      var mask := WithBit(0, a);
      BitOfWithBit(0, a, a);
      BitOfWithBit(0, a, b);
      BitOfZero(b);
      var after := Apply(bus, MaskWrites(bits, mask));
      ReadMaskBit(after, bits, a);
      ReadMaskBit(after, bits, b);
      assert Mapped(bits, a) && Mapped(bits, b);
    }
  }
}
