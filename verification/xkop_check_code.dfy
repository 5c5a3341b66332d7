/**
  The 16-bit check code that the XKOP sender appends to every packet.

  The table is not that of CRC-16/CCITT: each entry is what eight sign-extending right
  shifts, each with a conditional xor of 0x8408, make of its index.  That is still linear
  over xor, and the high bytes of the entries are all different, so the code detects
  real classes of transmission error.  The main result, BurstUndetectedIff, says exactly
  which errors confined to three adjacent bytes escape it.
 */
module XkopCheckCode {
  import opened Bytes

  // ---- The table ------------------------------------------------------------------

  /** Selects the entry of one half-row of the table by the low four bits of x. */
  function Pick(x: bv8, e0: bv16, e1: bv16, e2: bv16, e3: bv16, e4: bv16, e5: bv16, e6: bv16, e7: bv16, e8: bv16,
        e9: bv16, e10: bv16, e11: bv16, e12: bv16, e13: bv16, e14: bv16, e15: bv16): bv16
  {
    match x & 15
    case 0 => e0 case 1 => e1 case 2 => e2 case 3 => e3
    case 4 => e4 case 5 => e5 case 6 => e6 case 7 => e7
    case 8 => e8 case 9 => e9 case 10 => e10 case 11 => e11
    case 12 => e12 case 13 => e13 case 14 => e14 case _ => e15
  }

  /** The table entry at index x; sixteen entries per case, in the order of the table. */
  function Entry(x: bv8): bv16
  {
    match x >> 4
    case 0 => Pick(x, 0x0000, 0x0f89, 0x1f12, 0x109b, 0x3e24, 0x31ad, 0x2136, 0x2ebf,
                      0x7c48, 0x73c1, 0x635a, 0x6cd3, 0x426c, 0x4de5, 0x5d7e, 0x52f7)
    case 1 => Pick(x, 0xf081, 0xff08, 0xef93, 0xe01a, 0xcea5, 0xc12c, 0xd1b7, 0xde3e,
                      0x8cc9, 0x8340, 0x93db, 0x9c52, 0xb2ed, 0xbd64, 0xadff, 0xa276)
    case 2 => Pick(x, 0xe102, 0xee8b, 0xfe10, 0xf199, 0xdf26, 0xd0af, 0xc034, 0xcfbd,
                      0x9d4a, 0x92c3, 0x8258, 0x8dd1, 0xa36e, 0xace7, 0xbc7c, 0xb3f5)
    case 3 => Pick(x, 0x1183, 0x1e0a, 0x0e91, 0x0118, 0x2fa7, 0x202e, 0x30b5, 0x3f3c,
                      0x6dcb, 0x6242, 0x72d9, 0x7d50, 0x53ef, 0x5c66, 0x4cfd, 0x4374)
    case 4 => Pick(x, 0xc204, 0xcd8d, 0xdd16, 0xd29f, 0xfc20, 0xf3a9, 0xe332, 0xecbb,
                      0xbe4c, 0xb1c5, 0xa15e, 0xaed7, 0x8068, 0x8fe1, 0x9f7a, 0x90f3)
    case 5 => Pick(x, 0x3285, 0x3d0c, 0x2d97, 0x221e, 0x0ca1, 0x0328, 0x13b3, 0x1c3a,
                      0x4ecd, 0x4144, 0x51df, 0x5e56, 0x70e9, 0x7f60, 0x6ffb, 0x6072)
    case 6 => Pick(x, 0x2306, 0x2c8f, 0x3c14, 0x339d, 0x1d22, 0x12ab, 0x0230, 0x0db9,
                      0x5f4e, 0x50c7, 0x405c, 0x4fd5, 0x616a, 0x6ee3, 0x7e78, 0x71f1)
    case 7 => Pick(x, 0xd387, 0xdc0e, 0xcc95, 0xc31c, 0xeda3, 0xe22a, 0xf2b1, 0xfd38,
                      0xafcf, 0xa046, 0xb0dd, 0xbf54, 0x91eb, 0x9e62, 0x8ef9, 0x8170)
    case 8 => Pick(x, 0x8408, 0x8b81, 0x9b1a, 0x9493, 0xba2c, 0xb5a5, 0xa53e, 0xaab7,
                      0xf840, 0xf7c9, 0xe752, 0xe8db, 0xc664, 0xc9ed, 0xd976, 0xd6ff)
    case 9 => Pick(x, 0x7489, 0x7b00, 0x6b9b, 0x6412, 0x4aad, 0x4524, 0x55bf, 0x5a36,
                      0x08c1, 0x0748, 0x17d3, 0x185a, 0x36e5, 0x396c, 0x29f7, 0x267e)
    case 10 => Pick(x, 0x650a, 0x6a83, 0x7a18, 0x7591, 0x5b2e, 0x54a7, 0x443c, 0x4bb5,
                       0x1942, 0x16cb, 0x0650, 0x09d9, 0x2766, 0x28ef, 0x3874, 0x37fd)
    case 11 => Pick(x, 0x958b, 0x9a02, 0x8a99, 0x8510, 0xabaf, 0xa426, 0xb4bd, 0xbb34,
                       0xe9c3, 0xe64a, 0xf6d1, 0xf958, 0xd7e7, 0xd86e, 0xc8f5, 0xc77c)
    case 12 => Pick(x, 0x460c, 0x4985, 0x591e, 0x5697, 0x7828, 0x77a1, 0x673a, 0x68b3,
                       0x3a44, 0x35cd, 0x2556, 0x2adf, 0x0460, 0x0be9, 0x1b72, 0x14fb)
    case 13 => Pick(x, 0xb68d, 0xb904, 0xa99f, 0xa616, 0x88a9, 0x8720, 0x97bb, 0x9832,
                       0xcac5, 0xc54c, 0xd5d7, 0xda5e, 0xf4e1, 0xfb68, 0xebf3, 0xe47a)
    case 14 => Pick(x, 0xa70e, 0xa887, 0xb81c, 0xb795, 0x992a, 0x96a3, 0x8638, 0x89b1,
                       0xdb46, 0xd4cf, 0xc454, 0xcbdd, 0xe562, 0xeaeb, 0xfa70, 0xf5f9)
    case _ => Pick(x, 0x578f, 0x5806, 0x489d, 0x4714, 0x69ab, 0x6622, 0x76b9, 0x7930,
                      0x2bc7, 0x244e, 0x34d5, 0x3b5c, 0x15e3, 0x1a6a, 0x0af1, 0x0578)
  }

  /** One sign-extending right shift of a 16-bit word, with feedback of the bit shifted out. */
  function ShiftOne(c: bv16): bv16 {
    ((c >> 1) | (c & 0x8000)) ^ ((c & 1) * 0x8408)
  }

  function ShiftTwo(c: bv16): bv16 { ShiftOne(ShiftOne(c)) }
  function ShiftFour(c: bv16): bv16 { ShiftTwo(ShiftTwo(c)) }
  function ShiftEight(c: bv16): bv16 { ShiftFour(ShiftFour(c)) }

  lemma FirstRow(x: bv8)
    requires x < 16
    ensures Entry(x) == ShiftEight(x as bv16)
  {}

  lemma Rows0(x: bv8)
    requires 16 <= x < 32
    ensures Entry(x) == ShiftEight(x as bv16)
  {}

  lemma Rows1(x: bv8)
    requires x >> 5 == 1
    ensures Entry(x) == ShiftEight(x as bv16)
  {}

  lemma Rows2(x: bv8)
    requires x >> 5 == 2
    ensures Entry(x) == ShiftEight(x as bv16)
  {}

  lemma Rows3(x: bv8)
    requires x >> 5 == 3
    ensures Entry(x) == ShiftEight(x as bv16)
  {}

  lemma Rows4(x: bv8)
    requires x >> 5 == 4
    ensures Entry(x) == ShiftEight(x as bv16)
  {}

  lemma Rows5(x: bv8)
    requires x >> 5 == 5
    ensures Entry(x) == ShiftEight(x as bv16)
  {}

  lemma Rows6(x: bv8)
    requires x >> 5 == 6
    ensures Entry(x) == ShiftEight(x as bv16)
  {}

  lemma Rows7(x: bv8)
    requires x >> 5 == 7
    ensures Entry(x) == ShiftEight(x as bv16)
  {}

  /** The table is generated: every entry is its index shifted eight times. */
  lemma EntryIsShifted(x: bv8)
    ensures Entry(x) == ShiftEight(x as bv16)
  {
    hide Entry, ShiftEight;
    match x >> 5
    case 0 => if x < 16 { FirstRow(x); } else { Rows0(x); }
    case 1 => Rows1(x);
    case 2 => Rows2(x);
    case 3 => Rows3(x);
    case 4 => Rows4(x);
    case 5 => Rows5(x);
    case 6 => Rows6(x);
    case _ => Rows7(x);
  }

  predicate IsXor(a: bv16, b: bv16, c: bv16) {
    c == a ^ b
  }

  lemma ShiftOneXor(a: bv16, b: bv16, c: bv16)
    requires IsXor(a, b, c)
    ensures IsXor(ShiftOne(a), ShiftOne(b), ShiftOne(c))
  {}

  lemma ShiftTwoXor(a: bv16, b: bv16, c: bv16)
    requires IsXor(a, b, c)
    ensures IsXor(ShiftTwo(a), ShiftTwo(b), ShiftTwo(c))
  {
    hide ShiftOne, IsXor;
    ShiftOneXor(a, b, c);
    ShiftOneXor(ShiftOne(a), ShiftOne(b), ShiftOne(c));
  }

  lemma ShiftFourXor(a: bv16, b: bv16, c: bv16)
    requires IsXor(a, b, c)
    ensures IsXor(ShiftFour(a), ShiftFour(b), ShiftFour(c))
  {
    hide ShiftTwo, IsXor;
    ShiftTwoXor(a, b, c);
    ShiftTwoXor(ShiftTwo(a), ShiftTwo(b), ShiftTwo(c));
  }

  lemma ShiftEightXor(a: bv16, b: bv16, c: bv16)
    requires IsXor(a, b, c)
    ensures IsXor(ShiftEight(a), ShiftEight(b), ShiftEight(c))
  {
    hide ShiftFour, IsXor;
    ShiftFourXor(a, b, c);
    ShiftFourXor(ShiftFour(a), ShiftFour(b), ShiftFour(c));
  }

  /** The table is linear: looking up an xor gives the xor of the entries. */
  lemma EntryXor(a: bv8, b: bv8, c: bv8)
    requires c == a ^ b
    ensures Entry(c) == Entry(a) ^ Entry(b)
  {
    hide Entry, ShiftEight;
    EntryIsShifted(a);
    EntryIsShifted(b);
    EntryIsShifted(c);
    ShiftEightXor(a as bv16, b as bv16, c as bv16);
  }

  /** No entry but the first has a zero high byte. */
  lemma HighByteZeroIff(x: bv8)
    ensures Entry(x) >> 8 == 0 <==> x == 0
  {
    hide Entry;
    EntryIsShifted(x);
  }

  // ---- The register ----------------------------------------------------------------

  /** The two running bytes of the check code; crc1 is written first. */
  datatype Register<B> = Register(crc1: B, crc0: B)

  /** What one step does to bytes: xor, and the low and high byte of a table entry.  The detection
      theorems use nothing else about bytes than the laws in Detecting. */
  datatype Ops<!B> = Ops(xor: (B, B) -> B, low: B -> B, high: B -> B)

  function Step<B>(o: Ops<B>, r: Register<B>, d: B): Register<B> {
    var temp := o.xor(r.crc1, d);
    Register(o.xor(r.crc0, o.low(temp)), o.high(temp))
  }

  function Run<B>(o: Ops<B>, r: Register<B>, data: seq<B>): Register<B>
    decreases data
  {
    if data == [] then r else Run(o, Step(o, r, data[0]), data[1..])
  }

  const XKOP: Ops<bv8> := Ops(XorByte, LowByte, HighByte)

  function XorByte(a: bv8, b: bv8): bv8 { a ^ b }
  function LowByte(x: bv8): bv8 { (Entry(x) & 0xff) as bv8 }
  function HighByte(x: bv8): bv8 { (Entry(x) >> 8) as bv8 }

  /** The check code of data. */
  function Code(data: seq<bv8>): Register<bv8> {
    Run(XKOP, Register(0, 0), data)
  }

  lemma {:induction false} RunAppend<B>(o: Ops<B>, r: Register<B>, a: seq<B>, b: seq<B>)
    ensures Run(o, r, a + b) == Run(o, Run(o, r, a), b)
    decreases a
  {
    if a == [] {
      assert a + b == b;
    } else {
      assert (a + b)[1..] == a[1..] + b;
      RunAppend(o, Step(o, r, a[0]), a[1..], b);
    }
  }

  lemma RunSnoc<B>(o: Ops<B>, r: Register<B>, a: seq<B>, d: B)
    ensures Run(o, r, a + [d]) == Step(o, Run(o, r, a), d)
  {
    RunAppend(o, r, a, [d]);
    assert [d][1..] == [];
  }

  /** The loop over the covered bytes, for any table. */
  method CheckCode<B>(o: Ops<B>, zero: B, data: seq<B>) returns (crc1: B, crc0: B)
    ensures Register(crc1, crc0) == Run(o, Register(zero, zero), data)
  {
    crc1, crc0 := zero, zero;
    for i := 0 to |data|
      invariant Register(crc1, crc0) == Run(o, Register(zero, zero), data[..i])
    {
      RunSnoc(o, Register(zero, zero), data[..i], data[i]);
      assert data[..i + 1] == data[..i] + [data[i]];
      var temp := o.xor(crc1, data[i]);
      crc1 := o.xor(crc0, o.low(temp));
      crc0 := o.high(temp);
    }
    assert data[..|data|] == data;
  }

  function Bits(data: seq<byte>): (bits: seq<bv8>)
    ensures |bits| == |data|
  {
    seq(|data|, i requires 0 <= i < |data| => data[i] as bv8)
  }

  /** A byte as bits, counted up from 0: cheaper to reason about than the conversion. */
  function Counted(a: byte): bv8 {
    if a == 0 then 0 else Counted(a - 1) + 1
  }

  lemma CountOne(b: bv8)
    requires b != 255
    ensures (b + 1) as int == b as int + 1
  {}

  lemma {:induction false} CountedIs(a: byte)
    ensures Counted(a) as int == a
  {
    if a > 0 {
      CountedIs(a - 1);
      CountOne(Counted(a - 1));
    }
  }

  lemma BackToBits(b: bv8)
    ensures (b as int) as bv8 == b
  {}

  lemma BitsRoundTrip(a: byte)
    ensures (a as bv8) as int == a
  {
    CountedIs(a);
    BackToBits(Counted(a));
  }

  lemma SameBits(a: byte, b: byte)
    ensures a as bv8 == b as bv8 ==> a == b
  {
    BitsRoundTrip(a);
    BitsRoundTrip(b);
  }

  /** Writes the check code of data[skip..length] into the two bytes at length. */
  method WriteCheckCode(data: array<byte>, length: nat, skip: nat)
    requires skip <= length && length + 1 < data.Length
    modifies data
    ensures var code := Code(Bits(old(data[skip..length])));
            data[..] == old(data[..])[length := code.crc1 as int][length + 1 := code.crc0 as int]
  {
    var crc1, crc0 := CheckCode(XKOP, 0, Bits(data[skip..length]));
    data[length] := crc1 as int;
    data[length + 1] := crc0 as int;
  }

  // ---- What the code detects ----------------------------------------------------------

  ghost predicate Cancels<B(!new)>(o: Ops<B>) {
    && (forall a, b, c :: o.xor(a, c) == o.xor(b, c) ==> a == b)
    && (forall a, b, c :: o.xor(c, a) == o.xor(c, b) ==> a == b)
  }

  ghost predicate SwapsAt<B>(o: Ops<B>, a: B, b: B, c: B, d: B) {
    o.xor(a, b) == o.xor(c, d) <==> o.xor(b, d) == o.xor(a, c)
  }

  ghost predicate RegroupsAt<B>(o: Ops<B>, a: B, b: B, c: B) {
    && o.xor(o.xor(a, b), o.xor(a, c)) == o.xor(b, c)
    && o.xor(o.xor(b, a), o.xor(c, a)) == o.xor(b, c)
  }

  ghost predicate LinearAt<B>(o: Ops<B>, a: B, b: B) {
    && o.low(o.xor(a, b)) == o.xor(o.low(a), o.low(b))
    && o.high(o.xor(a, b)) == o.xor(o.high(a), o.high(b))
  }

  /** The laws of xor, linearity of the table, and all high bytes of its entries being different. */
  ghost predicate Detecting<B(!new)>(o: Ops<B>) {
    && Cancels(o)
    && (forall a, b, c, d :: SwapsAt(o, a, b, c, d))
    && (forall a, b, c :: RegroupsAt(o, a, b, c))
    && (forall a, b :: LinearAt(o, a, b))
    && (forall x, y :: o.high(x) == o.high(y) ==> x == y)
  }

  lemma XorCancels(a: bv8, b: bv8, c: bv8)
    ensures a ^ c == b ^ c ==> a == b
    ensures c ^ a == c ^ b ==> a == b
  {}

  lemma XorZeroIff(a: bv8, b: bv8)
    ensures a ^ b == 0 <==> a == b
  {}

  lemma XorSwaps(a: bv8, b: bv8, c: bv8, d: bv8)
    ensures a ^ b == c ^ d <==> b ^ d == a ^ c
  {}

  lemma XorRegroups(a: bv8, b: bv8, c: bv8)
    ensures (a ^ b) ^ (a ^ c) == b ^ c
    ensures (b ^ a) ^ (c ^ a) == b ^ c
  {}

  lemma SplitXor(e: bv16, f: bv16, g: bv16)
    requires g == e ^ f
    ensures (g & 0xff) as bv8 == ((e & 0xff) as bv8) ^ ((f & 0xff) as bv8)
    ensures (g >> 8) as bv8 == ((e >> 8) as bv8) ^ ((f >> 8) as bv8)
  {}

  lemma HalvesXor(a: bv8, b: bv8, c: bv8)
    requires c == a ^ b
    ensures LowByte(c) == LowByte(a) ^ LowByte(b)
    ensures HighByte(c) == HighByte(a) ^ HighByte(b)
  {
    hide Entry;
    EntryXor(a, b, c);
    SplitXor(Entry(a), Entry(b), Entry(c));
  }

  lemma HighBytesDistinct(x: bv8, y: bv8)
    ensures HighByte(x) == HighByte(y) ==> x == y
  {
    hide Entry, HighByte, LowByte;
    HalvesXor(x, y, x ^ y);
    SmallEntries(x ^ y);
    XorZeroIff(HighByte(x), HighByte(y));
    XorZeroIff(x, y);
  }

  lemma SmallEntries(x: bv8)
    ensures HighByte(x) == 0 <==> x == 0
    ensures LowByte(0) == 0
  {
    hide Entry;
    EntryIsShifted(0);
    HighByteZeroIff(x);
  }

  lemma XkopDetects()
    ensures Detecting(XKOP)
  {
    hide LowByte, HighByte;
    forall a, b, c, d ensures SwapsAt(XKOP, a, b, c, d) { XorSwaps(a, b, c, d); }
    forall a, b, c ensures RegroupsAt(XKOP, a, b, c) { XorRegroups(a, b, c); }
    forall a: bv8, b: bv8, c: bv8
      ensures XKOP.xor(a, c) == XKOP.xor(b, c) ==> a == b
      ensures XKOP.xor(c, a) == XKOP.xor(c, b) ==> a == b
    {
      XorCancels(a, b, c);
    }
    forall a, b ensures LinearAt(XKOP, a, b) { HalvesXor(a, b, a ^ b); }
    forall x, y ensures XKOP.high(x) == XKOP.high(y) ==> x == y { HighBytesDistinct(x, y); }
  }

  lemma StepEqualIff<B(!new)>(o: Ops<B>, r: Register<B>, s: Register<B>, d: B, e: B)
    requires Detecting(o)
    ensures Step(o, r, d) == Step(o, s, e) <==> o.xor(r.crc1, d) == o.xor(s.crc1, e) && r.crc0 == s.crc0
  {}

  /** Reading the same bytes neither hides a difference between two registers nor creates one. */
  lemma {:induction false} RunInjective<B(!new)>(o: Ops<B>, r: Register<B>, s: Register<B>, tail: seq<B>)
    requires Detecting(o)
    ensures Run(o, r, tail) == Run(o, s, tail) <==> r == s
    decreases tail
  {
    if tail != [] {
      StepEqualIff(o, r, s, tail[0], tail[0]);
      RunInjective(o, Step(o, r, tail[0]), Step(o, s, tail[0]), tail[1..]);
    }
  }

  lemma StepDifference<B(!new)>(o: Ops<B>, r: Register<B>, a: B, a': B)
    requires Detecting(o)
    ensures o.xor(Step(o, r, a).crc1, Step(o, r, a').crc1) == o.low(o.xor(a, a'))
    ensures o.xor(Step(o, r, a).crc0, Step(o, r, a').crc0) == o.high(o.xor(a, a'))
  {
    var p, p' := o.xor(r.crc1, a), o.xor(r.crc1, a');
    assert LinearAt(o, p, p');
    assert RegroupsAt(o, r.crc1, a, a');
    assert RegroupsAt(o, r.crc0, o.low(p), o.low(p'));
  }

  lemma ThreeStepsEqualIff<B(!new)>(o: Ops<B>, r: Register<B>, a: B, b: B, c: B, a': B, b': B, c': B)
    requires Detecting(o)
    ensures Run(o, r, [a, b, c]) == Run(o, r, [a', b', c'])
       <==> o.xor(b, b') == o.low(o.xor(a, a')) && o.xor(c, c') == o.high(o.xor(a, a'))
  {
    var r1, s1 := Step(o, r, a), Step(o, r, a');
    var r2, s2 := Step(o, r1, b), Step(o, s1, b');
    RunThree(o, r, a, b, c);
    RunThree(o, r, a', b', c');
    StepDifference(o, r, a, a');
    StepEqualIff(o, r2, s2, c, c');
    var i, j := o.xor(r1.crc1, b), o.xor(s1.crc1, b');
    assert r2.crc0 == s2.crc0 <==> i == j;
    assert SwapsAt(o, r1.crc1, b, s1.crc1, b');
    assert SwapsAt(o, r2.crc1, c, s2.crc1, c');
    assert RegroupsAt(o, o.low(i), r1.crc0, s1.crc0);
  }

  lemma RunThree<B>(o: Ops<B>, r: Register<B>, a: B, b: B, c: B)
    ensures Run(o, r, [a, b, c]) == Step(o, Step(o, Step(o, r, a), b), c)
  {
    RunSnoc(o, r, [a, b], c);
    RunSnoc(o, r, [a], b);
    RunSnoc(o, r, [], a);
    assert [a, b, c] == [a, b] + [c] && [a, b] == [a] + [b] && [a] == [] + [a];
  }

  lemma BurstCollidesIff<B(!new)>(o: Ops<B>, r: Register<B>, head: seq<B>, a: B, b: B, c: B, a': B, b': B, c': B,
        tail: seq<B>)
    requires Detecting(o)
    ensures Run(o, r, head + [a, b, c] + tail) == Run(o, r, head + [a', b', c'] + tail)
       <==> o.xor(b, b') == o.low(o.xor(a, a')) && o.xor(c, c') == o.high(o.xor(a, a'))
  {
    var m, m' := head + [a, b, c], head + [a', b', c'];
    RunAppend(o, r, m, tail);
    RunAppend(o, r, m', tail);
    RunInjective(o, Run(o, r, m), Run(o, r, m'), tail);
    RunAppend(o, r, head, [a, b, c]);
    RunAppend(o, r, head, [a', b', c']);
    ThreeStepsEqualIff(o, Run(o, r, head), a, b, c, a', b', c');
  }

  /** Two messages of any length that differ at most in three adjacent bytes get the same check
      bytes if and only if, where the first bytes differ by x, the other two differ by the low and
      the high byte of the table entry of x: 255 patterns among more than sixteen million. */
  lemma BurstUndetectedIff(head: seq<bv8>, a: bv8, b: bv8, c: bv8, a': bv8, b': bv8, c': bv8, tail: seq<bv8>)
    ensures Code(head + [a, b, c] + tail) == Code(head + [a', b', c'] + tail)
       <==> b ^ b' == LowByte(a ^ a') && c ^ c' == HighByte(a ^ a')
  {
    XkopDetects();
    BurstCollidesIff(XKOP, Register(0, 0), head, a, b, c, a', b', c', tail);
    XkopPattern(a, b, c, a', b', c');
  }

  lemma XkopPattern(a: bv8, b: bv8, c: bv8, a': bv8, b': bv8, c': bv8)
    ensures XKOP.xor(b, b') == XKOP.low(XKOP.xor(a, a')) <==> b ^ b' == LowByte(a ^ a')
    ensures XKOP.xor(c, c') == XKOP.high(XKOP.xor(a, a')) <==> c ^ c' == HighByte(a ^ a')
  {}

  /** A change confined to two adjacent bytes, so also any change of one byte, changes the check bytes. */
  lemma TwoByteChangeDetected(head: seq<bv8>, a: bv8, b: bv8, a': bv8, b': bv8, tail: seq<bv8>)
    ensures Code(head + [a, b] + tail) == Code(head + [a', b'] + tail) <==> a == a' && b == b'
  {
    XkopDetects();
    var z := Register(0, 0);
    var m, m' := head + [a, b], head + [a', b'];
    RunAppend(XKOP, z, m, tail);
    RunAppend(XKOP, z, m', tail);
    RunInjective(XKOP, Code(m), Code(m'), tail);
    // Appending one equal byte changes nothing, and makes the three-byte theorem apply.
    RunAppend(XKOP, z, m, [0]);
    RunAppend(XKOP, z, m', [0]);
    RunInjective(XKOP, Code(m), Code(m'), [0]);
    assert m + [0] == head + [a, b, 0] + [] && m' + [0] == head + [a', b', 0] + [];
    BurstUndetectedIff(head, a, b, 0, a', b', 0, []);
    SmallEntries(a ^ a');
    XorZeroIff(a, a');
    XorZeroIff(b, b');
  }
}
