/**
  The hand-written BER encoder of the RBE sender, against a decoder that follows ITU-T X.690
  (sections 8.1.3, 8.3 and 8.19) and the message layout of RFC 1901 section 3 and RFC 3416 section 3.
  MessageRoundTripIff says exactly which packets a manager can read back, BuildInformPacket that the sender's
  packets are such messages.
 */
module Ber {
  import opened Bytes

  const INTEGER: byte := 0x02
  const OCTETS: byte := 0x04
  const NULL: byte := 0x05
  const OID: byte := 0x06
  const SEQUENCE: byte := 0x30
  const TICKS: byte := 0x43
  const RESPONSE: byte := 0xa2
  const INFORM: byte := 0xa6

  type Oid = seq<nat>
  datatype Value =
    | IntValue(n: int)
    | OctetValue(octets: seq<byte>)
    | OidValue(oid: Oid)
    | NullValue
    | TickValue(ticks: seq<byte>)
  datatype VarBind = VarBind(name: Oid, value: Value)
  datatype Message = Message(version: int, community: seq<byte>, pduType: byte, requestId: int,
                             errorStatus: int, errorIndex: int, varbinds: seq<VarBind>)

  // ---- Lengths --------------------------------------------------------------------------

  /** The value of a big-endian number. */
  function Number(digits: seq<byte>): nat {
    if digits == [] then 0 else Number(digits[..|digits| - 1]) * 256 + digits[|digits| - 1]
  }

  function EncodeLength(n: nat): (r: seq<byte>) {
    if n < 0x80 then [n]
    else if n < 0x100 then [0x81, n]
    else [0x82, n / 256 % 256, n % 256]
  }

  /** The length field at pos: the position after it, and the length; None where indexing would fail. */
  function LengthAt(data: seq<byte>, pos: nat): Option<(nat, nat)> {
    if pos >= |data| then None
    else if data[pos] < 0x80 then Some((pos + 1, data[pos]))
    else
      var n := data[pos] % 0x80;
      if pos + 1 + n > |data| then None else Some((pos + 1 + n, Number(data[pos + 1..pos + 1 + n])))
  }

  method DecodeLength(data: seq<byte>, pos: nat) returns (r: Option<(nat, nat)>)
    ensures r == LengthAt(data, pos)
  {
    if pos >= |data| { return None; }
    var first := data[pos];
    if first < 0x80 { return Some((pos + 1, first)); }
    var n := first % 0x80;
    var length: nat := 0;
    for i := 0 to n
      invariant pos + 1 + i <= |data|
      invariant length == Number(data[pos + 1..pos + 1 + i])
    {
      if pos + 1 + i >= |data| { return None; }
      assert data[pos + 1..pos + 2 + i][..i] == data[pos + 1..pos + 1 + i];
      length := length * 256 + data[pos + 1 + i];
    }
    return Some((pos + 1 + n, length));
  }

  function Tlv(tag: byte, content: seq<byte>): (r: seq<byte>)
    ensures |content| < |r|
  {
    [tag] + EncodeLength(|content|) + content
  }

  datatype Field = Field(tag: byte, content: seq<byte>, rest: seq<byte>)

  /** Reads one definite-length field. */
  function ReadField(s: seq<byte>): (r: Option<Field>)
    ensures r.Some? ==> |r.value.rest| < |s| && |r.value.content| < |s|
  {
    if |s| < 2 || s[1] == 0x80 then None
    else
      var (pos, n) :- LengthAt(s, 1);
      if pos + n > |s| then None else Some(Field(s[0], s[pos..pos + n], s[pos + n..]))
  }

  lemma NumberOfTwo(a: byte, b: byte)
    ensures Number([a, b]) == a * 256 + b
    ensures Number([a]) == a
  {
    assert [a][..0] == [] && Number([]) == 0;
    assert [a, b][..1] == [a];
  }

  lemma LengthOfTlv(tag: byte, content: seq<byte>, rest: seq<byte>)
    ensures var s := Tlv(tag, content) + rest;
            && |s| >= 2 && s[1] != 0x80
            && LengthAt(s, 1)
                 == Some((1 + |EncodeLength(|content|)|, if |content| < 0x80 then |content| else |content| % 65536))
  {
    hide LengthAt;
    var n := |content|;
    var s := Tlv(tag, content) + rest;
    assert s == [tag] + EncodeLength(n) + (content + rest);
    assert s[1..1 + |EncodeLength(n)|] == EncodeLength(n);
    if n >= 0x100 {
      LongLength(s, n);
    } else if n >= 0x80 {
      MediumLength(s, n);
    } else {
      ShortLength(s, n);
    }
  }

  lemma ShortLength(s: seq<byte>, n: nat)
    requires n < 0x80 && |s| >= 2 && s[1..2] == [n]
    ensures s[1] == n && LengthAt(s, 1) == Some((2, n))
  {
    assert s[1] == s[1..2][0];
  }

  lemma MediumLength(s: seq<byte>, n: nat)
    requires n < 0x100 && |s| >= 3 && s[1..3] == [0x81, n]
    ensures s[1] == 0x81 && LengthAt(s, 1) == Some((3, n))
  {
    assert s[1] == s[1..3][0];
    assert s[2..3] == s[1..3][1..] == [n];
    NumberOfTwo(n, 0);
    hide Number;
    assert LengthAt(s, 1) == Some((3, Number(s[2..3])));
  }

  lemma LongLength(s: seq<byte>, n: nat)
    requires |s| >= 4 && s[1..4] == [0x82, n / 256 % 256, n % 256]
    ensures s[1] == 0x82 && LengthAt(s, 1) == Some((4, n % 65536))
  {
    assert s[1] == s[1..4][0];
    assert s[2..4] == s[1..4][1..] == [n / 256 % 256, n % 256];
    NumberOfTwo(n / 256 % 256, n % 256);
    WordParts(n);
    hide Number;
    assert LengthAt(s, 1) == Some((4, Number(s[2..4])));
  }

  lemma WordParts(n: nat)
    ensures n / 256 % 256 * 256 + n % 256 == n % 65536
  {}

  /** A field reads back exactly when its content is shorter than 65536 bytes. */
  lemma FieldRoundTripIff(tag: byte, content: seq<byte>, rest: seq<byte>)
    ensures ReadField(Tlv(tag, content) + rest) == Some(Field(tag, content, rest)) <==> |content| < 65536
    ensures |content| >= 65536 ==> (var f := ReadField(Tlv(tag, content) + rest); f.Some? && f.value.rest != [])
  {
    LengthOfTlv(tag, content, rest);
    var s := Tlv(tag, content) + rest;
    Slices([tag] + EncodeLength(|content|), content, rest);
    assert s == [tag] + EncodeLength(|content|) + content + rest;
  }

  lemma Slices(head: seq<byte>, content: seq<byte>, rest: seq<byte>)
    ensures var s, pos := head + content + rest, |head|;
            s[pos..] == content + rest && s[pos..pos + |content|] == content && s[pos + |content|..] == rest
  {}

  // ---- Integers -------------------------------------------------------------------------

  function Digits(v: nat): (r: seq<byte>)
    ensures r != []
    ensures v > 0 ==> r[0] > 0
  {
    if v < 256 then [v] else Digits(v / 256) + [v % 256]
  }

  function IntBody(v: nat): seq<byte> {
    var d := Digits(v);
    if d[0] >= 0x80 then [0] + d else d
  }

  /** The first nine bits of an integer of several octets are not all 0, so that no shorter form exists; and the first
      is, so that it is not negative. */
  lemma IntIsShortest(v: nat)
    ensures var body := IntBody(v); body[0] < 0x80 && (|body| > 1 && body[0] == 0 ==> body[1] >= 0x80)
  {}

  function Reverse(s: seq<byte>): (r: seq<byte>)
    ensures |r| == |s|
  {
    if s == [] then [] else Reverse(s[1..]) + [s[0]]
  }

  lemma {:induction false} ReverseSnoc(s: seq<byte>, b: byte)
    ensures Reverse(s + [b]) == [b] + Reverse(s)
  {
    if s == [] {
      assert [] + [b] == [b];
    } else {
      assert (s + [b])[1..] == s[1..] + [b];
      ReverseSnoc(s[1..], b);
    }
  }

  /** What is left of v after k rounds of the encoding loop. */
  function Shifted(v: int, k: nat): int {
    if k == 0 then v else Shifted(v, k - 1) / 256
  }

  lemma {:induction false} NegativeStays(v: int, k: nat)
    requires v < 0
    ensures Shifted(v, k) < 0
  {
    if k > 0 {
      NegativeStays(v, k - 1);
    }
  }

  lemma {:induction false} ShiftedInside(v: int, k: nat)
    ensures Shifted(v / 256, k) == Shifted(v, k + 1)
  {
    if k > 0 {
      ShiftedInside(v, k - 1);
    }
  }

  lemma {:induction false} Rounds(v: nat) returns (k: nat)
    ensures Shifted(v, k) == 0
  {
    k := 0;
    if v > 0 {
      var rest := Rounds(v / 256);
      ShiftedInside(v, rest);
      k := rest + 1;
    }
  }

  /** The encoding loop ends exactly for the integers that are not negative. */
  lemma EncodeLoopEndsIff(v: int)
    ensures (exists k: nat :: Shifted(v, k) == 0) <==> v >= 0
  {
    if v >= 0 {
      var k := Rounds(v);
    } else {
      forall k: nat ensures Shifted(v, k) != 0 {
        NegativeStays(v, k);
      }
    }
  }

  /** The content octets and header of an integer, where the loop ends: by EncodeLoopEndsIff, for those not negative. */
  method EncodeInt(v: int) returns (r: seq<byte>)
    requires v >= 0
    ensures r == Tlv(INTEGER, IntBody(v))
  {
    if v == 0 { return [0x02, 0x01, 0x00]; }
    var n: nat, parts: seq<byte> := v, [];
    while n != 0
      invariant n >= 0 && (n == 0 ==> parts != [] && Reverse(parts) == Digits(v))
      invariant n > 0 ==> Digits(n) + Reverse(parts) == Digits(v)
      decreases n
    {
      ReverseSnoc(parts, n % 256);
      parts := parts + [n % 256];
      n := n / 256;
    }
    assert parts[|parts| - 1] == Reverse(parts)[0] by {
      ReverseSnoc(parts[..|parts| - 1], parts[|parts| - 1]);
      assert parts == parts[..|parts| - 1] + [parts[|parts| - 1]];
    }
    if parts[|parts| - 1] >= 0x80 {
      ReverseSnoc(parts, 0);
      parts := parts + [0];
    }
    r := [0x02] + EncodeLength(|parts|) + Reverse(parts);
  }

  /** A two's complement integer. */
  function ReadInt(content: seq<byte>): Option<int> {
    if content == [] then None
    else if content[0] < 0x80 then Some(Number(content))
    else Some(Number(content) - Power256(|content|))
  }

  function Power256(n: nat): nat { if n == 0 then 1 else 256 * Power256(n - 1) }

  lemma {:induction false} NumberOfDigits(v: nat)
    ensures Number(Digits(v)) == v
  {
    if v < 256 {
      NumberOfTwo(v, 0);
    } else {
      NumberOfDigits(v / 256);
      assert Digits(v)[..|Digits(v)| - 1] == Digits(v / 256);
    }
  }

  lemma {:induction false} LeadingZero(digits: seq<byte>)
    ensures Number([0] + digits) == Number(digits)
  {
    if digits == [] {
      assert [0] + digits == [0];
      NumberOfTwo(0, 0);
    } else {
      assert ([0] + digits)[..|digits|] == [0] + digits[..|digits| - 1];
      LeadingZero(digits[..|digits| - 1]);
    }
  }

  lemma IntRoundTrip(v: nat)
    ensures ReadInt(IntBody(v)) == Some(v)
  {
    NumberOfDigits(v);
    LeadingZero(Digits(v));
  }

  // ---- Object identifiers ----------------------------------------------------------------

  function Continued(v: nat): (r: seq<byte>)
    ensures r != []
    ensures v > 0 ==> r[0] > 0x80
  {
    if v < 0x80 then [0x80 + v] else Continued(v / 0x80) + [0x80 + v % 0x80]
  }

  /** A component in base 128, all octets but the last with the high bit set. */
  function Base128(v: nat): (r: seq<byte>)
    ensures r != [] && r[0] != 0x80
  {
    if v < 0x80 then [v] else Continued(v / 0x80) + [v % 0x80]
  }

  function Components(oid: Oid): seq<byte> {
    if oid == [] then [] else Base128(oid[0]) + Components(oid[1..])
  }

  predicate Encodable(oid: Oid) {
    |oid| >= 2 && 40 * oid[0] + oid[1] < 256
  }

  function OidBody(oid: Oid): seq<byte>
    requires Encodable(oid)
  {
    [40 * oid[0] + oid[1]] + Components(oid[2..])
  }

  /** Reads one component whose leading octets gave acc. */
  function ReadComponent(acc: nat, s: seq<byte>): (r: Option<(nat, seq<byte>)>)
    ensures r.Some? ==> |r.value.1| < |s|
    decreases |s|
  {
    if s == [] then None
    else if s[0] < 0x80 then Some((acc * 0x80 + s[0], s[1..]))
    else ReadComponent(acc * 0x80 + (s[0] - 0x80), s[1..])
  }

  function ReadComponents(s: seq<byte>): Option<seq<nat>>
    decreases |s|
  {
    if s == [] then Some([])
    else if s[0] == 0x80 then None
    else
      var (v, rest) :- ReadComponent(0, s);
      var more :- ReadComponents(rest);
      Some([v] + more)
  }

  /** The first component of the encoding stands for the first two of the identifier. */
  function ReadOid(content: seq<byte>): Option<Oid> {
    var c :- ReadComponents(content);
    if c == [] then None
    else if c[0] < 40 then Some([0, c[0]] + c[1..])
    else if c[0] < 80 then Some([1, c[0] - 40] + c[1..])
    else Some([2, c[0] - 80] + c[1..])
  }

  lemma {:induction false} ReadContinued(v: nat, s: seq<byte>)
    ensures ReadComponent(0, Continued(v) + s) == ReadComponent(v, s)
  {
    var last := [0x80 + v % 0x80];
    if v < 0x80 {
      assert ([0x80 + v] + s)[1..] == s;
    } else {
      assert Continued(v) + s == Continued(v / 0x80) + (last + s);
      ReadContinued(v / 0x80, last + s);
      assert (last + s)[1..] == s;
    }
  }

  lemma ReadBase128(v: nat, s: seq<byte>)
    ensures ReadComponent(0, Base128(v) + s) == Some((v, s))
  {
    if v < 0x80 {
      assert ([v] + s)[1..] == s;
    } else {
      var last := [v % 0x80];
      assert Base128(v) + s == Continued(v / 0x80) + (last + s);
      ReadContinued(v / 0x80, last + s);
      assert (last + s)[1..] == s;
    }
  }

  lemma {:induction false} ComponentsRoundTrip(oid: Oid)
    ensures ReadComponents(Components(oid)) == Some(oid)
  {
    if oid != [] {
      ReadBase128(oid[0], Components(oid[1..]));
      assert Components(oid)[0] == Base128(oid[0])[0];
      assert [oid[0]] + oid[1..] == oid;
      ComponentsRoundTrip(oid[1..]);
    }
  }

  /** The identifiers whose first two components X.690 section 8.19.4 allows, and which then fit one octet. */
  predicate Standard(oid: Oid) {
    |oid| >= 2 && ((oid[0] <= 1 && oid[1] < 40) || (oid[0] == 2 && oid[1] < 48))
  }

  /** The number of components that a decoder sees: one for every octet without the high bit. */
  function Ends(s: seq<byte>): nat {
    if s == [] then 0 else (if s[0] < 0x80 then 1 else 0) + Ends(s[1..])
  }

  lemma {:induction false} EndsAppend(a: seq<byte>, b: seq<byte>)
    ensures Ends(a + b) == Ends(a) + Ends(b)
  {
    if a == [] {
      assert a + b == b;
    } else {
      assert (a + b)[1..] == a[1..] + b;
      EndsAppend(a[1..], b);
    }
  }

  lemma {:induction false} EndsOfContinued(v: nat)
    ensures Ends(Continued(v)) == 0
  {
    if v >= 0x80 {
      EndsOfContinued(v / 0x80);
      EndsAppend(Continued(v / 0x80), [0x80 + v % 0x80]);
    }
  }

  lemma {:induction false} EndsOfComponents(oid: Oid)
    ensures Ends(Components(oid)) == |oid|
  {
    if oid != [] {
      EndsOfComponents(oid[1..]);
      EndsAppend(Base128(oid[0]), Components(oid[1..]));
      if oid[0] >= 0x80 {
        EndsOfContinued(oid[0] / 0x80);
        EndsAppend(Continued(oid[0] / 0x80), [oid[0] % 0x80]);
      }
    }
  }

  lemma {:induction false} ReadComponentEnds(acc: nat, s: seq<byte>)
    ensures var r := ReadComponent(acc, s); r.Some? ==> Ends(s) == 1 + Ends(r.value.1)
    decreases |s|
  {
    if s != [] && s[0] >= 0x80 {
      ReadComponentEnds(acc * 0x80 + (s[0] - 0x80), s[1..]);
    }
  }

  lemma {:induction false} ReadComponentsEnds(s: seq<byte>)
    ensures ReadComponents(s).Some? ==> |ReadComponents(s).value| == Ends(s)
    decreases |s|
  {
    if s != [] && s[0] != 0x80 {
      var r := ReadComponent(0, s);
      if r.Some? {
        ReadComponentEnds(0, s);
        ReadComponentsEnds(r.value.1);
      }
    }
  }

  lemma FirstOctet(first: byte, rest: seq<nat>)
    ensures first < 0x80 ==> Components([first] + rest) == [first] + Components(rest)
    ensures first >= 0x80 ==> Ends([first] + Components(rest)) == Ends(Components(rest))
  {
    assert ([first] + rest)[1..] == rest;
    assert ([first] + Components(rest))[1..] == Components(rest);
  }

  /** An identifier reads back exactly when it is a standard one.  The encoder also accepts others, for which
      its first octet denotes different components or runs into the next one. */
  lemma OidRoundTripIff(oid: Oid)
    requires Encodable(oid)
    ensures ReadOid(OidBody(oid)) == Some(oid) <==> Standard(oid)
  {
    hide Components, Ends, ReadComponents;
    var first := 40 * oid[0] + oid[1];
    var body := OidBody(oid);
    FirstOctet(first, oid[2..]);
    if first < 0x80 {
      ComponentsRoundTrip([first] + oid[2..]);
      assert ([first] + oid[2..])[1..] == oid[2..];
      assert body == Components([first] + oid[2..]);
      if Standard(oid) {
        assert oid == [oid[0], oid[1]] + oid[2..];
      }
    } else {
      EndsOfComponents(oid[2..]);
      ReadComponentsEnds(body);
      assert body[1..] == Components(oid[2..]);
      assert Ends(body) == |oid| - 2;
    }
  }

  /** The loops over the components and over the groups of seven bits of each. */
  method EncodeOid(oid: Oid) returns (r: Option<seq<byte>>)
    ensures r == if Encodable(oid) then Some(Tlv(OID, OidBody(oid))) else None
  {
    if |oid| < 2 || 40 * oid[0] + oid[1] >= 256 { return None; }
    var body: seq<byte> := [40 * oid[0] + oid[1]];
    for i := 2 to |oid|
      invariant body + Components(oid[i..]) == OidBody(oid)
    {
      var group := EncodeComponent(oid[i]);
      assert oid[i..][0] == oid[i] && oid[i..][1..] == oid[i + 1..];
      body := body + group;
    }
    assert oid[|oid|..] == [] && body + [] == body;
    return Some([0x06] + EncodeLength(|body|) + body);
  }

  method EncodeComponent(component: nat) returns (group: seq<byte>)
    ensures group == Base128(component)
  {
    hide Groups, Base128;
    if component == 0 {
      ZeroBase128();
      return [0x00];
    }
    var parts := SplitSevens(component);
    group := [];
    for i := 0 to |parts|
      invariant |group| == i
      invariant forall j :: 0 <= j < i
                  ==> group[j] as int == if j < |parts| - 1 then parts[j] as int + 0x80 else parts[j]
    {
      group := group + [if i < |parts| - 1 then parts[i] + 0x80 else parts[i]];
    }
    FlaggedGroups(component, group);
  }

  lemma ZeroBase128()
    ensures Base128(0) == [0x00]
  {}

  /** The loop that splits a number into groups of seven bits, and their reversal. */
  method SplitSevens(component: nat) returns (parts: seq<byte>)
    ensures parts == Groups(component)
  {
    hide Reverse;
    var v: nat := component;
    parts := [];
    NothingReversed();
    while v != 0
      invariant v >= 0
      invariant Groups(v) + Reverse(parts) == Groups(component)
      decreases v
    {
      ReverseSnoc(parts, v % 0x80);
      assert Groups(v) + Reverse(parts) == Groups(v / 0x80) + ([v % 0x80] + Reverse(parts));
      parts := parts + [v % 0x80];
      v := v / 0x80;
    }
    parts := Reverse(parts);
  }

  lemma NothingReversed()
    ensures Reverse([]) == []
  {}

  /** The groups of seven bits of a number, none for zero. */
  function Groups(v: nat): (r: seq<byte>)
    ensures forall j :: 0 <= j < |r| ==> r[j] < 0x80
  {
    if v == 0 then [] else Groups(v / 0x80) + [v % 0x80]
  }

  lemma {:induction false} ContinuedIsFlagged(v: nat)
    requires v > 0
    ensures |Continued(v)| == |Groups(v)|
    ensures forall j :: 0 <= j < |Groups(v)| ==> Continued(v)[j] as int == Groups(v)[j] as int + 0x80
  {
    if v >= 0x80 {
      ContinuedIsFlagged(v / 0x80);
    } else {
      assert Groups(v / 0x80) == [];
    }
  }

  lemma FlaggedGroups(v: nat, group: seq<byte>)
    requires v > 0 && |group| == |Groups(v)|
    requires forall j :: 0 <= j < |group|
               ==> group[j] as int == if j < |group| - 1 then Groups(v)[j] as int + 0x80 else Groups(v)[j]
    ensures group == Base128(v)
  {
    if v >= 0x80 {
      ContinuedIsFlagged(v / 0x80);
    } else {
      assert Groups(v / 0x80) == [];
    }
  }

  // ---- Messages --------------------------------------------------------------------------

  predicate GoodValue(v: Value) {
    match v
    case IntValue(n) => n >= 0
    case OidValue(oid) => Standard(oid)
    case _ => true
  }

  predicate GoodVarBind(vb: VarBind) {
    Standard(vb.name) && GoodValue(vb.value)
  }

  function EncodeValue(v: Value): seq<byte>
    requires GoodValue(v)
  {
    match v
    case IntValue(n) => Tlv(INTEGER, IntBody(n))
    case OctetValue(octets) => Tlv(OCTETS, octets)
    case OidValue(oid) => Tlv(OID, OidBody(oid))
    case NullValue => Tlv(NULL, [])
    case TickValue(ticks) => Tlv(TICKS, ticks)
  }

  function EncodeVarBind(vb: VarBind): seq<byte>
    requires GoodVarBind(vb)
  {
    Tlv(SEQUENCE, Tlv(OID, OidBody(vb.name)) + EncodeValue(vb.value))
  }

  function EncodeVarBinds(vbs: seq<VarBind>): seq<byte>
    requires forall vb :: vb in vbs ==> GoodVarBind(vb)
  {
    if vbs == [] then [] else EncodeVarBind(vbs[0]) + EncodeVarBinds(vbs[1..])
  }

  predicate GoodMessage(m: Message) {
    && m.version >= 0 && m.requestId >= 0 && m.errorStatus >= 0 && m.errorIndex >= 0
    && (m.pduType == INFORM || m.pduType == RESPONSE)
    && forall vb :: vb in m.varbinds ==> GoodVarBind(vb)
  }

  function EncodePdu(m: Message): seq<byte>
    requires GoodMessage(m)
  {
    Tlv(INTEGER, IntBody(m.requestId)) + (Tlv(INTEGER, IntBody(m.errorStatus)) + (Tlv(INTEGER, IntBody(m.errorIndex))
      + Tlv(SEQUENCE, EncodeVarBinds(m.varbinds))))
  }

  function EncodeBody(m: Message): seq<byte>
    requires GoodMessage(m)
  {
    Tlv(INTEGER, IntBody(m.version)) + (Tlv(OCTETS, m.community) + Tlv(m.pduType, EncodePdu(m)))
  }

  function EncodeMessage(m: Message): seq<byte>
    requires GoodMessage(m)
  {
    Tlv(SEQUENCE, EncodeBody(m))
  }

  /** The tags of the encoding rules, and the short form of a length. */
  lemma Tags(vb: VarBind, m: Message, n: nat, octets: seq<byte>, oid: Oid, ticks: seq<byte>)
    requires GoodVarBind(vb) && GoodMessage(m) && Standard(oid)
    ensures EncodeVarBind(vb)[0] == 0x30 && EncodeMessage(m)[0] == 0x30
    ensures EncodeValue(IntValue(n))[0] == 0x02
    ensures |octets| < 128 ==> EncodeValue(OctetValue(octets)) == [0x04, |octets|] + octets
    ensures EncodeValue(OidValue(oid))[0] == 0x06
    ensures EncodeValue(NullValue) == [0x05, 0x00]
    ensures |ticks| < 128 ==> EncodeValue(TickValue(ticks)) == [0x43, |ticks|] + ticks
  {
    hide Tlv, IntBody, OidBody, EncodeValue;
    Tagged(SEQUENCE, Tlv(OID, OidBody(vb.name)) + EncodeValue(vb.value));
    Tagged(SEQUENCE, EncodeBody(m));
    ValueTags(n, octets, oid, ticks);
  }

  lemma ValueTags(n: nat, octets: seq<byte>, oid: Oid, ticks: seq<byte>)
    requires Standard(oid)
    ensures EncodeValue(IntValue(n))[0] == 0x02
    ensures |octets| < 128 ==> EncodeValue(OctetValue(octets)) == [0x04, |octets|] + octets
    ensures EncodeValue(OidValue(oid))[0] == 0x06
    ensures EncodeValue(NullValue) == [0x05, 0x00]
    ensures |ticks| < 128 ==> EncodeValue(TickValue(ticks)) == [0x43, |ticks|] + ticks
  {
    hide Tlv, IntBody, OidBody;
    Tagged(INTEGER, IntBody(n));
    Tagged(OCTETS, octets);
    Tagged(OID, OidBody(oid));
    Tagged(TICKS, ticks);
    NullBytes();
  }

  lemma Tagged(tag: byte, content: seq<byte>)
    ensures Tlv(tag, content)[0] == tag
    ensures |content| < 128 ==> Tlv(tag, content) == [tag, |content|] + content
  {}

  /** The octets of some integers, identifiers and lengths, as the encoding rules have them. */
  lemma SampleOctets()
    ensures IntBody(0) == [0] && IntBody(127) == [0x7f] && IntBody(128) == [0, 0x80] && IntBody(300) == [1, 44]
    ensures EncodeLength(127) == [0x7f] && EncodeLength(200) == [0x81, 200] && EncodeLength(300) == [0x82, 1, 44]
    ensures OidBody([1, 3, 6, 13267]) == [0x2b, 6, 0xe7, 0x53]
  {
    assert Digits(300) == [1, 44];
    assert Base128(6) == [6] && Base128(13267) == [0xe7, 0x53];
    var oid: Oid := [1, 3, 6, 13267];
    assert oid[2..] == [6, 13267] && [6, 13267][1..] == [13267];
    assert Components([13267]) == [0xe7, 0x53] + [];
  }

  // ---- Reading messages -------------------------------------------------------------------

  function ReadTagged(s: seq<byte>, tag: byte): (r: Option<Field>)
    ensures r.Some? ==> |r.value.rest| < |s| && |r.value.content| < |s|
  {
    var f :- ReadField(s);
    if f.tag == tag then Some(f) else None
  }

  function ReadValue(f: Field): Option<Value> {
    if f.tag == INTEGER then var n :- ReadInt(f.content); Some(IntValue(n))
    else if f.tag == OCTETS then Some(OctetValue(f.content))
    else if f.tag == OID then var oid :- ReadOid(f.content); Some(OidValue(oid))
    else if f.tag == NULL && f.content == [] then Some(NullValue)
    else if f.tag == TICKS then Some(TickValue(f.content))
    else None
  }

  function ReadVarBind(s: seq<byte>): Option<VarBind> {
    var name :- ReadTagged(s, OID);
    var oid :- ReadOid(name.content);
    var f :- ReadField(name.rest);
    var value :- ReadValue(f);
    if f.rest != [] then None else Some(VarBind(oid, value))
  }

  function ReadVarBinds(s: seq<byte>): Option<seq<VarBind>>
    decreases |s|
  {
    if s == [] then Some([])
    else
      var f :- ReadTagged(s, SEQUENCE);
      var vb :- ReadVarBind(f.content);
      var more :- ReadVarBinds(f.rest);
      Some([vb] + more)
  }

  function ReadMessage(s: seq<byte>): Option<Message> {
    var whole :- ReadTagged(s, SEQUENCE);
    var version :- ReadTagged(whole.content, INTEGER);
    var community :- ReadTagged(version.rest, OCTETS);
    var pdu :- ReadField(community.rest);
    var id :- ReadTagged(pdu.content, INTEGER);
    var status :- ReadTagged(id.rest, INTEGER);
    var index :- ReadTagged(status.rest, INTEGER);
    var list :- ReadTagged(index.rest, SEQUENCE);
    var v :- ReadInt(version.content);
    var i :- ReadInt(id.content);
    var es :- ReadInt(status.content);
    var ei :- ReadInt(index.content);
    var vbs :- ReadVarBinds(list.content);
    if whole.rest != [] || pdu.rest != [] || list.rest != [] then None
    else Some(Message(v, community.content, pdu.tag, i, es, ei, vbs))
  }

  lemma ValueRoundTrip(v: Value, rest: seq<byte>)
    requires GoodValue(v) && |EncodeValue(v)| < 65536
    ensures var f := ReadField(EncodeValue(v) + rest);
            f.Some? && f.value.rest == rest && ReadValue(f.value) == Some(v)
  {
    hide Tlv, ReadField, IntBody, OidBody, ReadInt, ReadOid;
    match v
    case IntValue(n) =>
      FieldRoundTripIff(INTEGER, IntBody(n), rest);
      IntRoundTrip(n);
    case OctetValue(octets) => FieldRoundTripIff(OCTETS, octets, rest);
    case OidValue(oid) =>
      FieldRoundTripIff(OID, OidBody(oid), rest);
      OidRoundTripIff(oid);
    case NullValue => FieldRoundTripIff(NULL, [], rest);
    case TickValue(ticks) => FieldRoundTripIff(TICKS, ticks, rest);
  }

  lemma VarBindRoundTrip(vb: VarBind)
    requires GoodVarBind(vb) && |EncodeVarBind(vb)| < 65536
    ensures ReadVarBind(Tlv(OID, OidBody(vb.name)) + EncodeValue(vb.value)) == Some(vb)
  {
    hide Tlv, ReadField, OidBody, ReadOid, EncodeValue, ReadValue;
    FieldRoundTripIff(OID, OidBody(vb.name), EncodeValue(vb.value));
    OidRoundTripIff(vb.name);
    ValueRoundTrip(vb.value, []);
    assert EncodeValue(vb.value) + [] == EncodeValue(vb.value);
  }

  lemma {:induction false} VarBindsRoundTrip(vbs: seq<VarBind>)
    requires (forall vb :: vb in vbs ==> GoodVarBind(vb)) && |EncodeVarBinds(vbs)| < 65536
    ensures ReadVarBinds(EncodeVarBinds(vbs)) == Some(vbs)
  {
    hide Tlv, ReadField, ReadVarBind, OidBody, EncodeValue;
    if vbs != [] {
      var vb := vbs[0];
      VarBindRoundTrip(vb);
      FieldRoundTripIff(SEQUENCE, Tlv(OID, OidBody(vb.name)) + EncodeValue(vb.value), EncodeVarBinds(vbs[1..]));
      VarBindsRoundTrip(vbs[1..]);
      assert [vb] + vbs[1..] == vbs;
    }
  }

  lemma BodyRoundTrip(m: Message)
    requires GoodMessage(m) && |EncodeBody(m)| < 65536
    ensures ReadMessage(EncodeMessage(m)) == Some(m)
  {
    hide Tlv, ReadField, IntBody, ReadInt, EncodeVarBinds, ReadVarBinds;
    var list := Tlv(SEQUENCE, EncodeVarBinds(m.varbinds));
    var index := Tlv(INTEGER, IntBody(m.errorIndex));
    var status := Tlv(INTEGER, IntBody(m.errorStatus));
    var pdu := Tlv(m.pduType, EncodePdu(m));
    FieldRoundTripIff(SEQUENCE, EncodeBody(m), []);
    FieldRoundTripIff(INTEGER, IntBody(m.version), Tlv(OCTETS, m.community) + pdu);
    FieldRoundTripIff(OCTETS, m.community, pdu);
    FieldRoundTripIff(m.pduType, EncodePdu(m), []);
    FieldRoundTripIff(INTEGER, IntBody(m.requestId), status + (index + list));
    FieldRoundTripIff(INTEGER, IntBody(m.errorStatus), index + list);
    FieldRoundTripIff(INTEGER, IntBody(m.errorIndex), list);
    FieldRoundTripIff(SEQUENCE, EncodeVarBinds(m.varbinds), []);
    assert EncodeMessage(m) + [] == EncodeMessage(m) && pdu + [] == pdu && list + [] == list;
    IntRoundTrip(m.version);
    IntRoundTrip(m.requestId);
    IntRoundTrip(m.errorStatus);
    IntRoundTrip(m.errorIndex);
    VarBindsRoundTrip(m.varbinds);
  }

  lemma TlvSize(tag: byte, content: seq<byte>)
    ensures |Tlv(tag, content)| <= 65539 <==> |content| < 65536
  {}

  lemma TooLong(s: seq<byte>)
    requires ReadField(s).Some? && ReadField(s).value.rest != []
    ensures ReadMessage(s) == None
  {
    hide ReadField, ReadInt, ReadVarBinds;
  }

  /** A message can be read back, and then is read back exactly, if and only if its packet has at most
      65539 bytes: beyond that the outermost length field is truncated. */
  lemma MessageRoundTripIff(m: Message)
    requires GoodMessage(m)
    ensures ReadMessage(EncodeMessage(m)) == Some(m) <==> |EncodeMessage(m)| <= 65539
    ensures |EncodeMessage(m)| > 65539 ==> ReadMessage(EncodeMessage(m)) == None
  {
    hide EncodeBody, Tlv, ReadField, ReadMessage;
    TlvSize(SEQUENCE, EncodeBody(m));
    if |EncodeBody(m)| < 65536 {
      BodyRoundTrip(m);
    } else {
      FieldRoundTripIff(SEQUENCE, EncodeBody(m), []);
      assert EncodeMessage(m) + [] == EncodeMessage(m);
      TooLong(EncodeMessage(m));
    }
  }

  // ---- The INFORM packet ------------------------------------------------------------------

  const UPTIME_OID: Oid := [1, 3, 6, 1, 2, 1, 1, 3, 0]
  const TRAP_OID: Oid := [1, 3, 6, 1, 6, 3, 1, 1, 4, 1, 0]
  const NOTIFY_OID: Oid := [1, 3, 6, 1, 4, 1, 13267, 3, 2, 6, 0, 1]

  /** The INFORM a manager should see: the uptime and the notification, then the given varbinds. */
  function Inform(community: seq<byte>, requestId: int, ticks: seq<byte>, varbinds: seq<VarBind>): Message {
    Message(1, community, INFORM, requestId, 0, 0,
            [VarBind(UPTIME_OID, TickValue(ticks)), VarBind(TRAP_OID, OidValue(NOTIFY_OID))] + varbinds)
  }

  /** What a manager reads from the packet: an SNMPv2c InformRequest of that id without an error, with the uptime
      (sysUpTime.0), the notification (snmpTrapOID.0) and then the given varbinds. */
  ghost predicate ReadsAs(packet: seq<byte>, community: seq<byte>, requestId: int, ticks: seq<byte>,
        varbinds: seq<VarBind>) {
    var read := ReadMessage(packet);
    && read.Some?
    && read.value.version == 1 && read.value.community == community
    && read.value.pduType == 0xa6 && read.value.requestId == requestId
    && read.value.errorStatus == 0 && read.value.errorIndex == 0
    && |read.value.varbinds| >= 2
    && read.value.varbinds[0].name == [1, 3, 6, 1, 2, 1, 1, 3, 0] && read.value.varbinds[0].value == TickValue(ticks)
    && read.value.varbinds[1].name == [1, 3, 6, 1, 6, 3, 1, 1, 4, 1, 0]
    && read.value.varbinds[1].value == OidValue([1, 3, 6, 1, 4, 1, 13267, 3, 2, 6, 0, 1])
    && read.value.varbinds[2..] == varbinds
  }

  lemma InformReads(community: seq<byte>, requestId: nat, ticks: seq<byte>, varbinds: seq<VarBind>)
    requires forall vb :: vb in varbinds ==> GoodVarBind(vb)
    ensures var m := Inform(community, requestId, ticks, varbinds);
            GoodMessage(m)
                && (ReadsAs(EncodeMessage(m), community, requestId, ticks, varbinds) <==> |EncodeMessage(m)| <= 65539)
  {
    hide EncodeMessage, ReadMessage;
    var m := Inform(community, requestId, ticks, varbinds);
    assert GoodVarBind(m.varbinds[0]) && GoodVarBind(m.varbinds[1]);
    MessageRoundTripIff(m);
  }

  /** A Response that carries the id read from an INFORM's packet is taken for the answer to that INFORM. */
  lemma AnswerMatches(packet: seq<byte>, community: seq<byte>, requestId: nat, ticks: seq<byte>, varbinds: seq<VarBind>,
        answer: seq<byte>)
    requires ReadsAs(packet, community, requestId, ticks, varbinds)
    requires ReadMessage(answer).Some? && ReadMessage(answer).value.pduType == 0xa2
    requires ReadMessage(answer).value.requestId >= 0
    ensures ResponseRequestId(answer) == Some(requestId)
       <==> ReadMessage(answer).value.requestId == ReadMessage(packet).value.requestId
  {
    hide ReadMessage, ResponseRequestId;
    ResponseMatching(answer);
  }

  lemma {:induction false} VarBindsAppend(a: seq<VarBind>, b: seq<VarBind>)
    requires forall vb :: vb in a + b ==> GoodVarBind(vb)
    ensures (forall vb :: vb in a ==> GoodVarBind(vb)) && (forall vb :: vb in b ==> GoodVarBind(vb))
    ensures EncodeVarBinds(a + b) == EncodeVarBinds(a) + EncodeVarBinds(b)
  {
    hide EncodeVarBind;
    forall vb | vb in a || vb in b ensures GoodVarBind(vb) { assert vb in a + b; }
    if a == [] {
      assert a + b == b;
    } else {
      assert (a + b)[0] == a[0] && (a + b)[1..] == a[1..] + b;
      VarBindsAppend(a[1..], b);
    }
  }

  method EncodeVarBindBytes(vb: VarBind) returns (r: seq<byte>)
    requires GoodVarBind(vb)
    ensures r == EncodeVarBind(vb)
  {
    hide OidBody, IntBody, EncodeLength;
    var name := EncodeOid(vb.name);
    var value: seq<byte>;
    match vb.value {
      case IntValue(n) => value := EncodeInt(n);
      case OctetValue(octets) => value := Tlv(OCTETS, octets);
      case OidValue(oid) =>
        var encoded := EncodeOid(oid);
        value := encoded.value;
      case NullValue => value := [0x05, 0x00];
        assert value == Tlv(NULL, []) by { NullBytes(); }
      case TickValue(ticks) => value := Tlv(TICKS, ticks);
    }
    r := Tlv(SEQUENCE, name.value + value);
  }

  lemma NullBytes()
    ensures Tlv(NULL, []) == [0x05, 0x00]
  {}

  /** Builds the packet; ticks are the four octets of the uptime. */
  method BuildInformPacket(community: seq<byte>, requestId: nat, ticks: seq<byte>,
        varbinds: seq<VarBind>) returns (packet: seq<byte>)
    requires forall vb :: vb in varbinds ==> GoodVarBind(vb)
    ensures GoodMessage(Inform(community, requestId, ticks, varbinds))
    ensures packet == EncodeMessage(Inform(community, requestId, ticks, varbinds))
    ensures ReadsAs(packet, community, requestId, ticks, varbinds) <==> |packet| <= 65539
  {
    hide ReadsAs, Tlv, EncodeVarBind, IntBody, ReadMessage, EncodeVarBinds;
    var uptime := VarBind(UPTIME_OID, TickValue(ticks));
    var trap := VarBind(TRAP_OID, OidValue(NOTIFY_OID));
    ghost var m := Inform(community, requestId, ticks, varbinds);
    assert GoodVarBind(uptime) && GoodVarBind(trap);
    var fixed := [uptime, trap];
    var uptimeBytes := EncodeVarBindBytes(uptime);
    var trapBytes := EncodeVarBindBytes(trap);
    var extra := EncodeExtra(varbinds);
    assert EncodeVarBinds(m.varbinds) == uptimeBytes + trapBytes + extra by {
      TwoThenMore(uptime, trap, varbinds);
    }
    var id := EncodeInt(requestId);
    var zero := EncodeInt(0);
    var pduBody := id + (zero + (zero + Tlv(SEQUENCE, uptimeBytes + trapBytes + extra)));
    var version := EncodeInt(1);
    packet := Tlv(SEQUENCE, version + (Tlv(OCTETS, community) + Tlv(INFORM, pduBody)));
    InformReads(community, requestId, ticks, varbinds);
  }

  lemma TwoThenMore(a: VarBind, b: VarBind, more: seq<VarBind>)
    requires GoodVarBind(a) && GoodVarBind(b) && forall vb :: vb in more ==> GoodVarBind(vb)
    ensures EncodeVarBinds([a, b] + more) == EncodeVarBind(a) + EncodeVarBind(b) + EncodeVarBinds(more)
  {
    hide EncodeVarBind;
    assert ([a, b] + more)[1..] == [b] + more && ([b] + more)[1..] == more;
  }

  method EncodeExtra(varbinds: seq<VarBind>) returns (extra: seq<byte>)
    requires forall vb :: vb in varbinds ==> GoodVarBind(vb)
    ensures extra == EncodeVarBinds(varbinds)
  {
    hide EncodeVarBind;
    extra := [];
    for i := 0 to |varbinds|
      invariant extra + EncodeVarBinds(varbinds[i..]) == EncodeVarBinds(varbinds)
    {
      var one := EncodeVarBindBytes(varbinds[i]);
      assert varbinds[i..][0] == varbinds[i] && varbinds[i..][1..] == varbinds[i + 1..];
      extra := extra + one;
    }
    assert varbinds[|varbinds|..] == [] && extra + [] == extra;
  }

  // ---- Matching the response --------------------------------------------------------------

  /** The request id that the sender finds in a received packet; None for anything it does not recognise. */
  function ResponseRequestId(data: seq<byte>): Option<nat> {
    if data == [] || data[0] != SEQUENCE then None
    else
      var (p1, _) :- LengthAt(data, 1);
      if p1 >= |data| || data[p1] != INTEGER then None
      else
        var (p2, vlen) :- LengthAt(data, p1 + 1);
        var p3 := p2 + vlen;
        if p3 >= |data| || data[p3] != OCTETS then None
        else
          var (p4, clen) :- LengthAt(data, p3 + 1);
          var p5 := p4 + clen;
          if p5 >= |data| || data[p5] != RESPONSE then None
          else
            var (p6, _) :- LengthAt(data, p5 + 1);
            if p6 >= |data| || data[p6] != INTEGER then None
            else
              var (p7, rlen) :- LengthAt(data, p6 + 1);
              Some(Number(if p7 + rlen <= |data| then data[p7..p7 + rlen] else data[p7..]))
  }

  lemma SliceOfSlice(s: seq<byte>, i: nat, j: nat, k: nat, l: nat)
    requires i <= j <= |s| && k <= l <= j - i
    ensures s[i..j][k..l] == s[i + k..i + l]
  {
    assert forall x :: 0 <= x < l - k ==> s[i..j][k..l][x] == s[i + k..i + l][x];
  }

  lemma LengthInSlice(data: seq<byte>, start: nat, end: nat)
    requires start <= end <= |data| && LengthAt(data[start..end], 1).Some?
    ensures var (pos, n) := LengthAt(data[start..end], 1).value;
            pos <= end - start && LengthAt(data, start + 1) == Some((start + pos, n))
  {
    hide Number;
    var s := data[start..end];
    assert s[1] == data[start + 1];
    if s[1] >= 0x80 {
      var k := s[1] % 0x80;
      SliceOfSlice(data, start, end, 2, 2 + k);
    }
  }

  /** Reading a field of data at a position other than its start. */
  lemma FieldAt(data: seq<byte>, start: nat, end: nat, content: seq<byte>)
    requires start <= end <= |data| && content == data[start..end] && ReadField(content).Some?
    ensures start + 1 < |data| && data[start] == ReadField(content).value.tag
    ensures LengthAt(data, start + 1).Some?
    ensures var (pos, n) := LengthAt(data, start + 1).value;
            && pos + n <= end
            && ReadField(content).value.content == data[pos..pos + n]
            && ReadField(content).value.rest == data[pos + n..end]
  {
    hide LengthAt;
    LengthInSlice(data, start, end);
    var (pos, n) := LengthAt(content, 1).value;
    SliceOfSlice(data, start, end, pos, pos + n);
    SliceOfSlice(data, start, end, pos + n, end - start);
    assert content[pos + n..] == content[pos + n..end - start];
  }

  /** The fields of a readable message, down to the request id. */
  lemma MessageFields(data: seq<byte>)
    requires ReadMessage(data).Some?
    ensures ReadTagged(data, SEQUENCE).Some?
    ensures var whole := ReadTagged(data, SEQUENCE).value;
            whole.rest == [] && ReadTagged(whole.content, INTEGER).Some?
    ensures var version := ReadTagged(ReadTagged(data, SEQUENCE).value.content, INTEGER).value;
            && ReadTagged(version.rest, OCTETS).Some?
            && (var community := ReadTagged(version.rest, OCTETS).value;
                && ReadField(community.rest).Some?
                && (var pdu := ReadField(community.rest).value;
                    && pdu.tag == ReadMessage(data).value.pduType
                    && ReadTagged(pdu.content, INTEGER).Some?
                    && ReadInt(ReadTagged(pdu.content, INTEGER).value.content)
                         == Some(ReadMessage(data).value.requestId)))
  {
    hide ReadField, ReadInt, ReadVarBinds;
  }

  lemma ResponseAt(data: seq<byte>, p1: nat, n1: nat, p2: nat, vlen: nat, p4: nat, clen: nat, p6: nat, n6: nat)
    requires data != [] && data[0] == SEQUENCE && LengthAt(data, 1) == Some((p1, n1))
    requires p1 < |data| && data[p1] == INTEGER && LengthAt(data, p1 + 1) == Some((p2, vlen))
    requires p2 + vlen < |data| && data[p2 + vlen] == OCTETS && LengthAt(data, p2 + vlen + 1) == Some((p4, clen))
    requires p4 + clen < |data| && LengthAt(data, p4 + clen + 1) == Some((p6, n6))
    requires p6 < |data| && data[p6] == INTEGER && LengthAt(data, p6 + 1).Some?
    requires var (p7, rlen) := LengthAt(data, p6 + 1).value; p7 + rlen <= |data|
    ensures ResponseRequestId(data)
         == if data[p4 + clen] != RESPONSE then None
            else var (p7, rlen) := LengthAt(data, p6 + 1).value; Some(Number(data[p7..p7 + rlen]))
  {
    hide LengthAt, Number;
  }

  /** Whatever definite length forms the peer uses, a well-formed Response gives its request id, and
      a well-formed message that is not a Response, such as the INFORM itself, gives none. */
  lemma ResponseMatching(data: seq<byte>)
    requires ReadMessage(data).Some? && ReadMessage(data).value.requestId >= 0
    ensures var m := ReadMessage(data).value;
            ResponseRequestId(data) == if m.pduType == RESPONSE then Some(m.requestId) else None
  {
    hide ReadMessage, ReadField, LengthAt, ReadInt, Number, ResponseRequestId;
    MessageFields(data);
    var whole := ReadField(data).value;
    var version := ReadField(whole.content).value;
    var community := ReadField(version.rest).value;
    var pdu := ReadField(community.rest).value;
    FieldAt(data, 0, |data|, data);
    var (p1, n1) := LengthAt(data, 1).value;
    FieldAt(data, p1, p1 + n1, whole.content);
    var (p2, vlen) := LengthAt(data, p1 + 1).value;
    FieldAt(data, p2 + vlen, p1 + n1, version.rest);
    var (p4, clen) := LengthAt(data, p2 + vlen + 1).value;
    FieldAt(data, p4 + clen, p1 + n1, community.rest);
    var (p6, n6) := LengthAt(data, p4 + clen + 1).value;
    FieldAt(data, p6, p6 + n6, pdu.content);
    ResponseAt(data, p1, n1, p2, vlen, p4, clen, p6, n6);
    NonNegative(ReadField(pdu.content).value.content);
  }

  /** The acknowledgement of an attempt, a Response echoing its request id, is recognised as such. */
  lemma AcknowledgementMatches(m: Message)
    requires GoodMessage(m) && m.pduType == RESPONSE && |EncodeMessage(m)| <= 65539
    ensures ResponseRequestId(EncodeMessage(m)) == Some(m.requestId)
  {
    hide EncodeMessage, ReadMessage, ResponseRequestId;
    MessageRoundTripIff(m);
    ResponseMatching(EncodeMessage(m));
  }

  lemma NonNegative(content: seq<byte>)
    requires ReadInt(content).Some? && ReadInt(content).value >= 0
    ensures ReadInt(content).value == Number(content)
  {
    NumberBound(content);
  }

  lemma {:induction false} NumberBound(digits: seq<byte>)
    ensures Number(digits) < Power256(|digits|)
  {
    if digits != [] {
      NumberBound(digits[..|digits| - 1]);
    }
  }

  // ---- Request ids --------------------------------------------------------------------------

  const MAX_ID := 0x7fff_ffff

  function NextId(id: nat): (r: nat)
    ensures 1 <= r <= MAX_ID
  {
    id % MAX_ID + 1
  }

  function IdAfter(id: nat, n: nat): nat {
    if n == 0 then id else NextId(IdAfter(id, n - 1))
  }

  lemma {:induction false} IdAfterIs(id: nat, n: nat)
    requires 1 <= id <= MAX_ID
    ensures IdAfter(id, n) == (id - 1 + n) % MAX_ID + 1
  {
    if n > 0 {
      IdAfterIs(id, n - 1);
    }
  }

  lemma SameRemainderIff(x: nat, d: nat)
    ensures x % MAX_ID == (x + d) % MAX_ID <==> d % MAX_ID == 0
  {
    var q, r := (x + d) / MAX_ID - x / MAX_ID, (x + d) % MAX_ID - x % MAX_ID;
    assert d == MAX_ID * q + r;
  }

  /** Two attempts carry the same request id only if a multiple of 2^31 - 1 attempts lies between them, so the late
      answer to an earlier attempt is not taken for the answer to the current one. */
  lemma IdsEqualIff(id: nat, m: nat, n: nat)
    requires 1 <= id <= 2147483647 && m <= n
    ensures IdAfter(id, m) == IdAfter(id, n) <==> (n - m) % 2147483647 == 0
  {
    hide IdAfter;
    IdAfterIs(id, m);
    IdAfterIs(id, n);
    SameRemainderIff(id - 1 + m, n - m);
  }
}
