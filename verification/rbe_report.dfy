/**
  What the Reply By Exception sender puts into an INFORM: the reply mapping, object identifiers, the grouping
  of signals by SCN, and the varbinds.

  IdentifiersDistinctIff says when the identifiers of an INFORM are distinct; PlaceIsTold and
  InformTells say what a manager that reads the packet learns of every mapped bit.
 */
module RbeReport {
  import opened Bytes
  import Ber
  import MaskWrite

  // ---- The MIB columns and the reply mapping -----------------------------------------------

  datatype ReplyField =
    | Gn | GX | DF | FC | SCn | HC | WI | PC | PR | CG | GR1 | SDn | MC | CF | LE | RR | LFn | RF1 | RF2 | EV | VC
    | VQ | CA | CR | CL | CSn | TF | VSn | VO | CO | EC | CS | FR | BDn | TPn | SB | LC | MR | MF | ML | GPn

  function Column(f: ReplyField): nat {
    match f
    case Gn => 3 case GX => 4 case DF => 5 case FC => 6 case SCn => 7 case HC => 8 case WI => 9
    case PC => 10 case PR => 11 case CG => 12 case GR1 => 13 case SDn => 14 case MC => 15
    case CF => 16 case LE => 17 case RR => 18 case LFn => 19 case RF1 => 20 case RF2 => 21
    case EV => 22 case VC => 23 case VQ => 24 case CA => 25 case CR => 26 case CL => 27
    case CSn => 28 case TF => 29 case VSn => 30 case VO => 31 case CO => 32 case EC => 33
    case CS => 34 case FR => 35 case BDn => 36 case TPn => 37 case SB => 38 case LC => 39
    case MR => 40 case MF => 41 case ML => 42 case GPn => 25
  }

  /** A bus signal, by its bare name, and whether the mapping inverts it. */
  datatype Signal = Signal(name: string, inverted: bool)
  type Bits = seq<(nat, Signal)>   // bit number and signal
  datatype FieldMap = FieldMap(field: ReplyField, bits: Bits)
  datatype Scn = Scn(name: string, fields: seq<FieldMap>)
  type Mapping = seq<Scn>

  predicate InField(f: FieldMap, name: string) {
    exists j :: 0 <= j < |f.bits| && f.bits[j].1.name == name
  }

  predicate InScn(scn: Scn, name: string) {
    exists i :: 0 <= i < |scn.fields| && InField(scn.fields[i], name)
  }

  predicate Mapped(m: Mapping, name: string) {
    exists k :: 0 <= k < |m| && InScn(m[k], name)
  }

  predicate IsVsn(m: Mapping, name: string) {
    exists k, i :: 0 <= k < |m| && 0 <= i < |m[k].fields| && m[k].fields[i].field == VSn
        && InField(m[k].fields[i], name)
  }

  // ---- Object identifiers ------------------------------------------------------------------

  const BASE_REPLY: seq<nat> := [1, 3, 6, 1, 4, 1, 13267, 3, 2, 5, 1, 1]
  const TIMESTAMP: nat := 1

  function Codes(name: string): seq<nat> {
    seq(|name|, i requires 0 <= i < |name| => name[i] as nat)
  }

  /** The suffix of an SCN: its length and its character codes. */
  function ScnSuffix(name: string): seq<nat> {
    [|name|] + Codes(name)
  }

  function ColumnOid(scn: string, f: ReplyField): seq<nat> {
    BASE_REPLY + [Column(f), TIMESTAMP] + ScnSuffix(scn)
  }

  /** The identifier of a reply field of an SCN. */
  lemma ColumnOidIs(scn: string, f: ReplyField)
    ensures var oid := ColumnOid(scn, f);
            && |oid| == 15 + |scn| && oid[..12] == [1, 3, 6, 1, 4, 1, 13267, 3, 2, 5, 1, 1]
            && oid[12] == Column(f) && oid[13] == 1 && oid[14] == |scn|
            && forall i :: 0 <= i < |scn| ==> oid[15 + i] == scn[i] as nat
  {
    hide Column;
  }

  lemma CodesInjective(a: string, b: string)
    requires Codes(a) == Codes(b)
    ensures a == b
  {
    assert |a| == |Codes(a)| == |b|;
    forall i | 0 <= i < |a| ensures a[i] == b[i] {
      assert Codes(a)[i] == Codes(b)[i];
    }
  }

  /** The two fields that share a column. */
  predicate Clash(f: ReplyField, g: ReplyField) {
    (f == CA && g == GPn) || (f == GPn && g == CA)
  }

  /** The field of a column; column 25 is CA's here. */
  function FieldAt(column: nat): ReplyField {
    match column
    case 3 => Gn case 4 => GX case 5 => DF case 6 => FC case 7 => SCn case 8 => HC case 9 => WI
    case 10 => PC case 11 => PR case 12 => CG case 13 => GR1 case 14 => SDn case 15 => MC
    case 16 => CF case 17 => LE case 18 => RR case 19 => LFn case 20 => RF1 case 21 => RF2
    case 22 => EV case 23 => VC case 24 => VQ case 25 => CA case 26 => CR case 27 => CL
    case 28 => CSn case 29 => TF case 30 => VSn case 31 => VO case 32 => CO case 33 => EC
    case 34 => CS case 35 => FR case 36 => BDn case 37 => TPn case 38 => SB case 39 => LC
    case 40 => MR case 41 => MF case _ => ML
  }

  lemma ColumnRoundTrip(f: ReplyField)
    ensures FieldAt(Column(f)) == if f == GPn then CA else f
  {
    if Column(f) < 24 {
      LowColumns(f);
    } else {
      HighColumns(f);
    }
  }

  lemma LowColumns(f: ReplyField)
    requires Column(f) < 24
    ensures FieldAt(Column(f)) == f
  {}

  lemma HighColumns(f: ReplyField)
    requires Column(f) >= 24
    ensures FieldAt(Column(f)) == if f == GPn then CA else f
  {}

  lemma SharedColumn()
    ensures Column(CA) == Column(GPn)
  {}

  lemma ColumnEqualIff(f: ReplyField, g: ReplyField)
    ensures Column(f) == Column(g) <==> f == g || Clash(f, g)
  {
    hide Column, FieldAt;
    SharedColumn();
    ColumnRoundTrip(f);
    ColumnRoundTrip(g);
  }

  /** Two replies have the same object identifier only for the same SCN, and then only for the same
      field, except that CA and GPn cannot be told apart. */
  lemma ColumnOidEqualIff(s: string, f: ReplyField, t: string, g: ReplyField)
    ensures ColumnOid(s, f) == ColumnOid(t, g) <==> s == t && (f == g || Clash(f, g))
  {
    hide Column, Clash;
    ColumnEqualIff(f, g);
    var a, b := ColumnOid(s, f), ColumnOid(t, g);
    if a == b {
      assert a[12] == Column(f) && b[12] == Column(g);
      assert a[14..] == ScnSuffix(s) && b[14..] == ScnSuffix(t);
      assert ScnSuffix(s)[1..] == Codes(s) && ScnSuffix(t)[1..] == Codes(t);
      CodesInjective(s, t);
    }
  }

  // ---- Grouping ----------------------------------------------------------------------------

  type Values = map<string, int>
  datatype Group = Group(scn: string, signals: Values)

  function InGroup(scn: Scn, signals: Values): Values {
    map n | n in signals && InScn(scn, n) :: signals[n]
  }

  function Groups(m: Mapping, signals: Values): seq<Group> {
    if m == [] then []
    else
      var own := if InGroup(m[0], signals) == map[] then [] else [Group(m[0].name, InGroup(m[0], signals))];
      own + Groups(m[1..], signals)
  }

  /** All the signals of a list of groups. */
  function Union(groups: seq<Group>): Values {
    if groups == [] then map[] else groups[0].signals + Union(groups[1..])
  }

  method CollectScn(scn: Scn, signals: Values) returns (sigs: Values)
    ensures sigs == InGroup(scn, signals)
  {
    sigs := map[];
    for i := 0 to |scn.fields|
      invariant forall n :: n in sigs <==> n in signals && exists i' :: 0 <= i' < i && InField(scn.fields[i'], n)
      invariant forall n :: n in sigs ==> sigs[n] == signals[n]
    {
      var f := scn.fields[i];
      ghost var before := sigs;
      for j := 0 to |f.bits|
        invariant forall n :: n in sigs
                    <==> n in before || (n in signals && exists j' :: 0 <= j' < j && f.bits[j'].1.name == n)
        invariant forall n :: n in sigs ==> n in signals && sigs[n] == signals[n]
      {
        var raw := f.bits[j].1.name;
        if raw in signals {
          sigs := sigs[raw := signals[raw]];
        }
      }
    }
  }

  method GroupByScn(m: Mapping, signals: Values) returns (groups: seq<Group>)
    ensures groups == Groups(m, signals)
  {
    hide InGroup, Groups;
    groups := [];
    GroupsStep(m, signals, |m|);
    for k := 0 to |m|
      invariant groups + Groups(m[k..], signals) == Groups(m, signals)
    {
      var sigs := CollectScn(m[k], signals);
      GroupsStep(m, signals, k);
      if sigs != map[] {
        var own := [Group(m[k].name, sigs)];
        AppendAppend(groups, own, Groups(m[k + 1..], signals));
        groups := groups + own;
      }
    }
    assert groups + [] == groups;
  }

  lemma AppendAppend<T>(a: seq<T>, b: seq<T>, c: seq<T>)
    ensures (a + b) + c == a + (b + c)
  {}

  lemma GroupsStep(m: Mapping, signals: Values, k: nat)
    requires k <= |m|
    ensures Groups(m[k..], signals)
         == if k == |m| then []
            else if InGroup(m[k], signals) == map[] then Groups(m[k + 1..], signals)
            else [Group(m[k].name, InGroup(m[k], signals))] + Groups(m[k + 1..], signals)
  {
    hide InGroup;
    if k < |m| {
      assert m[k..][0] == m[k] && m[k..][1..] == m[k + 1..];
      assert [] + Groups(m[k + 1..], signals) == Groups(m[k + 1..], signals);
    }
  }

  /** Grouping loses no mapped signal and changes no value. */
  lemma {:induction false} UnionOfGroups(m: Mapping, signals: Values)
    ensures forall n :: n in Union(Groups(m, signals)) <==> n in signals && Mapped(m, n)
    ensures forall n :: n in Union(Groups(m, signals)) ==> Union(Groups(m, signals))[n] == signals[n]
  {
    if m != [] {
      UnionOfGroups(m[1..], signals);
      var own := InGroup(m[0], signals);
      var rest := Groups(m[1..], signals);
      if own != map[] {
        assert Groups(m, signals)[1..] == rest;
      } else {
        assert Groups(m, signals) == rest;
      }
      assert forall n :: n in Union(Groups(m, signals)) <==> n in own || n in Union(rest);
      forall n ensures Mapped(m, n) <==> InScn(m[0], n) || Mapped(m[1..], n) {
        MappedCons(m, n);
      }
    }
  }

  lemma MappedCons(m: Mapping, n: string)
    requires m != []
    ensures Mapped(m, n) <==> InScn(m[0], n) || Mapped(m[1..], n)
  {
    if Mapped(m[1..], n) {
      var k :| 0 <= k < |m[1..]| && InScn(m[1..][k], n);
      assert InScn(m[k + 1], n);
    }
    if Mapped(m, n) && !InScn(m[0], n) {
      var k :| 0 <= k < |m| && InScn(m[k], n);
      assert InScn(m[1..][k - 1], n);
    }
  }

  // ---- Reading signals through the mapping -----------------------------------------------------

  /** The bus gives 0 for a signal it does not know. */
  function BusValue(bus: Values, name: string): int {
    if name in bus then bus[name] else 0
  }

  function Inverted(sig: Signal, value: int): int {
    if sig.inverted then 1 - value else value
  }

  /** A read through the mapping, which applies the inversion. */
  function ReadSignal(bus: Values, sig: Signal): int {
    Inverted(sig, BusValue(bus, sig.name))
  }

  predicate IsBitmask(f: ReplyField) {
    f == Gn || f == SDn || f == LFn || f == CSn || f == VSn || f == BDn || f == TPn || f == GPn || f == SCn
  }

  /** The bitmask columns; of the two fields in column 25 one is a bitmask, so that their varbinds share an identifier,
      but not a type. */
  lemma BitmaskColumns(f: ReplyField)
    ensures IsBitmask(f) <==> f != CA && Column(f) in [3, 7, 14, 19, 25, 28, 30, 36, 37]
  {
    ColumnRoundTrip(f);
  }

  /** A field has a signal, and bit numbers are keys; a line without one has bit number 0. */
  predicate FieldOk(f: FieldMap) {
    && f.bits != []
    && (forall i, j :: 0 <= i < j < |f.bits| ==> f.bits[i].0 != f.bits[j].0)
  }

  predicate ScnOk(scn: Scn) {
    && (forall i :: 0 <= i < |scn.fields| ==> FieldOk(scn.fields[i]))
    && (forall i, j :: 0 <= i < j < |scn.fields| ==> scn.fields[i].field != scn.fields[j].field)
  }

  predicate MappingOk(m: Mapping) {
    && (forall k :: 0 <= k < |m| ==> ScnOk(m[k]))
    && (forall k, l :: 0 <= k < l < |m| ==> m[k].name != m[l].name)
  }

  // ---- Varbinds --------------------------------------------------------------------------------

  /** A shift by the bit number less one is possible. */
  predicate Shiftable(bits: Bits) {
    forall j :: 0 <= j < |bits| ==> bits[j].0 >= 1
  }

  predicate ReadsOdd(bus: Values, sig: Signal) {
    ReadSignal(bus, sig) % 2 == 1
  }

  /** The mask of a bitmask field: the low bits of its signals, read through the mapping. */
  function ReplyMask(bits: Bits, bus: Values): nat
    requires Shiftable(bits)
  {
    if bits == [] then 0
    else
      var last := |bits| - 1;
      var below := ReplyMask(bits[..last], bus);
      if ReadsOdd(bus, bits[last].1) then MaskWrite.WithBit(below, bits[last].0) else below
  }

  /** The bits have a mask, and it is one octet; otherwise building it fails. */
  predicate MaskFits(bits: Bits, bus: Values) {
    Shiftable(bits) && ReplyMask(bits, bus) < 256
  }

  predicate FieldFits(f: FieldMap, bus: Values) {
    IsBitmask(f.field) ==> MaskFits(f.bits, bus)
  }

  /** The octet of a bitmask field, if its mask fits. */
  function ReplyOctet(bits: Bits, bus: Values): byte {
    if MaskFits(bits, bus) then ReplyMask(bits, bus) else 0
  }

  function VarbindOf(scn: string, f: FieldMap, bus: Values): Ber.VarBind
    requires FieldOk(f)
  {
    var value :=
      if IsBitmask(f.field) then Ber.OctetValue([ReplyOctet(f.bits, bus)])
      else Ber.IntValue(ReadSignal(bus, f.bits[0].1));
    Ber.VarBind(ColumnOid(scn, f.field), value)
  }

  /** The field has a signal among the given ones. */
  predicate FieldIn(f: FieldMap, signals: Values) {
    exists j :: 0 <= j < |f.bits| && f.bits[j].1.name in signals
  }

  function FieldVarbinds(scn: string, fields: seq<FieldMap>, signals: Values, bus: Values): seq<Ber.VarBind>
    requires forall i :: 0 <= i < |fields| ==> FieldOk(fields[i])
  {
    if fields == [] then []
    else
      var last := |fields| - 1;
      FieldVarbinds(scn, fields[..last], signals, bus)
          + (if FieldIn(fields[last], signals) then [VarbindOf(scn, fields[last], bus)] else [])
  }

  /** The fields of the SCN of that name. */
  function FieldsOf(m: Mapping, scn: string): seq<FieldMap> {
    if m == [] then [] else if m[0].name == scn then m[0].fields else FieldsOf(m[1..], scn)
  }

  lemma {:induction false} FieldsOfOk(m: Mapping, scn: string)
    requires MappingOk(m)
    ensures forall i :: 0 <= i < |FieldsOf(m, scn)| ==> FieldOk(FieldsOf(m, scn)[i])
  {
    if m != [] {
      assert ScnOk(m[0]);
      assert forall k :: 0 <= k < |m[1..]| ==> m[1..][k] == m[k + 1];
      FieldsOfOk(m[1..], scn);
    }
  }

  function Varbinds(m: Mapping, groups: seq<Group>, bus: Values): seq<Ber.VarBind>
    requires MappingOk(m)
    decreases |groups|
  {
    if groups == [] then []
    else
      FieldsOfOk(m, groups[0].scn);
      FieldVarbinds(groups[0].scn, FieldsOf(m, groups[0].scn), groups[0].signals, bus) + Varbinds(m, groups[1..], bus)
  }

  /** Every field of the list that has a signal among the given ones fits. */
  predicate FieldsFit(fields: seq<FieldMap>, signals: Values, bus: Values) {
    forall i :: 0 <= i < |fields| && FieldIn(fields[i], signals) ==> FieldFits(fields[i], bus)
  }

  predicate GroupsFit(m: Mapping, groups: seq<Group>, bus: Values) {
    forall g :: 0 <= g < |groups| ==> FieldsFit(FieldsOf(m, groups[g].scn), groups[g].signals, bus)
  }

  method BuildMask(bits: Bits, bus: Values) returns (octet: Option<byte>)
    ensures octet == if MaskFits(bits, bus) then Some(ReplyOctet(bits, bus)) else None
  {
    hide ReadsOdd;
    var mask: nat := 0;
    for j := 0 to |bits|
      invariant Shiftable(bits[..j]) && mask == ReplyMask(bits[..j], bus)
    {
      assert bits[..j + 1][..j] == bits[..j];
      if bits[j].0 == 0 {
        return None;
      }
      if ReadsOdd(bus, bits[j].1) {
        mask := MaskWrite.WithBit(mask, bits[j].0);
      }
    }
    assert bits[..|bits|] == bits;
    octet := if mask < 256 then Some(mask) else None;
  }

  /** The varbinds of the groups, or a failure if some bitmask does not fit its octet. */
  method BuildVarbinds(m: Mapping, groups: seq<Group>, bus: Values) returns (vbs: Option<seq<Ber.VarBind>>)
    requires MappingOk(m)
    ensures vbs == if GroupsFit(m, groups, bus) then Some(Varbinds(m, groups, bus)) else None
  {
    hide FieldVarbinds, FieldOk, MappingOk, FieldsOf, FieldsFit, GroupsFit;
    var all := [];
    NoGroupsFit(m, bus);
    assert groups[..0] == [];
    for k := 0 to |groups|
      invariant all + Varbinds(m, groups[k..], bus) == Varbinds(m, groups, bus)
      invariant GroupsFit(m, groups[..k], bus)
    {
      var fields := FieldsOf(m, groups[k].scn);
      FieldsOfOk(m, groups[k].scn);
      var own := BuildFieldVarbinds(groups[k].scn, fields, groups[k].signals, bus);
      assert groups[k..][0] == groups[k] && groups[k..][1..] == groups[k + 1..];
      GroupsFitOne(m, groups, bus, k);
      if own == None {
        return None;
      }
      all := all + own.value;
    }
    assert groups[|groups|..] == [] && all + [] == all && groups[..|groups|] == groups;
    vbs := Some(all);
  }

  lemma NoGroupsFit(m: Mapping, bus: Values)
    ensures GroupsFit(m, [], bus)
  {}

  lemma GroupsFitOne(m: Mapping, groups: seq<Group>, bus: Values, k: nat)
    requires k < |groups| && GroupsFit(m, groups[..k], bus)
    ensures GroupsFit(m, groups[..k + 1], bus) <==> FieldsFit(FieldsOf(m, groups[k].scn), groups[k].signals, bus)
    ensures GroupsFit(m, groups, bus) ==> GroupsFit(m, groups[..k + 1], bus)
  {
    hide FieldsFit, FieldsOf;
    assert forall g :: 0 <= g < k ==> groups[..k][g] == groups[..k + 1][g] == groups[g];
    assert groups[..k + 1][k] == groups[k];
  }

  method BuildFieldVarbinds(scn: string, fields: seq<FieldMap>, signals: Values, bus: Values)
      returns (vbs: Option<seq<Ber.VarBind>>)
    requires forall i :: 0 <= i < |fields| ==> FieldOk(fields[i])
    ensures vbs == if FieldsFit(fields, signals, bus) then Some(FieldVarbinds(scn, fields, signals, bus)) else None
  {
    hide FieldFits, FieldIn, FieldOk, VarbindOf;
    var all := [];
    for i := 0 to |fields|
      invariant FieldsFit(fields[..i], signals, bus) && all == FieldVarbinds(scn, fields[..i], signals, bus)
    {
      assert fields[..i + 1][..i] == fields[..i];
      if FieldIn(fields[i], signals) {
        var vb := BuildVarbind(scn, fields[i], bus);
        if vb == None {
          return None;
        }
        all := all + [vb.value];
      }
    }
    assert fields[..|fields|] == fields;
    vbs := Some(all);
  }

  method BuildVarbind(scn: string, f: FieldMap, bus: Values) returns (vb: Option<Ber.VarBind>)
    requires FieldOk(f)
    ensures vb == if FieldFits(f, bus) then Some(VarbindOf(scn, f, bus)) else None
  {
    hide MaskFits, ReplyOctet, ColumnOid;
    var oid := ColumnOid(scn, f.field);
    if IsBitmask(f.field) {
      var octet := BuildMask(f.bits, bus);
      vb := if octet == None then None else Some(Ber.VarBind(oid, Ber.OctetValue([octet.value])));
    } else {
      vb := Some(Ber.VarBind(oid, Ber.IntValue(ReadSignal(bus, f.bits[0].1))));
    }
  }

  lemma {:induction false} LowBitsFit(bits: Bits, bus: Values)
    requires Shiftable(bits)
    requires forall j :: 0 <= j < |bits| && bits[j].0 > 8 ==> !ReadsOdd(bus, bits[j].1)
    ensures ReplyMask(bits, bus) < MaskWrite.PowerOfTwo(8)
  {
    hide ReadsOdd;
    if bits != [] {
      var n := |bits| - 1;
      LowBitsFit(bits[..n], bus);
      if ReadsOdd(bus, bits[n].1) {
        MaskWrite.WithBitBound(ReplyMask(bits[..n], bus), bits[n].0, 8);
      }
    }
  }

  /** The mask of a field fits its octet exactly if every bit has a number, and those above 8 are off. */
  lemma MaskFitsIff(bits: Bits, bus: Values)
    requires forall i, k :: 0 <= i < k < |bits| ==> bits[i].0 != bits[k].0
    ensures MaskFits(bits, bus)
       <==> forall j :: 0 <= j < |bits| ==> bits[j].0 >= 1 && (bits[j].0 > 8 ==> !ReadsOdd(bus, bits[j].1))
  {
    hide ReadsOdd, ReplyMask;
    MaskWrite.Octet();
    if Shiftable(bits) {
      if j :| 0 <= j < |bits| && bits[j].0 > 8 && ReadsOdd(bus, bits[j].1) {
        ReplyMaskBit(bits, bus, j);
        MaskWrite.HighBitIsLarge(ReplyMask(bits, bus), bits[j].0, 8);
      } else {
        LowBitsFit(bits, bus);
      }
    }
  }

  // ---- The varbinds of a set of signals ----------------------------------------------------------

  /** Field i of SCN k gets a varbind: it has a signal among the given ones. */
  predicate IsReported(m: Mapping, signals: Values, k: int, i: int) {
    0 <= k < |m| && 0 <= i < |m[k].fields| && FieldIn(m[k].fields[i], signals)
  }

  /** The varbinds in mapping order. */
  function Reports(m: Mapping, signals: Values, bus: Values): seq<Ber.VarBind>
    requires forall k :: 0 <= k < |m| ==> ScnOk(m[k])
  {
    if m == [] then []
    else
      assert ScnOk(m[0]);
      FieldVarbinds(m[0].name, m[0].fields, signals, bus) + Reports(m[1..], signals, bus)
  }

  lemma {:induction false} FieldsOfIndex(m: Mapping, k: nat)
    requires MappingOk(m) && k < |m|
    ensures FieldsOf(m, m[k].name) == m[k].fields
  {
    hide ScnOk;
    if k > 0 {
      assert m[0].name != m[k].name;
      assert forall l :: 0 <= l < |m[1..]| ==> m[1..][l] == m[l + 1];
      FieldsOfIndex(m[1..], k - 1);
    }
  }

  /** Of an SCN's fields the group of the SCN has the same as the whole set of signals. */
  lemma {:induction false} GroupVarbinds(scn: Scn, fields: seq<FieldMap>, signals: Values, bus: Values)
    requires ScnOk(scn) && fields <= scn.fields
    ensures forall i :: 0 <= i < |fields| ==> FieldOk(fields[i])
    ensures FieldVarbinds(scn.name, fields, InGroup(scn, signals), bus) == FieldVarbinds(scn.name, fields, signals, bus)
    ensures InGroup(scn, signals) == map[] ==> FieldVarbinds(scn.name, fields, signals, bus) == []
  {
    hide FieldOk, VarbindOf;
    forall i | 0 <= i < |fields| ensures FieldOk(fields[i]) {
      assert fields[i] == scn.fields[i];
    }
    if fields != [] {
      var n := |fields| - 1;
      GroupVarbinds(scn, fields[..n], signals, bus);
      var f := fields[n];
      assert f == scn.fields[n];
      forall j | 0 <= j < |f.bits| ensures f.bits[j].1.name in InGroup(scn, signals) <==> f.bits[j].1.name in signals {
        assert InField(f, f.bits[j].1.name);
      }
    }
  }

  lemma {:induction false} GroupsReport(m: Mapping, signals: Values, bus: Values, k: nat)
    requires MappingOk(m) && k <= |m|
    ensures forall l :: 0 <= l < |m[k..]| ==> ScnOk(m[k..][l])
    ensures Varbinds(m, Groups(m[k..], signals), bus) == Reports(m[k..], signals, bus)
    decreases |m| - k
  {
    hide FieldVarbinds, InGroup, Groups, ScnOk, FieldsOf;
    GroupsStep(m, signals, k);
    if k < |m| {
      GroupsReport(m, signals, bus, k + 1);
      var own := InGroup(m[k], signals);
      GroupVarbinds(m[k], m[k].fields, signals, bus);
      assert m[k..][0] == m[k] && m[k..][1..] == m[k + 1..];
      if own == map[] {
        assert [] + Reports(m[k + 1..], signals, bus) == Reports(m[k + 1..], signals, bus);
      } else {
        FieldsOfIndex(m, k);
        var groups := [Group(m[k].name, own)] + Groups(m[k + 1..], signals);
        assert groups[1..] == Groups(m[k + 1..], signals);
      }
    }
  }

  /** The INFORM about a set of signals has the varbinds of their fields, in mapping order. */
  lemma VarbindsOfGroups(m: Mapping, signals: Values, bus: Values)
    requires MappingOk(m)
    ensures Varbinds(m, Groups(m, signals), bus) == Reports(m, signals, bus)
  {
    GroupsReport(m, signals, bus, 0);
    assert m[0..] == m;
  }

  lemma {:induction false} FieldVarbindIn(scn: string, fields: seq<FieldMap>, signals: Values, bus: Values,
        vb: Ber.VarBind)
    requires forall i :: 0 <= i < |fields| ==> FieldOk(fields[i])
    ensures vb in FieldVarbinds(scn, fields, signals, bus)
       <==> exists i :: 0 <= i < |fields| && FieldIn(fields[i], signals) && vb == VarbindOf(scn, fields[i], bus)
    decreases |fields|
  {
    hide VarbindOf, FieldOk, FieldIn;
    if fields != [] {
      var n := |fields| - 1;
      FieldVarbindIn(scn, fields[..n], signals, bus, vb);
      assert forall i :: 0 <= i < n ==> fields[..n][i] == fields[i];
    }
  }

  lemma {:induction false} ReportIn(m: Mapping, signals: Values, bus: Values, vb: Ber.VarBind)
    requires forall k :: 0 <= k < |m| ==> ScnOk(m[k])
    ensures vb in Reports(m, signals, bus)
       <==> exists k, i :: IsReported(m, signals, k, i) && vb == VarbindOf(m[k].name, m[k].fields[i], bus)
  {
    hide VarbindOf, FieldOk, FieldVarbinds, FieldIn;
    if m != [] {
      var rest := m[1..];
      assert forall k :: 0 <= k < |rest| ==> rest[k] == m[k + 1];
      assert ScnOk(m[0]);
      ReportIn(rest, signals, bus, vb);
      FieldVarbindIn(m[0].name, m[0].fields, signals, bus, vb);
      if vb in FieldVarbinds(m[0].name, m[0].fields, signals, bus) {
        var i :| 0 <= i < |m[0].fields| && FieldIn(m[0].fields[i], signals)
            && vb == VarbindOf(m[0].name, m[0].fields[i], bus);
        assert IsReported(m, signals, 0, i);
      }
      if vb in Reports(rest, signals, bus) {
        var k, i :| IsReported(rest, signals, k, i) && vb == VarbindOf(rest[k].name, rest[k].fields[i], bus);
        assert IsReported(m, signals, k + 1, i) && m[k + 1] == rest[k];
      }
      if exists k, i :: IsReported(m, signals, k, i) && vb == VarbindOf(m[k].name, m[k].fields[i], bus) {
        var k, i :| IsReported(m, signals, k, i) && vb == VarbindOf(m[k].name, m[k].fields[i], bus);
        if k > 0 {
          assert IsReported(rest, signals, k - 1, i) && rest[k - 1] == m[k];
        }
      }
    }
  }

  lemma {:induction false} GroupsNonEmpty(m: Mapping, signals: Values)
    requires Groups(m, signals) != []
    ensures exists k, i :: IsReported(m, signals, k, i)
  {
    if InGroup(m[0], signals) != map[] {
      var n :| n in InGroup(m[0], signals);
      var i :| 0 <= i < |m[0].fields| && InField(m[0].fields[i], n);
      assert IsReported(m, signals, 0, i);
    } else {
      GroupsNonEmpty(m[1..], signals);
      var k, i :| IsReported(m[1..], signals, k, i);
      assert IsReported(m, signals, k + 1, i);
    }
  }

  /** An INFORM about any group has a varbind, so the sender's check for an empty one never applies. */
  lemma GroupsAreReported(m: Mapping, signals: Values, bus: Values)
    requires MappingOk(m) && Groups(m, signals) != []
    ensures Varbinds(m, Groups(m, signals), bus) != []
  {
    hide Groups, Varbinds, VarbindOf, Reports;
    VarbindsOfGroups(m, signals, bus);
    GroupsNonEmpty(m, signals);
    var k, i :| IsReported(m, signals, k, i);
    assert ScnOk(m[k]) && FieldOk(m[k].fields[i]);
    ReportIn(m, signals, bus, VarbindOf(m[k].name, m[k].fields[i], bus));
  }

  // ---- Identifiers ------------------------------------------------------------------------------

  ghost predicate DistinctIds(vbs: seq<Ber.VarBind>) {
    forall a, b :: 0 <= a < b < |vbs| ==> vbs[a].name != vbs[b].name
  }

  /** The field is one of those, and has a signal among the given ones. */
  predicate HasField(fields: seq<FieldMap>, signals: Values, f: ReplyField) {
    exists i :: 0 <= i < |fields| && fields[i].field == f && FieldIn(fields[i], signals)
  }

  /** CA and GPn are both reported. */
  predicate FieldClash(fields: seq<FieldMap>, signals: Values) {
    HasField(fields, signals, CA) && HasField(fields, signals, GPn)
  }

  predicate ClashReported(m: Mapping, signals: Values) {
    exists k :: 0 <= k < |m| && FieldClash(m[k].fields, signals)
  }

  ghost predicate HasId(vbs: seq<Ber.VarBind>, oid: seq<nat>) {
    exists i :: 0 <= i < |vbs| && vbs[i].name == oid
  }

  lemma DistinctAppend(a: seq<Ber.VarBind>, b: seq<Ber.VarBind>)
    ensures DistinctIds(a + b)
       <==> DistinctIds(a) && DistinctIds(b) && forall j :: 0 <= j < |b| ==> !HasId(a, b[j].name)
    ensures forall oid :: HasId(a + b, oid) <==> HasId(a, oid) || HasId(b, oid)
  {
    var c := a + b;
    assert forall i :: 0 <= i < |a| ==> c[i] == a[i];
    assert forall j :: 0 <= j < |b| ==> c[|a| + j] == b[j];
    if DistinctIds(c) {
      forall j | 0 <= j < |b| ensures !HasId(a, b[j].name) {
        assert c[|a| + j] == b[j];
      }
      forall i, j | 0 <= i < j < |b| ensures b[i].name != b[j].name {
        assert c[|a| + i] == b[i] && c[|a| + j] == b[j];
      }
    }
    forall oid ensures HasId(c, oid) <==> HasId(a, oid) || HasId(b, oid) {
      if HasId(b, oid) {
        var j :| 0 <= j < |b| && b[j].name == oid;
        assert c[|a| + j].name == oid;
      }
      if HasId(a, oid) {
        var i :| 0 <= i < |a| && a[i].name == oid;
        assert c[i].name == oid;
      }
    }
  }

  /** A reported field of that identifier. */
  predicate SharesId(fields: seq<FieldMap>, signals: Values, f: ReplyField) {
    HasField(fields, signals, f) || (f == CA && HasField(fields, signals, GPn))
        || (f == GPn && HasField(fields, signals, CA))
  }

  lemma HasFieldLast(fields: seq<FieldMap>, signals: Values, f: ReplyField)
    requires fields != []
    ensures HasField(fields, signals, f)
       <==> HasField(fields[..|fields| - 1], signals, f)
            || (fields[|fields| - 1].field == f && FieldIn(fields[|fields| - 1], signals))
  {
    hide FieldIn;
    assert forall i :: 0 <= i < |fields| - 1 ==> fields[..|fields| - 1][i] == fields[i];
  }

  lemma {:induction false} FieldHasId(scn: string, fields: seq<FieldMap>, signals: Values, bus: Values, t: string,
        f: ReplyField)
    requires forall i :: 0 <= i < |fields| ==> FieldOk(fields[i])
    ensures HasId(FieldVarbinds(scn, fields, signals, bus), ColumnOid(t, f))
       <==> scn == t && SharesId(fields, signals, f)
    decreases |fields|
  {
    hide FieldOk, FieldIn, ColumnOid, HasId, SharesId, Clash, DistinctIds;
    if fields == [] {
      NoFieldNoId(signals, ColumnOid(t, f), f);
    } else {
      var n := |fields| - 1;
      var front, g := fields[..n], fields[n];
      FieldHasId(scn, front, signals, bus, t, f);
      var own := if FieldIn(g, signals) then [VarbindOf(scn, g, bus)] else [];
      DistinctAppend(FieldVarbinds(scn, front, signals, bus), own);
      ColumnOidEqualIff(scn, g.field, t, f);
      OneHasId(own, ColumnOid(t, f));
      SharesIdLast(fields, signals, f);
    }
  }

  lemma SharesIdLast(fields: seq<FieldMap>, signals: Values, f: ReplyField)
    requires fields != []
    ensures SharesId(fields, signals, f)
       <==> SharesId(fields[..|fields| - 1], signals, f)
            || (FieldIn(fields[|fields| - 1], signals)
                   && (fields[|fields| - 1].field == f || Clash(fields[|fields| - 1].field, f)))
  {
    hide FieldIn, HasField;
    HasFieldLast(fields, signals, f);
    HasFieldLast(fields, signals, CA);
    HasFieldLast(fields, signals, GPn);
  }

  lemma NoFieldNoId(signals: Values, oid: seq<nat>, f: ReplyField)
    ensures !SharesId([], signals, f)
    ensures !HasId([], oid) && !HasField([], signals, f) && !HasField([], signals, CA) && !HasField([], signals, GPn)
  {}

  lemma OneHasId(own: seq<Ber.VarBind>, oid: seq<nat>)
    requires |own| <= 1
    ensures HasId(own, oid) <==> |own| == 1 && own[0].name == oid
    ensures DistinctIds(own)
  {}

  lemma {:induction false} FieldIdsDistinctIff(scn: string, fields: seq<FieldMap>, signals: Values, bus: Values)
    requires forall i :: 0 <= i < |fields| ==> FieldOk(fields[i])
    requires forall i, j :: 0 <= i < j < |fields| ==> fields[i].field != fields[j].field
    ensures DistinctIds(FieldVarbinds(scn, fields, signals, bus)) <==> !FieldClash(fields, signals)
    decreases |fields|
  {
    hide FieldOk, FieldIn, ColumnOid, DistinctIds, HasId, HasField;
    if fields == [] {
      NoIds();
      NoFieldNoId(signals, [], CA);
    } else {
      var n := |fields| - 1;
      var front, f := fields[..n], fields[n];
      FieldIdsDistinctIff(scn, front, signals, bus);
      var own := if FieldIn(f, signals) then [VarbindOf(scn, f, bus)] else [];
      DistinctAppend(FieldVarbinds(scn, front, signals, bus), own);
      OneHasId(own, []);
      FieldHasId(scn, front, signals, bus, scn, f.field);
      HasFieldLast(fields, signals, CA);
      HasFieldLast(fields, signals, GPn);
      FieldOnce(fields, signals);
    }
  }

  lemma FieldOnce(fields: seq<FieldMap>, signals: Values)
    requires fields != [] && forall i, j :: 0 <= i < j < |fields| ==> fields[i].field != fields[j].field
    ensures !HasField(fields[..|fields| - 1], signals, fields[|fields| - 1].field)
  {}

  lemma NoIds()
    ensures DistinctIds([])
  {}

  /** The identifiers of an INFORM are distinct if and only if it does not report both CA and GPn of an SCN. */
  lemma {:induction false} IdentifiersDistinctIff(m: Mapping, signals: Values, bus: Values)
    requires MappingOk(m)
    ensures DistinctIds(Reports(m, signals, bus)) <==> !ClashReported(m, signals)
  {
    hide FieldOk, FieldIn, ColumnOid, DistinctIds, HasId, FieldVarbinds, FieldClash, ClashReported;
    if m == [] {
      NoIds();
      NothingReported(signals);
    } else {
      var rest := m[1..];
      assert forall k :: 0 <= k < |rest| ==> rest[k] == m[k + 1];
      assert ScnOk(m[0]);
      IdentifiersDistinctIff(rest, signals, bus);
      var own, others := FieldVarbinds(m[0].name, m[0].fields, signals, bus), Reports(rest, signals, bus);
      DistinctAppend(own, others);
      FieldIdsDistinctIff(m[0].name, m[0].fields, signals, bus);
      forall a | 0 <= a < |others| ensures !HasId(own, others[a].name) {
        OtherScn(m[0], rest, signals, bus, others[a]);
      }
      FirstClash(m, signals);
    }
  }

  lemma OtherScn(scn: Scn, rest: Mapping, signals: Values, bus: Values, vb: Ber.VarBind)
    requires ScnOk(scn) && (forall k :: 0 <= k < |rest| ==> ScnOk(rest[k]) && rest[k].name != scn.name)
    requires vb in Reports(rest, signals, bus)
    ensures !HasId(FieldVarbinds(scn.name, scn.fields, signals, bus), vb.name)
  {
    hide FieldOk, FieldIn, ColumnOid, HasId, FieldVarbinds, Reports;
    ReportIn(rest, signals, bus, vb);
    var k, j :| IsReported(rest, signals, k, j) && vb == VarbindOf(rest[k].name, rest[k].fields[j], bus);
    FieldHasId(scn.name, scn.fields, signals, bus, rest[k].name, rest[k].fields[j].field);
  }

  lemma NothingReported(signals: Values)
    ensures !ClashReported([], signals)
  {}

  lemma FirstClash(m: Mapping, signals: Values)
    requires m != []
    ensures ClashReported(m, signals) <==> FieldClash(m[0].fields, signals) || ClashReported(m[1..], signals)
  {
    hide FieldClash;
    assert forall k :: 0 <= k < |m[1..]| ==> m[1..][k] == m[k + 1];
    if ClashReported(m, signals) && !FieldClash(m[0].fields, signals) {
      var k :| 0 <= k < |m| && FieldClash(m[k].fields, signals);
      assert m[1..][k - 1] == m[k];
    }
  }

  // ---- What a manager learns ----------------------------------------------------------------------

  /** A bit of a field of an SCN, by its indices in the mapping. */
  datatype Place = Place(scn: nat, field: nat, bit: nat)

  predicate IsPlace(m: Mapping, p: Place) {
    p.scn < |m| && p.field < |m[p.scn].fields| && p.bit < |m[p.scn].fields[p.field].bits|
  }

  function FieldOf(m: Mapping, p: Place): FieldMap
    requires IsPlace(m, p)
  {
    m[p.scn].fields[p.field]
  }

  function SignalAt(m: Mapping, p: Place): Signal
    requires IsPlace(m, p)
  {
    FieldOf(m, p).bits[p.bit].1
  }

  /** Every bit of a bitmask is reported, but only the first signal of any other field. */
  predicate Reportable(m: Mapping, p: Place)
    requires IsPlace(m, p)
  {
    IsBitmask(FieldOf(m, p).field) || p.bit == 0
  }

  /** What a manager should see at a place when the signal has that value on the bus. */
  function ShownAt(m: Mapping, p: Place, value: int): int
    requires IsPlace(m, p)
  {
    var read := Inverted(SignalAt(m, p), value);
    if IsBitmask(FieldOf(m, p).field) then read % 2 else read
  }

  /** What a manager reads at a place from the value of its field. */
  function Reading(m: Mapping, p: Place, value: Ber.Value): int
    requires IsPlace(m, p) && FieldOk(FieldOf(m, p))
  {
    match value
    case OctetValue(octets) =>
      if octets != [] && FieldOf(m, p).bits[p.bit].0 >= 1 then MaskWrite.BitOf(octets[0], FieldOf(m, p).bits[p.bit].0)
          else 0
    case IntValue(n) => n
    case _ => 0
  }

  lemma {:induction false} ReplyMaskBit(bits: Bits, bus: Values, j: nat)
    requires Shiftable(bits)
    requires forall i, k :: 0 <= i < k < |bits| ==> bits[i].0 != bits[k].0
    requires j < |bits|
    ensures MaskWrite.BitOf(ReplyMask(bits, bus), bits[j].0) == if ReadsOdd(bus, bits[j].1) then 1 else 0
  {
    hide ReadsOdd;
    var n := |bits| - 1;
    var front := bits[..n];
    var below := ReplyMask(front, bus);
    MaskWrite.BitOfWithBit(below, bits[n].0, bits[j].0);
    if j < n {
      assert front[j] == bits[j];
      ReplyMaskBit(front, bus, j);
    } else {
      ReplyMaskElsewhere(front, bus, bits[n].0);
    }
  }

  lemma {:induction false} ReplyMaskElsewhere(bits: Bits, bus: Values, b: nat)
    requires Shiftable(bits)
    requires b >= 1 && forall i :: 0 <= i < |bits| ==> bits[i].0 != b
    ensures MaskWrite.BitOf(ReplyMask(bits, bus), b) == 0
  {
    hide ReadsOdd;
    if bits == [] {
      MaskWrite.BitOfZero(b);
    } else {
      var n := |bits| - 1;
      ReplyMaskElsewhere(bits[..n], bus, b);
      MaskWrite.BitOfWithBit(ReplyMask(bits[..n], bus), bits[n].0, b);
    }
  }

  /** The identifier of the field of a place. */
  function IdAt(m: Mapping, p: Place): seq<nat>
    requires IsPlace(m, p)
  {
    ColumnOid(m[p.scn].name, FieldOf(m, p).field)
  }

  lemma ReportAt(m: Mapping, signals: Values, bus: Values, p: Place)
    requires MappingOk(m) && IsPlace(m, p) && FieldIn(FieldOf(m, p), signals)
    ensures FieldOk(FieldOf(m, p))
    ensures VarbindOf(m[p.scn].name, FieldOf(m, p), bus) in Reports(m, signals, bus)
  {
    hide Reports, FieldIn, ColumnOid;
    assert ScnOk(m[p.scn]);
    assert IsReported(m, signals, p.scn, p.field);
    ReportIn(m, signals, bus, VarbindOf(m[p.scn].name, FieldOf(m, p), bus));
  }

  lemma VarbindShows(m: Mapping, bus: Values, p: Place)
    requires IsPlace(m, p) && Reportable(m, p) && FieldOk(FieldOf(m, p)) && FieldFits(FieldOf(m, p), bus)
    ensures var vb := VarbindOf(m[p.scn].name, FieldOf(m, p), bus);
            vb.name == IdAt(m, p) && Reading(m, p, vb.value) == ShownAt(m, p, BusValue(bus, SignalAt(m, p).name))
  {
    hide ColumnOid;
    var f := FieldOf(m, p);
    if IsBitmask(f.field) {
      ReplyMaskBit(f.bits, bus, p.bit);
    }
  }

  /** The varbind tells, of the place, what the bus shows. */
  predicate TellsAt(m: Mapping, bus: Values, p: Place, vb: Ber.VarBind)
    requires IsPlace(m, p) && FieldOk(FieldOf(m, p))
  {
    vb.name == IdAt(m, p) && Reading(m, p, vb.value) == ShownAt(m, p, BusValue(bus, SignalAt(m, p).name))
  }

  /** Every reportable place of a signal that an INFORM is about is told in it: one of its varbinds has the identifier
      of the field, and what a manager reads from it at the place is what the bus shows.  Unless the INFORM reports both
      CA and GPn of an SCN, that is so of every varbind of the identifier. */
  lemma PlaceIsTold(m: Mapping, signals: Values, bus: Values, p: Place)
    requires MappingOk(m) && IsPlace(m, p) && Reportable(m, p) && FieldIn(FieldOf(m, p), signals)
    requires ReportsFit(m, signals, bus)
    ensures FieldOk(FieldOf(m, p))
    ensures var vbs := Varbinds(m, Groups(m, signals), bus);
            && (exists vb :: vb in vbs && TellsAt(m, bus, p, vb))
            && (!ClashReported(m, signals) ==>
                  forall vb :: vb in vbs && vb.name == IdAt(m, p) ==> TellsAt(m, bus, p, vb))
  {
    hide Varbinds, Reports, Groups, FieldIn, ColumnOid, Reading, ShownAt, FieldFits, VarbindOf, ClashReported;
    var vbs := Varbinds(m, Groups(m, signals), bus);
    var own := VarbindOf(m[p.scn].name, FieldOf(m, p), bus);
    VarbindsOfGroups(m, signals, bus);
    ReportAt(m, signals, bus, p);
    assert IsReported(m, signals, p.scn, p.field);
    VarbindShows(m, bus, p);
    assert TellsAt(m, bus, p, own);
    if !ClashReported(m, signals) {
      IdentifiersDistinctIff(m, signals, bus);
      forall vb | vb in vbs && vb.name == IdAt(m, p) ensures vb == own {
        var a := IndexOf(vbs, vb);
        var b := IndexOf(vbs, own);
        assert vbs[a].name == vbs[b].name;
      }
    }
  }

  lemma IndexOf(vbs: seq<Ber.VarBind>, vb: Ber.VarBind) returns (i: nat)
    requires vb in vbs
    ensures i < |vbs| && vbs[i] == vb
  {
    i :| 0 <= i < |vbs| && vbs[i] == vb;
  }

  /** Every bitmask that an INFORM about the signals reports fits its octet. */
  predicate ReportsFit(m: Mapping, signals: Values, bus: Values) {
    forall k, i :: 0 <= k < |m| && 0 <= i < |m[k].fields| && IsReported(m, signals, k, i)
        ==> FieldFits(m[k].fields[i], bus)
  }

  /** That is exactly when building its varbinds does not fail. */
  lemma {:induction false} GroupsFitIff(m: Mapping, signals: Values, bus: Values)
    requires MappingOk(m)
    ensures GroupsFit(m, Groups(m, signals), bus) <==> ReportsFit(m, signals, bus)
  {
    hide FieldsFit, ScnOk, FieldsOf, InGroup, Groups, FieldIn;
    var groups := Groups(m, signals);
    if GroupsFit(m, groups, bus) {
      forall k, i | IsReported(m, signals, k, i) ensures FieldFits(m[k].fields[i], bus) {
        ScnFits(m, signals, bus, k);
        var own := Group(m[k].name, InGroup(m[k], signals));
        GroupIn(m, signals, own);
        if InGroup(m[k], signals) != map[] {
          assert IsGroup(m, signals, own, k);
          var g :| 0 <= g < |groups| && groups[g] == own;
          assert FieldsFit(FieldsOf(m, groups[g].scn), groups[g].signals, bus);
        }
        FitsReported(m, signals, bus, k);
      }
    }
    if ReportsFit(m, signals, bus) {
      forall g | 0 <= g < |groups| ensures FieldsFit(FieldsOf(m, groups[g].scn), groups[g].signals, bus) {
        GroupIn(m, signals, groups[g]);
        var k :| IsGroup(m, signals, groups[g], k);
        ScnFits(m, signals, bus, k);
        FitsReported(m, signals, bus, k);
      }
    }
  }

  lemma FitsReported(m: Mapping, signals: Values, bus: Values, k: int)
    requires 0 <= k < |m|
    ensures FieldsFit(m[k].fields, signals, bus)
       <==> forall i :: IsReported(m, signals, k, i) ==> FieldFits(m[k].fields[i], bus)
  {
    hide FieldIn, FieldFits;
    if forall i :: IsReported(m, signals, k, i) ==> FieldFits(m[k].fields[i], bus) {
      forall i | 0 <= i < |m[k].fields| && FieldIn(m[k].fields[i], signals) ensures FieldFits(m[k].fields[i], bus) {
        assert IsReported(m, signals, k, i);
      }
    }
  }

  /** For the fields of an SCN, its group is as good as all the signals. */
  lemma ScnFits(m: Mapping, signals: Values, bus: Values, k: int)
    requires MappingOk(m) && 0 <= k < |m|
    ensures FieldsOf(m, m[k].name) == m[k].fields
    ensures FieldsFit(m[k].fields, InGroup(m[k], signals), bus) <==> FieldsFit(m[k].fields, signals, bus)
    ensures InGroup(m[k], signals) == map[] ==> FieldsFit(m[k].fields, signals, bus)
  {
    hide FieldIn, FieldFits, InGroup, FieldsOf, ScnOk;
    FieldsOfIndex(m, k);
    SameFields(m[k], signals);
    NothingIn(m[k].fields);
  }

  lemma NothingIn(fields: seq<FieldMap>)
    ensures forall i :: 0 <= i < |fields| ==> !FieldIn(fields[i], map[])
  {}

  lemma SameFields(scn: Scn, signals: Values)
    ensures forall i :: 0 <= i < |scn.fields|
              ==> (FieldIn(scn.fields[i], InGroup(scn, signals)) <==> FieldIn(scn.fields[i], signals))
  {
    forall i, j | 0 <= i < |scn.fields| && 0 <= j < |scn.fields[i].bits|
      ensures scn.fields[i].bits[j].1.name in InGroup(scn, signals) <==> scn.fields[i].bits[j].1.name in signals
    {
      assert InField(scn.fields[i], scn.fields[i].bits[j].1.name);
    }
  }

  /** The group of SCN k, which has signals among the given ones. */
  predicate IsGroup(m: Mapping, signals: Values, g: Group, k: int) {
    0 <= k < |m| && InGroup(m[k], signals) != map[] && g == Group(m[k].name, InGroup(m[k], signals))
  }

  lemma {:induction false} GroupIn(m: Mapping, signals: Values, g: Group)
    ensures g in Groups(m, signals) <==> exists k :: IsGroup(m, signals, g, k)
  {
    hide InGroup;
    if m != [] {
      GroupIn(m[1..], signals, g);
      if k :| IsGroup(m[1..], signals, g, k) {
        assert IsGroup(m, signals, g, k + 1);
      }
      if k :| IsGroup(m, signals, g, k) {
        assert k == 0 || IsGroup(m[1..], signals, g, k - 1);
      }
      assert IsGroup(m, signals, g, 0)
          <==> InGroup(m[0], signals) != map[] && g == Group(m[0].name, InGroup(m[0], signals));
    }
  }

  /** A field that is sent as an integer does not read negative. */
  predicate FieldEncodable(f: FieldMap, bus: Values) {
    !IsBitmask(f.field) && f.bits != [] ==> ReadSignal(bus, f.bits[0].1) >= 0
  }

  predicate Encodable(m: Mapping, signals: Values, bus: Values) {
    forall k, i :: 0 <= k < |m| && 0 <= i < |m[k].fields| && IsReported(m, signals, k, i) ==>
      FieldEncodable(m[k].fields[i], bus)
  }

  /** The INFORM can be built: every mask fits its octet, and every integer can be encoded. */
  predicate Builds(m: Mapping, signals: Values, bus: Values) {
    ReportsFit(m, signals, bus) && Encodable(m, signals, bus)
  }

  /** Every field of the mapping can be built from the bus. */
  predicate BusFits(m: Mapping, bus: Values) {
    forall k, i :: 0 <= k < |m| && 0 <= i < |m[k].fields| ==>
      FieldFits(m[k].fields[i], bus) && FieldEncodable(m[k].fields[i], bus)
  }

  lemma VarbindsGoodIff(m: Mapping, signals: Values, bus: Values)
    requires MappingOk(m)
    ensures (forall vb :: vb in Varbinds(m, Groups(m, signals), bus) ==> Ber.GoodVarBind(vb))
       <==> Encodable(m, signals, bus)
  {
    hide Varbinds, Reports, Groups, FieldIn, Column, ReplyOctet;
    VarbindsOfGroups(m, signals, bus);
    var vbs := Varbinds(m, Groups(m, signals), bus);
    if Encodable(m, signals, bus) {
      forall vb | vb in vbs ensures Ber.GoodVarBind(vb) {
        ReportIn(m, signals, bus, vb);
        var k, i :| IsReported(m, signals, k, i) && vb == VarbindOf(m[k].name, m[k].fields[i], bus);
        assert ScnOk(m[k]) && FieldOk(m[k].fields[i]);
      }
    }
    if forall vb :: vb in vbs ==> Ber.GoodVarBind(vb) {
      forall k, i | IsReported(m, signals, k, i) ensures FieldEncodable(m[k].fields[i], bus) {
        assert ScnOk(m[k]) && FieldOk(m[k].fields[i]);
        var vb := VarbindOf(m[k].name, m[k].fields[i], bus);
        ReportIn(m, signals, bus, vb);
        assert Ber.GoodVarBind(vb);
      }
    }
  }

  lemma FitsBuilds(m: Mapping, signals: Values, bus: Values)
    requires BusFits(m, bus)
    ensures Builds(m, signals, bus)
  {}

  /** The bus has 0 or 1 for every signal. */
  predicate Binary(bus: Values) {
    forall n :: n in bus ==> bus[n] == 0 || bus[n] == 1
  }

  /** The bits of every bitmask are those of one octet. */
  ghost predicate OctetsOnly(m: Mapping) {
    forall p :: IsPlace(m, p) && IsBitmask(FieldOf(m, p).field) ==> 1 <= FieldOf(m, p).bits[p.bit].0 <= 8
  }

  /** From every bus of 0/1 signals everything can be built exactly if the bits of every bitmask are 1 to 8. */
  lemma BinaryFitsIff(m: Mapping)
    requires MappingOk(m)
    ensures (forall bus :: Binary(bus) ==> BusFits(m, bus)) <==> OctetsOnly(m)
  {
    hide MaskFits, ReadsOdd;
    if OctetsOnly(m) {
      forall bus, k, i | Binary(bus) && 0 <= k < |m| && 0 <= i < |m[k].fields|
        ensures FieldFits(m[k].fields[i], bus) && FieldEncodable(m[k].fields[i], bus)
      {
        var f := m[k].fields[i];
        assert ScnOk(m[k]) && FieldOk(f);
        forall j | 0 <= j < |f.bits| && IsBitmask(f.field) ensures 1 <= f.bits[j].0 <= 8 {
          assert IsPlace(m, Place(k, i, j)) && FieldOf(m, Place(k, i, j)) == f;
        }
        MaskFitsIff(f.bits, bus);
      }
    } else {
      var p :| IsPlace(m, p) && IsBitmask(FieldOf(m, p).field) && !(1 <= FieldOf(m, p).bits[p.bit].0 <= 8);
      var f := FieldOf(m, p);
      var sig := f.bits[p.bit].1;
      var bus: Values := map[sig.name := if sig.inverted then 0 else 1];
      assert ScnOk(m[p.scn]) && FieldOk(f);
      MaskFitsIff(f.bits, bus);
      OddOn(sig);
      assert Binary(bus) && !FieldFits(f, bus);
    }
  }

  lemma OddOn(sig: Signal)
    ensures ReadsOdd(map[sig.name := if sig.inverted then 0 else 1], sig)
  {}

  /** A manager that decodes the packet of an INFORM gets its varbinds back, exactly if the packet has at most 65539
      octets. */
  lemma InformTells(m: Mapping, signals: Values, bus: Values, community: seq<byte>, requestId: nat, ticks: seq<byte>)
    requires MappingOk(m) && Builds(m, signals, bus)
    ensures GroupsFit(m, Groups(m, signals), bus)
    ensures var inform := Ber.Inform(community, requestId, ticks, Varbinds(m, Groups(m, signals), bus));
            && Ber.GoodMessage(inform)
            && (Ber.ReadsAs(Ber.EncodeMessage(inform), community, requestId, ticks,
                 Varbinds(m, Groups(m, signals), bus))
               <==> |Ber.EncodeMessage(inform)| <= 65539)
  {
    hide Varbinds, Groups, Encodable, ReportsFit, GroupsFit, Ber.ReadsAs, Ber.EncodeMessage;
    GroupsFitIff(m, signals, bus);
    VarbindsGoodIff(m, signals, bus);
    Ber.InformReads(community, requestId, ticks, Varbinds(m, Groups(m, signals), bus));
  }
}
