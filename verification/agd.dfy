/**
  The AGD detector service: zone signals written when they change, and "any" signals recomputed when
  something changed.

  FrameKeepsInv and FaultKeepsInv: after every frame and every fault the bus agrees with what the service
  remembers, and every "any" signal is the OR over all units and zones.  AbortedFrameIff says
  which malformed frames leave an "any" signal right, RepairIff which frames put it right again.
 */
module Agd {
  import opened Bytes

  // ---- Configuration ---------------------------------------------------------------------------------

  datatype Key = Detected | Class(suffix: string)
  datatype MapKey = UnitZone(unit: string, zone: int, key: Key) | AnyUnitZone(zone: int, key: Key) | AnyZone(key: Key)
  datatype Unit = Unit(id: string, zones: seq<int>)

  /** The mapping from zones to bus signals, and from class names to suffixes. */
  datatype Config = Config(units: seq<Unit>,
      mapping: map<MapKey, string>, classes: map<string, string>, suffixes: seq<string>)

  function Keys(c: Config): seq<Key> {
    [Detected] + seq(|c.suffixes|, i requires 0 <= i < |c.suffixes| => Class(c.suffixes[i]))
  }

  /** An entry for the unit takes precedence; an empty entry is none. */
  function Sig(c: Config, unit: string, zone: int, key: Key): Option<string> {
    var own, shared := UnitZone(unit, zone, key), AnyUnitZone(zone, key);
    if own in c.mapping && c.mapping[own] != "" then Some(c.mapping[own])
    else if shared in c.mapping && c.mapping[shared] != "" then Some(c.mapping[shared])
    else None
  }

  function AnySig(c: Config, key: Key): Option<string> {
    if AnyZone(key) in c.mapping && c.mapping[AnyZone(key)] != "" then Some(c.mapping[AnyZone(key)]) else None
  }

  /** A key of a zone goes to the signal of the unit's own entry, or, if that is missing or empty, to the one that all
      units share for the zone; a key's "any" signal has one entry. */
  lemma SignalIff(c: Config, unit: string, zone: int, key: Key, sig: string)
    ensures Sig(c, unit, zone, key) == Some(sig)
       <==> sig != ""
            && ((UnitZone(unit, zone, key) in c.mapping && c.mapping[UnitZone(unit, zone, key)] == sig)
                || ((UnitZone(unit, zone, key) in c.mapping ==> c.mapping[UnitZone(unit, zone, key)] == "")
                    && AnyUnitZone(zone, key) in c.mapping && c.mapping[AnyUnitZone(zone, key)] == sig))
    ensures AnySig(c, key) == Some(sig) <==> sig != "" && AnyZone(key) in c.mapping && c.mapping[AnyZone(key)] == sig
  {}

  predicate IsZone(c: Config, unit: string, zone: int) {
    exists i :: 0 <= i < |c.units| && c.units[i].id == unit && zone in c.units[i].zones
  }

  /** No signal stands for two things. */
  ghost predicate Separate(c: Config) {
    && (forall u, z, k, u', z', k' ::
          (IsZone(c, u, z) && k in Keys(c) && IsZone(c, u', z') && k' in Keys(c) && Sig(c, u, z, k).Some?
              && Sig(c, u, z, k) == Sig(c, u', z', k'))
          ==> u == u' && z == z' && k == k')
    && (forall u, z, k, g :: IsZone(c, u, z) && k in Keys(c) && g in Keys(c) && AnySig(c, g).Some?
          ==> Sig(c, u, z, k) != AnySig(c, g))
    && (forall g, g' :: g in Keys(c) && g' in Keys(c) && AnySig(c, g).Some? && AnySig(c, g) == AnySig(c, g')
          ==> g == g')
  }

  // ---- State and steps -------------------------------------------------------------------------------

  type Bus = map<string, int>
  type Zone = (string, int)

  /** The bus, and what the service remembers of each zone. */
  datatype State = State(bus: Bus, prev: map<Zone, map<Key, int>>)

  function Value(bus: Bus, sig: string): int {
    if sig in bus then bus[sig] else 0
  }

  /** A zone of a frame; a malformed one ends the processing of its frame. */
  datatype ZoneData = ZoneData(zone: int, state: int, users: seq<string>) | Malformed

  predicate Present(c: Config, users: seq<string>, suffix: string) {
    exists i :: 0 <= i < |users| && users[i] in c.classes && c.classes[users[i]] == suffix
  }

  function NewValue(c: Config, zd: ZoneData, key: Key): int
    requires zd.ZoneData?
  {
    match key
    case Detected => if zd.state == 1 then 1 else 0
    case Class(suffix) => if zd.state == 1 && Present(c, zd.users, suffix) then 1 else 0
  }

  function NewState(c: Config, zd: ZoneData): map<Key, int>
    requires zd.ZoneData?
  {
    map k | k in Keys(c) :: NewValue(c, zd, k)
  }

  function Remembered(s: State, zone: Zone): map<Key, int> {
    if zone in s.prev then s.prev[zone] else map[]
  }

  predicate Differs(before: map<Key, int>, after: map<Key, int>, k: Key) {
    k in after && !(k in before && before[k] == after[k])
  }

  predicate Changed(before: map<Key, int>, after: map<Key, int>, keys: seq<Key>) {
    exists i :: 0 <= i < |keys| && Differs(before, after, keys[i])
  }

  function WriteKey(c: Config, bus: Bus, zone: Zone, before: map<Key, int>, after: map<Key, int>, k: Key): Bus {
    if Differs(before, after, k) && Sig(c, zone.0, zone.1, k).Some?
        then bus[Sig(c, zone.0, zone.1, k).value := after[k]] else bus
  }

  function WriteKeys(c: Config, bus: Bus, zone: Zone,
        before: map<Key, int>, after: map<Key, int>, keys: seq<Key>): Bus {
    if keys == [] then bus
    else WriteKey(c, WriteKeys(c, bus, zone, before, after, keys[..|keys| - 1]), zone, before, after, keys[|keys| - 1])
  }

  function ZoneStep(c: Config, unit: Unit, s: State, zd: ZoneData): State
    requires zd.ZoneData?
  {
    var zone := (unit.id, zd.zone);
    var before, after := Remembered(s, zone), NewState(c, zd);
    if !ZoneChanges(c, unit, s, zd) then s
    else State(WriteKeys(c, s.bus, zone, before, after, Keys(c)), s.prev[zone := after])
  }

  predicate ZoneChanges(c: Config, unit: Unit, s: State, zd: ZoneData)
    requires zd.ZoneData?
  {
    zd.zone in unit.zones && Changed(Remembered(s, (unit.id, zd.zone)), NewState(c, zd), Keys(c))
  }

  /** The zones of a frame, up to a malformed one, and whether any of them changed. */
  function ZonesStep(c: Config, unit: Unit, s: State, zones: seq<ZoneData>): (State, bool)
    decreases |zones|
  {
    if zones == [] || zones[0].Malformed? then (s, false)
    else
      var (t, changed) := ZonesStep(c, unit, ZoneStep(c, unit, s, zones[0]), zones[1..]);
      (t, changed || ZoneChanges(c, unit, s, zones[0]))
  }

  predicate Aborted(zones: seq<ZoneData>) {
    exists i :: 0 <= i < |zones| && zones[i].Malformed?
  }

  /** Whether some zone and unit has the key on. */
  predicate AnyOn(c: Config, bus: Bus, k: Key) {
    exists i, j :: 0 <= i < |c.units| && 0 <= j < |c.units[i].zones|
        && ReadZone(c, bus, c.units[i].id, c.units[i].zones[j], k) != 0
  }

  function ReadZone(c: Config, bus: Bus, unit: string, zone: int, k: Key): int {
    if Sig(c, unit, zone, k).Some? then Value(bus, Sig(c, unit, zone, k).value) else 0
  }

  function UpdateGlobal(c: Config, bus: Bus, k: Key): Bus {
    if AnySig(c, k).Some? then bus[AnySig(c, k).value := if AnyOn(c, bus, k) then 1 else 0] else bus
  }

  function UpdateGlobals(c: Config, bus: Bus, keys: seq<Key>): Bus {
    if keys == [] then bus else UpdateGlobal(c, UpdateGlobals(c, bus, keys[..|keys| - 1]), keys[|keys| - 1])
  }

  function FrameStep(c: Config, unit: Unit, s: State, zones: seq<ZoneData>): State {
    var (t, changed) := ZonesStep(c, unit, s, zones);
    if Aborted(zones) || !changed then t else t.(bus := UpdateGlobals(c, t.bus, Keys(c)))
  }

  function ZeroKeys(c: Config, bus: Bus, zone: Zone, keys: seq<Key>): Bus {
    if keys == [] then bus
    else
      var b := ZeroKeys(c, bus, zone, keys[..|keys| - 1]);
      var sig := Sig(c, zone.0, zone.1, keys[|keys| - 1]);
      if sig.Some? then b[sig.value := 0] else b
  }

  function ZeroZones(c: Config, s: State, unit: string, zones: seq<int>): State {
    if zones == [] then s
    else
      var t := ZeroZones(c, s, unit, zones[..|zones| - 1]);
      var zone := (unit, zones[|zones| - 1]);
      State(ZeroKeys(c, t.bus, zone, Keys(c)), t.prev - {zone})
  }

  function FaultStep(c: Config, unit: Unit, s: State): State {
    var t := ZeroZones(c, s, unit.id, unit.zones);
    t.(bus := UpdateGlobals(c, t.bus, Keys(c)))
  }

  // ---- The service -----------------------------------------------------------------------------------

  class Service {
    const config: Config
    var bus: Bus
    var prev: map<Zone, map<Key, int>>

    ghost function Now(): State
      reads this
    {
      State(bus, prev)
    }

    constructor (config: Config)
      ensures this.config == config && Now() == State(map[], map[])
    {
      this.config := config;
      bus, prev := map[], map[];
    }

    method ProcessZone(unit: Unit, zd: ZoneData) returns (changed: bool)
      requires zd.ZoneData?
      modifies this
      ensures Now() == ZoneStep(config, unit, old(Now()), zd)
      ensures changed == ZoneChanges(config, unit, old(Now()), zd)
    {
      hide Sig, NewState, Changed, WriteKeys;
      if zd.zone !in unit.zones {
        return false;
      }
      var zone := (unit.id, zd.zone);
      var before := if zone in prev then prev[zone] else map[];
      var after := NewState(config, zd);
      var keys := Keys(config);
      changed := false;
      PrefixSteps(config, bus, zone, before, after, keys, 0);
      for i := 0 to |keys|
        invariant prev == old(prev)
        invariant bus == WriteKeys(config, old(bus), zone, before, after, keys[..i])
        invariant changed == Changed(before, after, keys[..i])
        invariant !changed ==> bus == old(bus)
      {
        var k := keys[i];
        PrefixSteps(config, old(bus), zone, before, after, keys, i + 1);
        InNewState(config, zd, i);
        if !(k in before && before[k] == after[k]) {
          var sig := Sig(config, unit.id, zd.zone, k);
          if sig.Some? {
            bus := bus[sig.value := after[k]];
          }
          changed := true;
        }
      }
      assert keys[..|keys|] == keys;
      if changed {
        prev := prev[zone := after];
      }
    }

    method Recompute()
      modifies `bus
      ensures bus == UpdateGlobals(config, old(bus), Keys(config))
    {
      hide Sig, AnyOn;
      var keys := Keys(config);
      for i := 0 to |keys|
        invariant bus == UpdateGlobals(config, old(bus), keys[..i])
      {
        assert keys[..i + 1][..i] == keys[..i];
        var sig := AnySig(config, keys[i]);
        if sig.Some? {
          var on := false;
          for u := 0 to |config.units|
            invariant on <==> OnBefore(config, bus, keys[i], u, 0)
          {
            for z := 0 to |config.units[u].zones|
              invariant on <==> OnBefore(config, bus, keys[i], u, z)
            {
              on := on || ReadZone(config, bus, config.units[u].id, config.units[u].zones[z], keys[i]) != 0;
            }
          }
          AnyOnMeans(config, bus, keys[i]);
          bus := bus[sig.value := if on then 1 else 0];
        }
      }
      assert keys[..|keys|] == keys;
    }

    method ProcessFrame(unit: Unit, zones: seq<ZoneData>)
      modifies this
      ensures Now() == FrameStep(config, unit, old(Now()), zones)
    {
      hide ZoneStep, ZoneChanges, UpdateGlobals;
      var changedAny := false;
      for i := 0 to |zones|
        invariant forall j :: 0 <= j < i ==> !zones[j].Malformed?
        invariant (var (t, changed) := ZonesStep(config, unit, Now(), zones[i..]); (t, changed || changedAny))
               == ZonesStep(config, unit, old(Now()), zones)
      {
        assert zones[i..][0] == zones[i] && zones[i..][1..] == zones[i + 1..];
        if zones[i].Malformed? {
          return;
        }
        var changed := ProcessZone(unit, zones[i]);
        changedAny := changedAny || changed;
      }
      if changedAny {
        Recompute();
      }
    }

    method ZeroUnit(unit: Unit)
      modifies this
      ensures Now() == FaultStep(config, unit, old(Now()))
    {
      hide Sig, UpdateGlobals;
      for i := 0 to |unit.zones|
        invariant Now() == ZeroZones(config, old(Now()), unit.id, unit.zones[..i])
      {
        assert unit.zones[..i + 1][..i] == unit.zones[..i];
        var zone := (unit.id, unit.zones[i]);
        var keys := Keys(config);
        ghost var start := bus;
        for k := 0 to |keys|
          invariant prev == ZeroZones(config, old(Now()), unit.id, unit.zones[..i]).prev
          invariant bus == ZeroKeys(config, start, zone, keys[..k])
        {
          assert keys[..k + 1][..k] == keys[..k];
          var sig := Sig(config, unit.id, unit.zones[i], keys[k]);
          if sig.Some? {
            bus := bus[sig.value := 0];
          }
        }
        assert keys[..|keys|] == keys;
        prev := prev - {zone};
      }
      assert unit.zones[..|unit.zones|] == unit.zones;
      Recompute();
    }
  }

  /** Whether one of the first u units, or one of the first z zones of the next, has the key on. */
  predicate OnBefore(c: Config, bus: Bus, k: Key, u: nat, z: nat)
    requires u <= |c.units| && (u < |c.units| ==> z <= |c.units[u].zones|) && (u == |c.units| ==> z == 0)
  {
    || (exists i, j :: 0 <= i < u && 0 <= j < |c.units[i].zones|
          && ReadZone(c, bus, c.units[i].id, c.units[i].zones[j], k) != 0)
    || (exists j :: 0 <= j < z && ReadZone(c, bus, c.units[u].id, c.units[u].zones[j], k) != 0)
  }

  lemma AnyOnMeans(c: Config, bus: Bus, k: Key)
    ensures AnyOn(c, bus, k) <==> OnBefore(c, bus, k, |c.units|, 0)
  {}

  lemma PrefixSteps(c: Config, bus: Bus, zone: Zone, before: map<Key, int>, after: map<Key, int>, keys: seq<Key>,
        i: nat)
    requires i <= |keys|
    ensures i == 0 ==> WriteKeys(c, bus, zone, before, after, keys[..0]) == bus && !Changed(before, after, keys[..0])
    ensures i > 0 ==> WriteKeys(c, bus, zone, before, after, keys[..i])
                      == WriteKey(c, WriteKeys(c, bus, zone, before, after, keys[..i - 1]), zone, before, after,
                           keys[i - 1])
    ensures i > 0
        ==> (Changed(before, after, keys[..i])
            <==> Changed(before, after, keys[..i - 1]) || Differs(before, after, keys[i - 1]))
  {
    hide Sig, Differs;
    if i > 0 {
      assert keys[..i][..i - 1] == keys[..i - 1];
      assert keys[..i][i - 1] == keys[i - 1];
      assert forall j :: 0 <= j < i - 1 ==> keys[..i][j] == keys[..i - 1][j];
    }
  }

  lemma InNewState(c: Config, zd: ZoneData, i: nat)
    requires zd.ZoneData? && i < |Keys(c)|
    ensures Keys(c)[i] in NewState(c, zd)
  {}

  // ---- What every step keeps ---------------------------------------------------------------------------

  /** What the service takes the bus to show for a key of a zone. */
  function Expected(s: State, zone: Zone, k: Key): int {
    if zone in s.prev && k in s.prev[zone] then s.prev[zone][k] else 0
  }

  ghost predicate ZonesAgree(c: Config, s: State) {
    forall u, z, k :: IsZone(c, u, z) && k in Keys(c) && Sig(c, u, z, k).Some?
      ==> Value(s.bus, Sig(c, u, z, k).value) == Expected(s, (u, z), k)
  }

  /** An "any" signal is the OR over all units and zones. */
  predicate AnyAgrees(c: Config, bus: Bus, k: Key) {
    AnySig(c, k).Some? ==> Value(bus, AnySig(c, k).value) == if AnyOn(c, bus, k) then 1 else 0
  }

  ghost predicate Inv(c: Config, s: State) {
    ZonesAgree(c, s) && forall k :: k in Keys(c) ==> AnyAgrees(c, s.bus, k)
  }

  /** A signal is written exactly for the keys that differ and are mapped to it. */
  predicate Writes(c: Config, zone: Zone, before: map<Key, int>, after: map<Key, int>, k: Key, sig: string) {
    Differs(before, after, k) && Sig(c, zone.0, zone.1, k) == Some(sig)
  }

  ghost predicate OwnKeys(c: Config, zone: Zone) {
    forall k, k' ::
      (k in Keys(c) && k' in Keys(c) && Sig(c, zone.0, zone.1, k).Some?
        && Sig(c, zone.0, zone.1, k) == Sig(c, zone.0, zone.1, k')) ==> k == k'
  }

  lemma {:induction false} WriteKeysEffect(c: Config, bus: Bus, zone: Zone, before: map<Key, int>,
        after: map<Key, int>, keys: seq<Key>, sig: string)
    requires OwnKeys(c, zone) && forall i :: 0 <= i < |keys| ==> keys[i] in Keys(c)
    ensures forall k :: k in keys && Writes(c, zone, before, after, k, sig)
              ==> Value(WriteKeys(c, bus, zone, before, after, keys), sig) == after[k]
    ensures (forall k :: k in keys ==> !Writes(c, zone, before, after, k, sig))
        ==> Value(WriteKeys(c, bus, zone, before, after, keys), sig) == Value(bus, sig)
    decreases |keys|
  {
    hide Sig, Differs, Keys;
    if keys != [] {
      var front, last := keys[..|keys| - 1], keys[|keys| - 1];
      WriteKeysEffect(c, bus, zone, before, after, front, sig);
      assert forall k :: k in keys <==> k in front || k == last;
      assert last in keys;
    }
  }

  lemma SeparateKeys(c: Config, zone: Zone)
    requires Separate(c) && IsZone(c, zone.0, zone.1)
    ensures OwnKeys(c, zone)
  {
    hide Sig, Keys, IsZone;
  }

  lemma KeysOf(c: Config, zd: ZoneData)
    requires zd.ZoneData?
    ensures forall k :: k in Keys(c) <==> k in NewState(c, zd)
  {}

  lemma ZoneStepAgrees(c: Config, unit: Unit, s: State, zd: ZoneData)
    requires Separate(c) && unit in c.units && zd.ZoneData? && ZonesAgree(c, s)
    ensures ZonesAgree(c, ZoneStep(c, unit, s, zd))
  {
    hide Keys, Sig, IsZone, WriteKeys, NewState, Separate, Changed;
    var t := ZoneStep(c, unit, s, zd);
    if ZoneChanges(c, unit, s, zd) {
      var zone := (unit.id, zd.zone);
      var before, after := Remembered(s, zone), NewState(c, zd);
      UnitZoneIs(c, unit, zd.zone);
      SeparateKeys(c, zone);
      KeysOf(c, zd);
      forall u, z, k | IsZone(c, u, z) && k in Keys(c) && Sig(c, u, z, k).Some?
        ensures Value(t.bus, Sig(c, u, z, k).value) == Expected(t, (u, z), k)
      {
        var sig := Sig(c, u, z, k).value;
        WriteKeysEffect(c, s.bus, zone, before, after, Keys(c), sig);
        if (u, z) == zone {
          if !Writes(c, zone, before, after, k, sig) {
            OnlyOwnKey(c, zone, before, after, k);
          }
        } else {
          OtherZone(c, zone, before, after, u, z, k);
        }
      }
    }
  }

  lemma UnitZoneIs(c: Config, unit: Unit, zone: int)
    requires unit in c.units && zone in unit.zones
    ensures IsZone(c, unit.id, zone)
  {}

  lemma OnlyOwnKey(c: Config, zone: Zone, before: map<Key, int>, after: map<Key, int>, k: Key)
    requires OwnKeys(c, zone) && k in Keys(c) && Sig(c, zone.0, zone.1, k).Some?
    requires !Writes(c, zone, before, after, k, Sig(c, zone.0, zone.1, k).value)
    ensures forall k' :: k' in Keys(c) ==> !Writes(c, zone, before, after, k', Sig(c, zone.0, zone.1, k).value)
  {
    hide Keys, Sig;
  }

  lemma OtherZone(c: Config, zone: Zone, before: map<Key, int>, after: map<Key, int>, u: string, z: int, k: Key)
    requires Separate(c) && IsZone(c, zone.0, zone.1) && IsZone(c, u, z) && k in Keys(c) && Sig(c, u, z, k).Some?
        && (u, z) != zone
    ensures forall k' :: k' in Keys(c) ==> !Writes(c, zone, before, after, k', Sig(c, u, z, k).value)
  {
    hide Keys, Sig, IsZone;
  }

  lemma {:induction false} ZonesStepAgrees(c: Config, unit: Unit, s: State, zones: seq<ZoneData>)
    requires Separate(c) && unit in c.units && ZonesAgree(c, s)
    ensures var (t, changed) := ZonesStep(c, unit, s, zones);
            ZonesAgree(c, t) && (!changed ==> t == s)
    decreases |zones|
  {
    hide ZonesAgree, Separate;
    if zones != [] && zones[0].ZoneData? {
      ZoneStepAgrees(c, unit, s, zones[0]);
      ZonesStepAgrees(c, unit, ZoneStep(c, unit, s, zones[0]), zones[1..]);
    }
  }

  /** Writing "any" signals changes no zone's signal, and so no OR. */
  lemma {:induction false} GlobalsEffect(c: Config, bus: Bus, keys: seq<Key>)
    requires Separate(c) && forall i :: 0 <= i < |keys| ==> keys[i] in Keys(c)
    ensures var after := UpdateGlobals(c, bus, keys);
            && (forall u, z, k :: IsZone(c, u, z) && k in Keys(c) && Sig(c, u, z, k).Some?
                  ==> Value(after, Sig(c, u, z, k).value) == Value(bus, Sig(c, u, z, k).value))
            && (forall k :: k in keys ==> AnyAgrees(c, after, k))
            && (forall k :: k in Keys(c) ==> (AnyOn(c, after, k) <==> AnyOn(c, bus, k)))
    decreases |keys|
  {
    hide Sig, AnySig, Keys, IsZone, AnyOn;
    if keys != [] {
      var front, last := keys[..|keys| - 1], keys[|keys| - 1];
      GlobalsEffect(c, bus, front);
      var mid, after := UpdateGlobals(c, bus, front), UpdateGlobals(c, bus, keys);
      assert last in Keys(c);
      forall k | k in Keys(c) ensures AnyOn(c, after, k) <==> AnyOn(c, bus, k) {
        SameOr(c, bus, after, k);
      }
      SameOr(c, mid, after, last);
      forall k | k in keys ensures AnyAgrees(c, after, k) {
        assert k in front || k == last;
        SameOr(c, mid, after, k);
      }
    }
  }

  lemma SameOr(c: Config, bus: Bus, after: Bus, k: Key)
    requires k in Keys(c)
    requires forall u, z :: IsZone(c, u, z) && Sig(c, u, z, k).Some?
               ==> Value(after, Sig(c, u, z, k).value) == Value(bus, Sig(c, u, z, k).value)
    ensures AnyOn(c, after, k) <==> AnyOn(c, bus, k)
  {
    hide Sig, Keys, Value;
    forall i, j | 0 <= i < |c.units| && 0 <= j < |c.units[i].zones|
      ensures ReadZone(c, after, c.units[i].id, c.units[i].zones[j], k)
         == ReadZone(c, bus, c.units[i].id, c.units[i].zones[j], k)
    {
      UnitZoneIs(c, c.units[i], c.units[i].zones[j]);
    }
  }

  lemma GlobalsKeepInv(c: Config, s: State)
    requires Separate(c) && ZonesAgree(c, s)
    ensures Inv(c, s.(bus := UpdateGlobals(c, s.bus, Keys(c))))
  {
    hide Sig, AnySig, Keys, IsZone, AnyOn, AnyAgrees, UpdateGlobals;
    GlobalsEffect(c, s.bus, Keys(c));
  }

  /** After a well-formed frame the bus agrees with what is remembered, and every "any" signal with the zones, although
      the latter are recomputed only when something changed. */
  lemma FrameKeepsInv(c: Config, unit: Unit, s: State, zones: seq<ZoneData>)
    requires Separate(c) && unit in c.units && Inv(c, s) && !Aborted(zones)
    ensures Inv(c, FrameStep(c, unit, s, zones))
  {
    hide ZonesStep, Separate, ZonesAgree, AnyAgrees, UpdateGlobals, Aborted, Keys;
    ZonesStepAgrees(c, unit, s, zones);
    GlobalsKeepInv(c, ZonesStep(c, unit, s, zones).0);
  }

  // ---- Malformed frames -----------------------------------------------------------------------------------

  /** What a frame says of a zone: its last entry before a malformed one. */
  function LastEntry(unit: Unit, zones: seq<ZoneData>, zone: int): Option<ZoneData>
    decreases |zones|
  {
    if zones == [] || zones[0].Malformed? then None
    else
      var later := LastEntry(unit, zones[1..], zone);
      if later.Some? then later
      else if zones[0].zone == zone && zone in unit.zones then Some(zones[0])
      else None
  }

  lemma {:induction false} LastEntryIs(unit: Unit, zones: seq<ZoneData>, zone: int)
    ensures LastEntry(unit, zones, zone).Some? ==> LastEntry(unit, zones, zone).value.ZoneData?
    decreases |zones|
  {
    if zones != [] && zones[0].ZoneData? {
      LastEntryIs(unit, zones[1..], zone);
    }
  }

  lemma {:induction false} LastEntryAt(unit: Unit, zones: seq<ZoneData>, i: nat)
    requires !Aborted(zones) && i < |zones| && zones[i].ZoneData? && zones[i].zone in unit.zones
    requires forall j :: i < j < |zones| && zones[j].ZoneData? ==> zones[j].zone != zones[i].zone
    ensures LastEntry(unit, zones, zones[i].zone) == Some(zones[i])
    decreases |zones|
  {
    var rest := zones[1..];
    assert zones[0].ZoneData?;
    assert forall j :: 0 <= j < |rest| ==> rest[j] == zones[j + 1];
    if i > 0 {
      LastEntryAt(unit, rest, i - 1);
    } else {
      NoEntry(unit, rest, zones[0].zone);
    }
  }

  lemma {:induction false} NoEntry(unit: Unit, zones: seq<ZoneData>, zone: int)
    requires forall j :: 0 <= j < |zones| && zones[j].ZoneData? ==> zones[j].zone != zone
    ensures LastEntry(unit, zones, zone) == None
    decreases |zones|
  {
    if zones != [] {
      assert forall j :: 0 <= j < |zones[1..]| ==> zones[1..][j] == zones[j + 1];
      NoEntry(unit, zones[1..], zone);
    }
  }

  /** What a frame makes of a key of a zone: what it says of it, or what was remembered. */
  function Announced(c: Config, unit: Unit, s: State, zones: seq<ZoneData>, zone: Zone, k: Key): int {
    LastEntryIs(unit, zones, zone.1);
    var entry := LastEntry(unit, zones, zone.1);
    if zone.0 == unit.id && entry.Some? then NewValue(c, entry.value, k) else Expected(s, zone, k)
  }

  /** Whether the key is on in some mapped zone, as far as is remembered. */
  predicate OnRemembered(c: Config, s: State, k: Key) {
    exists i, j :: 0 <= i < |c.units| && 0 <= j < |c.units[i].zones|
        && Sig(c, c.units[i].id, c.units[i].zones[j], k).Some?
      && Expected(s, (c.units[i].id, c.units[i].zones[j]), k) != 0
  }

  /** Whether it is, as the frame has it. */
  predicate OnAnnounced(c: Config, unit: Unit, s: State, zones: seq<ZoneData>, k: Key) {
    exists i, j :: 0 <= i < |c.units| && 0 <= j < |c.units[i].zones|
        && Sig(c, c.units[i].id, c.units[i].zones[j], k).Some?
      && Announced(c, unit, s, zones, (c.units[i].id, c.units[i].zones[j]), k) != 0
  }

  lemma ZoneStepRemembers(c: Config, unit: Unit, s: State, zd: ZoneData, zone: Zone, k: Key)
    requires zd.ZoneData? && k in Keys(c)
    ensures Expected(ZoneStep(c, unit, s, zd), zone, k)
         == if zone == (unit.id, zd.zone) && zd.zone in unit.zones then NewValue(c, zd, k) else Expected(s, zone, k)
  {
    hide Sig, WriteKeys, NewValue, Keys;
    KeysOf(c, zd);
    NewStateOf(c, zd, k);
    var at := (unit.id, zd.zone);
    if zd.zone in unit.zones && !ZoneChanges(c, unit, s, zd) {
      NoneDiffers(Remembered(s, at), NewState(c, zd), Keys(c), k);
    }
  }

  lemma NewStateOf(c: Config, zd: ZoneData, k: Key)
    requires zd.ZoneData? && k in Keys(c)
    ensures k in NewState(c, zd) && NewState(c, zd)[k] == NewValue(c, zd, k)
  {}

  lemma NoneDiffers(before: map<Key, int>, after: map<Key, int>, keys: seq<Key>, k: Key)
    requires !Changed(before, after, keys) && k in keys
    ensures !Differs(before, after, k)
  {}

  /** After the zones of a frame have been processed, the memory is what the frame announced. */
  lemma {:induction false} ZonesStepRemembers(c: Config, unit: Unit, s: State, zones: seq<ZoneData>, zone: Zone, k: Key)
    requires k in Keys(c)
    ensures Expected(ZonesStep(c, unit, s, zones).0, zone, k) == Announced(c, unit, s, zones, zone, k)
    decreases |zones|
  {
    hide ZoneStep, Keys, Expected, NewValue;
    if zones != [] && zones[0].ZoneData? {
      ZonesStepRemembers(c, unit, ZoneStep(c, unit, s, zones[0]), zones[1..], zone, k);
      ZoneStepRemembers(c, unit, s, zones[0], zone, k);
    }
  }

  /** While bus and memory agree, an OR over the bus is an OR over the memory. */
  lemma OrIsRemembered(c: Config, s: State, k: Key)
    requires ZonesAgree(c, s) && k in Keys(c)
    ensures AnyOn(c, s.bus, k) <==> OnRemembered(c, s, k)
  {
    hide Keys, Sig, Value, Expected;
    forall i, j | 0 <= i < |c.units| && 0 <= j < |c.units[i].zones|
      ensures ReadZone(c, s.bus, c.units[i].id, c.units[i].zones[j], k)
              == if Sig(c, c.units[i].id, c.units[i].zones[j], k).Some?
                   then Expected(s, (c.units[i].id, c.units[i].zones[j]), k) else 0
    {
      UnitZoneIs(c, c.units[i], c.units[i].zones[j]);
    }
  }

  lemma OrIsAnnounced(c: Config, unit: Unit, s: State, zones: seq<ZoneData>, k: Key)
    requires k in Keys(c)
    ensures OnRemembered(c, ZonesStep(c, unit, s, zones).0, k) <==> OnAnnounced(c, unit, s, zones, k)
  {
    hide Keys, Sig, ZonesStep, Expected, Announced;
    forall i, j | 0 <= i < |c.units| && 0 <= j < |c.units[i].zones|
      ensures Expected(ZonesStep(c, unit, s, zones).0, (c.units[i].id, c.units[i].zones[j]), k)
              == Announced(c, unit, s, zones, (c.units[i].id, c.units[i].zones[j]), k)
    {
      ZonesStepRemembers(c, unit, s, zones, (c.units[i].id, c.units[i].zones[j]), k);
    }
  }

  /** After a well-formed frame a zone's signals show its last entry: detection is its state 1, and a class is on if it
      is detected and a road user of that class is in it. */
  lemma FrameShows(c: Config, unit: Unit, s: State, zones: seq<ZoneData>, i: nat, suffix: string)
    requires Separate(c) && unit in c.units && ZonesAgree(c, s) && !Aborted(zones)
    requires i < |zones| && zones[i].ZoneData? && zones[i].zone in unit.zones
    requires forall j :: i < j < |zones| && zones[j].ZoneData? ==> zones[j].zone != zones[i].zone
    ensures var bus, sig := FrameStep(c, unit, s, zones).bus, Sig(c, unit.id, zones[i].zone, Detected);
            sig.Some? ==> Value(bus, sig.value) == if zones[i].state == 1 then 1 else 0
    ensures var bus, sig := FrameStep(c, unit, s, zones).bus, Sig(c, unit.id, zones[i].zone, Class(suffix));
            suffix in c.suffixes && sig.Some? ==>
              (Value(bus, sig.value) == if zones[i].state == 1 && HasClass(c, zones[i].users, suffix) then 1 else 0)
  {
    hide ZonesStep, Separate, UpdateGlobals, Aborted, Sig;
    LastEntryAt(unit, zones, i);
    ZonesStepAgrees(c, unit, s, zones);
    GlobalsKeepInv(c, ZonesStep(c, unit, s, zones).0);
    assert ZonesAgree(c, FrameStep(c, unit, s, zones));
    var j :| 0 <= j < |c.units| && c.units[j] == unit;
    assert IsZone(c, unit.id, zones[i].zone);
    assert Detected in Keys(c);
    ZonesStepRemembers(c, unit, s, zones, (unit.id, zones[i].zone), Detected);
    if suffix in c.suffixes {
      var n :| 0 <= n < |c.suffixes| && c.suffixes[n] == suffix;
      assert Keys(c)[n + 1] == Class(suffix);
      ZonesStepRemembers(c, unit, s, zones, (unit.id, zones[i].zone), Class(suffix));
    }
  }

  /** A user of a class with that suffix is among them. */
  ghost predicate HasClass(c: Config, users: seq<string>, suffix: string) {
    exists user :: user in users && user in c.classes && c.classes[user] == suffix
  }

  /** A frame that is cut short by a malformed zone leaves an "any" signal right exactly if what it announced before
      that zone does not change the OR. */
  lemma AbortedFrameIff(c: Config, unit: Unit, s: State, zones: seq<ZoneData>, k: Key)
    requires Separate(c) && unit in c.units && Inv(c, s) && Aborted(zones) && k in Keys(c) && AnySig(c, k).Some?
    ensures var t := FrameStep(c, unit, s, zones);
            ZonesAgree(c, t)
                && (AnyAgrees(c, t.bus, k) <==> (OnAnnounced(c, unit, s, zones, k) <==> OnRemembered(c, s, k)))
  {
    hide ZonesStep, ZonesAgree, UpdateGlobals, Aborted, Keys, AnyOn, IsZone, Sig, AnySig, Separate, OnAnnounced,
        OnRemembered;
    ZonesStepAgrees(c, unit, s, zones);
    var t := ZonesStep(c, unit, s, zones).0;
    ZonesLeaveAny(c, unit, s, zones, k);
    OrIsRemembered(c, s, k);
    OrIsRemembered(c, t, k);
    OrIsAnnounced(c, unit, s, zones, k);
  }

  /** The first detection of all, in a frame that ends with a malformed zone, is not seen in its "any" signal. */
  lemma AbortedDetection(c: Config, unit: Unit, zone: int)
    requires Separate(c) && unit in c.units && zone in unit.zones
    requires Sig(c, unit.id, zone, Detected).Some? && AnySig(c, Detected).Some?
    ensures var t := FrameStep(c, unit, State(map[], map[]), [ZoneData(zone, 1, []), Malformed]);
            AnyOn(c, t.bus, Detected) && !AnyAgrees(c, t.bus, Detected)
  {
    hide Separate, Sig, AnySig, Inv, FrameStep;
    var s, zones := State(map[], map[]), [ZoneData(zone, 1, []), Malformed];
    StartKeepsInv(c);
    assert zones[1].Malformed?;
    assert Detected in Keys(c);
    AbortedFrameIff(c, unit, s, zones, Detected);
    assert zones[1..] == [Malformed];
    assert LastEntry(unit, zones, zone) == Some(zones[0]);
    assert Announced(c, unit, s, zones, (unit.id, zone), Detected) == 1;
    var i :| 0 <= i < |c.units| && c.units[i] == unit;
    var j :| 0 <= j < |unit.zones| && unit.zones[j] == zone;
    assert OnAnnounced(c, unit, s, zones, Detected);
    assert !OnRemembered(c, s, Detected);
    AnyWrong(c, FrameStep(c, unit, s, zones), unit, s, zones);
  }

  lemma AnyWrong(c: Config, t: State, unit: Unit, s: State, zones: seq<ZoneData>)
    requires t == FrameStep(c, unit, s, zones) && Aborted(zones) && ZonesAgree(c, t) && Detected in Keys(c)
    requires OnAnnounced(c, unit, s, zones, Detected)
    ensures AnyOn(c, t.bus, Detected)
  {
    hide ZonesStep, ZonesAgree, AnyOn, OnAnnounced, OnRemembered, Keys, Aborted;
    OrIsRemembered(c, t, Detected);
    OrIsAnnounced(c, unit, s, zones, Detected);
  }

  /** An entry changes something exactly if its zone is one of the unit's, and some key has a value that is not the one
      remembered; nothing at all is remembered of a new zone. */
  lemma ZoneChangesIff(c: Config, unit: Unit, s: State, zd: ZoneData)
    requires zd.ZoneData?
    ensures ZoneChanges(c, unit, s, zd)
       <==> zd.zone in unit.zones
            && ((unit.id, zd.zone) !in s.prev
                || exists k :: k in Keys(c)
                     && !(k in s.prev[(unit.id, zd.zone)] && s.prev[(unit.id, zd.zone)][k] == NewValue(c, zd, k)))
  {
    hide NewValue;
    assert Keys(c)[0] == Detected;
    if k :| k in Keys(c) && Differs(Remembered(s, (unit.id, zd.zone)), NewState(c, zd), k) {
      var i :| 0 <= i < |Keys(c)| && Keys(c)[i] == k;
    }
    if (unit.id, zd.zone) in s.prev {
      forall k | k in Keys(c)
        ensures Differs(Remembered(s, (unit.id, zd.zone)), NewState(c, zd), k)
           <==> !(k in s.prev[(unit.id, zd.zone)] && s.prev[(unit.id, zd.zone)][k] == NewValue(c, zd, k))
      {}
    }
  }

  /** A frame changes something exactly if one of its entries, on its own, would. */
  lemma {:induction false} FrameChangesIff(c: Config, unit: Unit, s: State, zones: seq<ZoneData>)
    requires !Aborted(zones)
    ensures ZonesStep(c, unit, s, zones).1
       <==> exists i :: 0 <= i < |zones| && zones[i].ZoneData? && ZoneChanges(c, unit, s, zones[i])
    decreases |zones|
  {
    hide ZoneChanges, ZoneStep;
    if zones != [] {
      assert zones[0].ZoneData?;
      assert forall i :: 0 <= i < |zones[1..]| ==> zones[1..][i] == zones[i + 1];
      assert !Aborted(zones[1..]);
      if !ZoneChanges(c, unit, s, zones[0]) {
        QuietZone(c, unit, s, zones[0]);
        FrameChangesIff(c, unit, s, zones[1..]);
        if exists i :: 0 <= i < |zones| && zones[i].ZoneData? && ZoneChanges(c, unit, s, zones[i]) {
          var i :| 0 <= i < |zones| && zones[i].ZoneData? && ZoneChanges(c, unit, s, zones[i]);
          assert zones[1..][i - 1] == zones[i];
        }
      }
    }
  }

  lemma QuietZone(c: Config, unit: Unit, s: State, zd: ZoneData)
    requires zd.ZoneData? && !ZoneChanges(c, unit, s, zd)
    ensures ZoneStep(c, unit, s, zd) == s
  {}

  /** However wrong the "any" signals are, a well-formed frame leaves them all right exactly if one of its entries
      changes something, or they were right already. */
  lemma RepairIff(c: Config, unit: Unit, s: State, zones: seq<ZoneData>)
    requires Separate(c) && unit in c.units && ZonesAgree(c, s) && !Aborted(zones)
    ensures Inv(c, FrameStep(c, unit, s, zones))
       <==> (exists i :: 0 <= i < |zones| && zones[i].ZoneData? && ZoneChanges(c, unit, s, zones[i])) || Inv(c, s)
  {
    hide ZonesStep, Separate, ZonesAgree, AnyAgrees, UpdateGlobals, Aborted, Keys, ZoneChanges, Inv;
    ZonesStepAgrees(c, unit, s, zones);
    FrameChangesIff(c, unit, s, zones);
    GlobalsKeepInv(c, ZonesStep(c, unit, s, zones).0);
  }

  lemma {:induction false} ZonesLeaveAny(c: Config, unit: Unit, s: State, zones: seq<ZoneData>, g: Key)
    requires Separate(c) && unit in c.units && g in Keys(c) && AnySig(c, g).Some?
    ensures Value(ZonesStep(c, unit, s, zones).0.bus, AnySig(c, g).value) == Value(s.bus, AnySig(c, g).value)
    decreases |zones|
  {
    hide ZoneStep, Separate, Keys, AnySig, Value, ZoneChanges;
    if zones != [] && zones[0].ZoneData? {
      ZoneLeavesAny(c, unit, s, zones[0], g);
      ZonesLeaveAny(c, unit, ZoneStep(c, unit, s, zones[0]), zones[1..], g);
    }
  }

  lemma ZoneLeavesAny(c: Config, unit: Unit, s: State, zd: ZoneData, g: Key)
    requires Separate(c) && unit in c.units && g in Keys(c) && AnySig(c, g).Some? && zd.ZoneData?
    ensures Value(ZoneStep(c, unit, s, zd).bus, AnySig(c, g).value) == Value(s.bus, AnySig(c, g).value)
  {
    hide Keys, AnySig, Sig, IsZone, WriteKeys, NewState, Changed;
    if ZoneChanges(c, unit, s, zd) {
      var zone := (unit.id, zd.zone);
      UnitZoneIs(c, unit, zd.zone);
      SeparateKeys(c, zone);
      WriteKeysEffect(c, s.bus, zone, Remembered(s, zone), NewState(c, zd), Keys(c), AnySig(c, g).value);
    }
  }

  // ---- Faults --------------------------------------------------------------------------------------------

  lemma {:induction false} ZeroKeysEffect(c: Config, bus: Bus, zone: Zone, keys: seq<Key>, sig: string)
    ensures Value(ZeroKeys(c, bus, zone, keys), sig)
         == if exists k :: k in keys && Sig(c, zone.0, zone.1, k) == Some(sig) then 0 else Value(bus, sig)
    decreases |keys|
  {
    hide Sig;
    if keys != [] {
      var front, last := keys[..|keys| - 1], keys[|keys| - 1];
      ZeroKeysEffect(c, bus, zone, front, sig);
      assert forall k :: k in keys <==> k in front || k == last;
    }
  }

  lemma ZeroZoneAgrees(c: Config, s: State, zone: Zone)
    requires Separate(c) && IsZone(c, zone.0, zone.1) && ZonesAgree(c, s)
    ensures ZonesAgree(c, State(ZeroKeys(c, s.bus, zone, Keys(c)), s.prev - {zone}))
  {
    hide Keys, Sig, IsZone, ZeroKeys;
    var t := State(ZeroKeys(c, s.bus, zone, Keys(c)), s.prev - {zone});
    forall u, z, k | IsZone(c, u, z) && k in Keys(c) && Sig(c, u, z, k).Some?
      ensures Value(t.bus, Sig(c, u, z, k).value) == Expected(t, (u, z), k)
    {
      ZeroKeysEffect(c, s.bus, zone, Keys(c), Sig(c, u, z, k).value);
    }
  }

  lemma {:induction false} ZeroZonesAgree(c: Config, s: State, unit: Unit, zones: seq<int>)
    requires Separate(c) && unit in c.units && ZonesAgree(c, s)
    requires forall i :: 0 <= i < |zones| ==> zones[i] in unit.zones
    ensures var t := ZeroZones(c, s, unit.id, zones);
            ZonesAgree(c, t) && forall i :: 0 <= i < |zones| ==> (unit.id, zones[i]) !in t.prev
    decreases |zones|
  {
    hide ZonesAgree, Separate, ZeroKeys, Keys, IsZone;
    if zones != [] {
      var n := |zones| - 1;
      ZeroZonesAgree(c, s, unit, zones[..n]);
      UnitZoneIs(c, unit, zones[n]);
      ZeroZoneAgrees(c, ZeroZones(c, s, unit.id, zones[..n]), (unit.id, zones[n]));
      forall i | 0 <= i < |zones| ensures (unit.id, zones[i]) !in ZeroZones(c, s, unit.id, zones).prev {
        if i < n {
          assert zones[..n][i] == zones[i];
        }
      }
    }
  }

  /** After a fault every signal of the unit is off, nothing is remembered of it, and all else agrees as before. */
  lemma FaultKeepsInv(c: Config, unit: Unit, s: State)
    requires Separate(c) && unit in c.units && ZonesAgree(c, s)
    ensures var t := FaultStep(c, unit, s);
            && Inv(c, t)
            && (forall i, k :: 0 <= i < |unit.zones| && k in Keys(c)
                  ==> ReadZone(c, t.bus, unit.id, unit.zones[i], k) == 0)
  {
    hide Separate, UpdateGlobals, Keys, IsZone, ZeroZones, Sig, AnyAgrees;
    ZeroZonesAgree(c, s, unit, unit.zones);
    var t := FaultStep(c, unit, s);
    GlobalsKeepInv(c, ZeroZones(c, s, unit.id, unit.zones));
    forall i, k | 0 <= i < |unit.zones| && k in Keys(c) ensures ReadZone(c, t.bus, unit.id, unit.zones[i], k) == 0 {
      UnitZoneIs(c, unit, unit.zones[i]);
      assert (unit.id, unit.zones[i]) !in t.prev;
    }
  }

  // ---- Runs ----------------------------------------------------------------------------------------------

  datatype Event = Frame(unit: Unit, zones: seq<ZoneData>) | Fault(unit: Unit)

  function Step(c: Config, s: State, e: Event): State {
    match e case Frame(unit, zones) => FrameStep(c, unit, s, zones) case Fault(unit) => FaultStep(c, unit, s)
  }

  function Run(c: Config, s: State, events: seq<Event>): State {
    if events == [] then s else Step(c, Run(c, s, events[..|events| - 1]), events[|events| - 1])
  }

  predicate Orderly(c: Config, e: Event) {
    e.unit in c.units && (e.Frame? ==> !Aborted(e.zones))
  }

  lemma StartKeepsInv(c: Config)
    ensures Inv(c, State(map[], map[]))
  {}

  /** In every run of frames and faults of any units. */
  lemma {:induction false} RunKeepsInv(c: Config, events: seq<Event>)
    requires Separate(c) && forall i :: 0 <= i < |events| ==> Orderly(c, events[i])
    ensures Inv(c, Run(c, State(map[], map[]), events))
    decreases |events|
  {
    hide Separate, FrameStep, FaultStep, Inv, Aborted;
    if events == [] {
      StartKeepsInv(c);
    } else {
      var n := |events| - 1;
      RunKeepsInv(c, events[..n]);
      var s := Run(c, State(map[], map[]), events[..n]);
      assert Orderly(c, events[n]);
      InvZones(c, s);
      match events[n]
      case Frame(unit, zones) => FrameKeepsInv(c, unit, s, zones);
      case Fault(unit) => FaultKeepsInv(c, unit, s);
    }
  }

  lemma InvZones(c: Config, s: State)
    requires Inv(c, s)
    ensures ZonesAgree(c, s)
  {}
}
