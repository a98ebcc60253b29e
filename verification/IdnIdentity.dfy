/** Which controller sits behind which SDK slot: `discover` in src/idn/IdnManager.cpp.

A pass goes through the SDK's slots, claims for each a service announced on the network, and falls
back to what the slot was last known as, or to an identifier made from its index. */
module IdnIdentity {
  import opened Bytes
  import opened Decimal
  import opened Options

  datatype Service = Service(unitId: string, controllerId: string)

  type Directory = map<string, seq<Service>>

  datatype Snapshot = Snapshot(byLabel: Directory, byIp: Directory)

  /** A slot as the SDK reports it; no name when asking for it fails. */
  datatype Slot = Slot(closed: bool, usb: bool, name: Option<string>)

  const SDK_NAME_MAX_LENGTH: nat := 31
  const IP_PREFIX: string := "IDN: "

  function FallbackLabel(index: nat): string { "IDN " + Numeral(index) }

  function FallbackUnitId(index: nat): string { "unknown-index-" + Numeral(index) }

  function FallbackControllerId(index: nat): string { "idn-" + FallbackUnitId(index) }

  function ServiceControllerId(unitId: string, serviceId: nat): string
  {
    "idn-" + unitId + "-service-" + Numeral(serviceId)
  }

  function TruncatedToSdkName(s: string): string
  {
    if |s| > SDK_NAME_MAX_LENGTH then s[..SDK_NAME_MAX_LENGTH] else s
  }

  // ----- matching a service -----

  function FirstNamed(services: seq<Service>, id: string, used: set<string>): Option<Service>
  {
    if services == [] then None
    else if services[0].controllerId == id && id !in used then Some(services[0])
    else FirstNamed(services[1..], id, used)
  }

  function FirstUnused(services: seq<Service>, used: set<string>): Option<Service>
  {
    if services == [] then None
    else if services[0].controllerId !in used then Some(services[0])
    else FirstUnused(services[1..], used)
  }

  function Match(directory: Directory, key: string, preferred: Option<string>, used: set<string>)
    : Option<Service>
  {
    if key !in directory then None
    else
      var kept := if preferred.Some? then FirstNamed(directory[key], preferred.value, used) else None;
      if kept.Some? then kept else FirstUnused(directory[key], used)
  }

  method MatchDiscoveredService(directory: Directory, key: string, preferred: Option<string>, used: set<string>)
    returns (service: Option<Service>)
    ensures service == Match(directory, key, preferred, used)
    ensures service.Some? ==> key in directory && service.value in directory[key]
    ensures service.Some? ==> service.value.controllerId !in used
  {
    if key !in directory {
      return None;
    }
    var services := directory[key];
    if preferred.Some? {
      var i := 0;
      while i < |services|
        invariant 0 <= i <= |services|
        invariant FirstNamed(services, preferred.value, used) == FirstNamed(services[i..], preferred.value, used)
      {
        if services[i].controllerId == preferred.value && services[i].controllerId !in used {
          return Some(services[i]);
        }
        i := i + 1;
      }
    }
    var i := 0;
    while i < |services|
      invariant 0 <= i <= |services|
      invariant FirstUnused(services, used) == FirstUnused(services[i..], used)
    {
      if services[i].controllerId !in used {
        return Some(services[i]);
      }
      i := i + 1;
    }
    return None;
  }

  lemma {:induction false} FirstNamedIs(services: seq<Service>, id: string, used: set<string>)
    ensures var r := FirstNamed(services, id, used);
            if r.Some? then r.value in services && r.value.controllerId == id && id !in used
            else forall s :: s in services && s.controllerId == id ==> id in used
    decreases |services|
  {
    if services != [] {
      FirstNamedIs(services[1..], id, used);
    }
  }

  lemma {:induction false} FirstUnusedIs(services: seq<Service>, used: set<string>)
    ensures var r := FirstUnused(services, used);
            if r.Some? then r.value in services && r.value.controllerId !in used
            else forall s :: s in services ==> s.controllerId in used
    decreases |services|
  {
    if services != [] {
      FirstUnusedIs(services[1..], used);
    }
  }

  lemma MatchIs(directory: Directory, key: string, preferred: Option<string>, used: set<string>)
    ensures var r := Match(directory, key, preferred, used);
            if r.Some? then
              key in directory && r.value in directory[key] && r.value.controllerId !in used
            else key in directory ==> forall s :: s in directory[key] ==> s.controllerId in used
  {
    if key in directory {
      FirstUnusedIs(directory[key], used);
      if preferred.Some? {
        FirstNamedIs(directory[key], preferred.value, used);
      }
    }
  }

  /** Preferring the identifier that was found finds it again; preferring anything finds nothing where
      nothing was found. */
  lemma MatchIsStable(directory: Directory, key: string, preferred: Option<string>, again: string, used: set<string>)
    ensures var r, r' := Match(directory, key, preferred, used), Match(directory, key, Some(again), used);
            && (r.None? <==> r'.None?)
            && (r.Some? && r.value.controllerId == again ==> r'.Some? && r'.value.controllerId == again)
  {
    MatchIs(directory, key, preferred, used);
    MatchIs(directory, key, Some(again), used);
    if key in directory {
      FirstNamedIs(directory[key], again, used);
    }
  }

  // ----- one slot -----

  predicate IsUsable(slot: Slot) { !slot.closed && !slot.usb }

  function LabelOf(index: nat, slot: Slot): string
  {
    if slot.name.Some? then slot.name.value else FallbackLabel(index)
  }

  predicate NamesAnAddress(name: string) { |name| > 5 && name[..5] == IP_PREFIX }

  /** A service by label, or, when the label only names an address, by that. */
  function MatchSlot(snapshot: Snapshot, name: string, preferred: Option<string>, used: set<string>)
    : Option<Service>
  {
    var byLabel := Match(snapshot.byLabel, TruncatedToSdkName(name), preferred, used);
    if byLabel.None? && NamesAnAddress(name) then Match(snapshot.byIp, name[5..], preferred, used)
    else byLabel
  }

  /** What is remembered per slot between passes. */
  datatype Cache = Cache(units: map<nat, string>, ids: map<nat, string>)

  function Identity(snapshot: Snapshot, index: nat, slot: Slot, cache: Cache, used: set<string>)
    : (r: (string, string))
  {
    var preferred := if index in cache.ids then Some(cache.ids[index]) else None;
    var matched := MatchSlot(snapshot, LabelOf(index, slot), preferred, used);
    var found :=
      if matched.Some? then (matched.value.unitId, matched.value.controllerId)
      else if index in cache.units && index in cache.ids then (cache.units[index], cache.ids[index])
      else (FallbackUnitId(index), FallbackControllerId(index));
    if found.1 in used then (FallbackUnitId(index), FallbackControllerId(index)) else found
  }

  // ----- one pass -----

  /** A pass in progress: identifiers claimed, the cache, the slots seen, and the results. */
  datatype Pass = Pass(used: set<string>, cache: Cache, seen: set<nat>, results: seq<(nat, string)>)

  function Advance(p: Pass, snapshot: Snapshot, index: nat, slot: Slot): Pass
  {
    if !IsUsable(slot) then p
    else
      var (unitId, id) := Identity(snapshot, index, slot, p.cache, p.used);
      Pass(p.used + {id},
           Cache(p.cache.units[index := unitId], p.cache.ids[index := id]),
           p.seen + {index},
           p.results + [(index, id)])
  }

  function PassUpTo(cache: Cache, snapshot: Snapshot, slots: seq<Slot>, n: nat): Pass
    requires n <= |slots|
  {
    if n == 0 then Pass({}, cache, {}, [])
    else Advance(PassUpTo(cache, snapshot, slots, n - 1), snapshot, n - 1, slots[n - 1])
  }

  function Pruned(cache: Cache, seen: set<nat>): Cache
  {
    Cache(map i | i in cache.units && i in seen :: cache.units[i],
          map i | i in cache.ids && i in seen :: cache.ids[i])
  }

  /** The cache and the results of a whole pass; nothing happens when the SDK reports no slot. */
  function Discovered(cache: Cache, snapshot: Snapshot, slots: seq<Slot>): (Cache, seq<(nat, string)>)
  {
    if slots == [] then (cache, [])
    else
      var p := PassUpTo(cache, snapshot, slots, |slots|);
      (Pruned(p.cache, p.seen), p.results)
  }

  class Manager {
    var units: map<nat, string>
    var ids: map<nat, string>

    ghost function State(): Cache
      reads this
    {
      Cache(units, ids)
    }

    constructor ()
      ensures State() == Cache(map[], map[])
    {
      units, ids := map[], map[];
    }

    method Discover(snapshot: Snapshot, slots: seq<Slot>) returns (results: seq<(nat, string)>)
      modifies this
      ensures (State(), results) == Discovered(old(State()), snapshot, slots)
    {
      hide Match, MatchSlot, TruncatedToSdkName, FallbackLabel;
      results := [];
      if slots == [] {
        return;
      }
      var used: set<string> := {};
      var seen: set<nat> := {};
      for index := 0 to |slots|
        invariant Pass(used, State(), seen, results) == PassUpTo(old(State()), snapshot, slots, index)
      {
        var slot := slots[index];
        if slot.closed {
          continue;
        }
        if slot.usb {
          continue;
        }
        ghost var before := State();
        seen := seen + {index};
        var name := if slot.name.Some? then slot.name.value else FallbackLabel(index);
        var preferred := if index in ids then Some(ids[index]) else None;
        var matched := MatchDiscoveredService(snapshot.byLabel, TruncatedToSdkName(name), preferred, used);
        if matched.None? && |name| > 5 && name[..5] == IP_PREFIX {
          matched := MatchDiscoveredService(snapshot.byIp, name[5..], preferred, used);
        }
        assert matched == MatchSlot(snapshot, name, preferred, used) by {
          MatchSlotIs(snapshot, name, preferred, used);
        }
        var unitId, id;
        if matched.Some? {
          unitId, id := matched.value.unitId, matched.value.controllerId;
        } else if index in units && index in ids {
          unitId, id := units[index], ids[index];
        } else {
          unitId, id := FallbackUnitId(index), FallbackControllerId(index);
        }
        if id in used {
          unitId, id := FallbackUnitId(index), FallbackControllerId(index);
        }
        assert (unitId, id) == Identity(snapshot, index, slot, before, used);
        used := used + {id};
        units := units[index := unitId];
        ids := ids[index := id];
        results := results + [(index, id)];
      }
      units := map i | i in units && i in seen :: units[i];
      ids := map i | i in ids && i in seen :: ids[i];
    }
  }

  lemma MatchSlotIs(snapshot: Snapshot, name: string, preferred: Option<string>, used: set<string>)
    ensures var byLabel := Match(snapshot.byLabel, TruncatedToSdkName(name), preferred, used);
            MatchSlot(snapshot, name, preferred, used) ==
              if byLabel.None? && |name| > 5 && name[..5] == IP_PREFIX
              then Match(snapshot.byIp, name[5..], preferred, used) else byLabel
  {
  }

  // ----- identifiers are distinct -----

  predicate IsHex(c: char) { '0' <= c <= '9' || 'a' <= c <= 'f' }

  /** The shape of an identifier made from a unit in hexadecimal. */
  predicate IsServiceId(id: string) { |id| > 4 && id[..4] == "idn-" && IsHex(id[4]) }

  // ----- what the scan announces -----

  function HexDigit(d: nat): (c: char)
    requires d < 16
    ensures IsHex(c)
  {
    if d < 10 then '0' + d as char else 'a' + (d - 10) as char
  }

  /** Two lower-case digits a byte. */
  function EncodeUnitIdHex(unit: seq<Byte>): (hex: string)
    ensures |hex| == 2 * |unit|
    ensures forall i :: 0 <= i < |hex| ==> IsHex(hex[i])
  {
    if unit == [] then []
    else EncodeUnitIdHex(unit[..|unit| - 1]) + [HexDigit(unit[|unit| - 1] / 16), HexDigit(unit[|unit| - 1] % 16)]
  }

  const UNIT_ID_LENGTH: nat := 16

  /** A service as the scan makes it from a unit's 16 bytes and a service number. */
  ghost predicate Scanned(s: Service)
  {
    exists unit: seq<Byte>, serviceId: nat ::
      |unit| == UNIT_ID_LENGTH
      && s == Service(EncodeUnitIdHex(unit), ServiceControllerId(EncodeUnitIdHex(unit), serviceId))
  }

  /** Every service a snapshot announces was made by the scan. */
  ghost predicate Announced(snapshot: Snapshot)
  {
    && (forall key, s :: key in snapshot.byLabel && s in snapshot.byLabel[key] ==> Scanned(s))
    && (forall key, s :: key in snapshot.byIp && s in snapshot.byIp[key] ==> Scanned(s))
  }

  lemma ScannedServiceHasTheShape(s: Service)
    requires Scanned(s)
    ensures IsServiceId(s.controllerId)
  {
    hide EncodeUnitIdHex, ServiceControllerId, IsServiceId;
    var unit: seq<Byte>, serviceId: nat :|
      |unit| == UNIT_ID_LENGTH
      && s == Service(EncodeUnitIdHex(unit), ServiceControllerId(EncodeUnitIdHex(unit), serviceId));
    ServiceIdsHaveTheShape(EncodeUnitIdHex(unit), serviceId);
  }

  lemma AnnouncedIsSound(snapshot: Snapshot)
    requires Announced(snapshot)
    ensures SnapshotIsSound(snapshot)
  {
    hide Scanned, IsServiceId;
    forall key, s | key in snapshot.byLabel && s in snapshot.byLabel[key]
      ensures IsServiceId(s.controllerId)
    {
      ScannedServiceHasTheShape(s);
    }
    forall key, s | key in snapshot.byIp && s in snapshot.byIp[key]
      ensures IsServiceId(s.controllerId)
    {
      ScannedServiceHasTheShape(s);
    }
  }

  lemma ServiceIdsHaveTheShape(unitId: string, serviceId: nat)
    requires unitId != [] && IsHex(unitId[0])
    ensures IsServiceId(ServiceControllerId(unitId, serviceId))
  {
  }

  lemma FallbackIsNoServiceId(index: nat)
    ensures !IsServiceId(FallbackControllerId(index))
  {
    assert FallbackControllerId(index)[4] == 'u';
  }

  lemma FallbackInjective(i: nat, j: nat)
    requires FallbackControllerId(i) == FallbackControllerId(j)
    ensures i == j
  {
    assert FallbackControllerId(i)[18..] == Numeral(i);
    assert FallbackControllerId(j)[18..] == Numeral(j);
    NumeralInjective(i, j);
  }

  ghost predicate DirectoryIsSound(d: Directory)
  {
    forall key, s :: key in d && s in d[key] ==> IsServiceId(s.controllerId)
  }

  ghost predicate SnapshotIsSound(snapshot: Snapshot)
  {
    DirectoryIsSound(snapshot.byLabel) && DirectoryIsSound(snapshot.byIp)
  }

  ghost predicate BelongsTo(index: nat, id: string) { IsServiceId(id) || id == FallbackControllerId(index) }

  /** A slot is only ever remembered under a service or under its own index. */
  ghost predicate CacheIsSound(cache: Cache)
  {
    forall i :: i in cache.ids ==> BelongsTo(i, cache.ids[i])
  }

  ghost predicate UsedIsSound(used: set<string>, n: nat)
  {
    forall id :: id in used ==> exists i: nat :: i < n && BelongsTo(i, id)
  }

  lemma OwnFallbackIsFree(used: set<string>, n: nat)
    requires UsedIsSound(used, n)
    ensures FallbackControllerId(n) !in used
  {
    hide FallbackControllerId, IsServiceId;
    if FallbackControllerId(n) in used {
      var i: nat :| i < n && BelongsTo(i, FallbackControllerId(n));
      FallbackIsNoServiceId(n);
      FallbackInjective(i, n);
      assert false;
    }
  }

  lemma MatchSlotIsSound(snapshot: Snapshot, name: string, preferred: Option<string>, used: set<string>)
    requires SnapshotIsSound(snapshot)
    ensures var m := MatchSlot(snapshot, name, preferred, used);
            m.Some? ==> IsServiceId(m.value.controllerId) && m.value.controllerId !in used
  {
    hide Match, IsServiceId;
    MatchIs(snapshot.byLabel, TruncatedToSdkName(name), preferred, used);
    if NamesAnAddress(name) {
      MatchIs(snapshot.byIp, name[5..], preferred, used);
    }
  }

  lemma IdentityIsNew(snapshot: Snapshot, index: nat, slot: Slot, cache: Cache, used: set<string>)
    requires SnapshotIsSound(snapshot) && CacheIsSound(cache) && UsedIsSound(used, index)
    ensures var id := Identity(snapshot, index, slot, cache, used).1;
            id !in used && BelongsTo(index, id)
  {
    hide MatchSlot, FallbackControllerId, IsServiceId, UsedIsSound, SnapshotIsSound;
    var preferred := if index in cache.ids then Some(cache.ids[index]) else None;
    MatchSlotIsSound(snapshot, LabelOf(index, slot), preferred, used);
    OwnFallbackIsFree(used, index);
  }

  ghost predicate DistinctIds(results: seq<(nat, string)>)
  {
    forall i, j :: 0 <= i < j < |results| ==> results[i].1 != results[j].1
  }

  lemma {:induction false} PassIsSound(cache: Cache, snapshot: Snapshot, slots: seq<Slot>, n: nat)
    requires SnapshotIsSound(snapshot) && CacheIsSound(cache) && n <= |slots|
    ensures var p := PassUpTo(cache, snapshot, slots, n);
            && UsedIsSound(p.used, n) && CacheIsSound(p.cache)
            && DistinctIds(p.results)
            && (forall i :: 0 <= i < |p.results| ==> p.results[i].1 in p.used)
    decreases n
  {
    hide SnapshotIsSound, Identity, BelongsTo;
    if n > 0 {
      PassIsSound(cache, snapshot, slots, n - 1);
      var p := PassUpTo(cache, snapshot, slots, n - 1);
      var p' := PassUpTo(cache, snapshot, slots, n);
      IdentityIsNew(snapshot, n - 1, slots[n - 1], p.cache, p.used);
      forall id | id in p'.used
        ensures exists i: nat :: i < n && BelongsTo(i, id)
      {
        if id in p.used {
          var i: nat :| i < n - 1 && BelongsTo(i, id);
          assert i < n && BelongsTo(i, id);
        } else {
          assert BelongsTo(n - 1, id);
        }
      }
    }
  }

  /** What one pass is given. */
  datatype Scan = Scan(snapshot: Snapshot, slots: seq<Slot>)

  /** The cache after a run of passes. */
  ghost function CacheAfter(scans: seq<Scan>): Cache
    decreases |scans|
  {
    if scans == [] then Cache(map[], map[])
    else
      var last := scans[|scans| - 1];
      Discovered(CacheAfter(scans[..|scans| - 1]), last.snapshot, last.slots).0
  }

  ghost predicate AllAnnounced(scans: seq<Scan>)
  {
    forall i :: 0 <= i < |scans| ==> Announced(scans[i].snapshot)
  }

  lemma AnnouncedScansAreSound(scans: seq<Scan>)
    requires AllAnnounced(scans)
    ensures ScansAreSound(scans)
  {
    hide Announced, SnapshotIsSound;
    forall i | 0 <= i < |scans| ensures SnapshotIsSound(scans[i].snapshot) {
      AnnouncedIsSound(scans[i].snapshot);
    }
  }

  ghost predicate ScansAreSound(scans: seq<Scan>)
  {
    forall i :: 0 <= i < |scans| ==> SnapshotIsSound(scans[i].snapshot)
  }

  lemma {:induction false} CacheStaysSound(scans: seq<Scan>)
    requires ScansAreSound(scans)
    ensures CacheIsSound(CacheAfter(scans))
    decreases |scans|
  {
    hide SnapshotIsSound, BelongsTo, PassUpTo;
    if scans != [] {
      var last := scans[|scans| - 1];
      CacheStaysSound(scans[..|scans| - 1]);
      PassIsSound(CacheAfter(scans[..|scans| - 1]), last.snapshot, last.slots, |last.slots|);
    }
  }

  /** In every pass of every run, no two slots get the same identifier. */
  lemma EveryPassGivesDistinctIds(scans: seq<Scan>, next: Scan)
    requires AllAnnounced(scans) && Announced(next.snapshot)
    ensures DistinctIds(Discovered(CacheAfter(scans), next.snapshot, next.slots).1)
  {
    hide PassUpTo, SnapshotIsSound, CacheAfter, Announced;
    AnnouncedScansAreSound(scans);
    AnnouncedIsSound(next.snapshot);
    CacheStaysSound(scans);
    PassIsSound(CacheAfter(scans), next.snapshot, next.slots, |next.slots|);
  }

  // ----- a repeated pass changes nothing -----

  /** The identity given to a slot is given again when it is preferred, the same identifiers being
      claimed before it. */
  lemma IdentityIsStable(snapshot: Snapshot, index: nat, slot: Slot, cache: Cache, cache': Cache, used: set<string>)
    requires index in cache'.ids && index in cache'.units
    requires cache'.ids[index] == Identity(snapshot, index, slot, cache, used).1
    requires Identity(snapshot, index, slot, cache, used).1 !in used
    ensures Identity(snapshot, index, slot, cache', used).1 == cache'.ids[index]
  {
    hide Match, FallbackControllerId, FallbackUnitId;
    var name := LabelOf(index, slot);
    var preferred := if index in cache.ids then Some(cache.ids[index]) else None;
    var again := cache'.ids[index];
    MatchIsStable(snapshot.byLabel, TruncatedToSdkName(name), preferred, again, used);
    if NamesAnAddress(name) {
      MatchIsStable(snapshot.byIp, name[5..], preferred, again, used);
    }
    MatchIs(snapshot.byLabel, TruncatedToSdkName(name), preferred, used);
    if NamesAnAddress(name) {
      MatchIs(snapshot.byIp, name[5..], preferred, used);
    }
  }

  /** Later slots do not touch what an earlier one was remembered as. */
  lemma {:induction false} PassRemembers(cache: Cache, snapshot: Snapshot, slots: seq<Slot>, i: nat, n: nat)
    requires i < n <= |slots| && IsUsable(slots[i])
    ensures var p, q := PassUpTo(cache, snapshot, slots, n), PassUpTo(cache, snapshot, slots, i);
            && i in p.seen && i in p.cache.ids && i in p.cache.units
            && p.cache.ids[i] == Identity(snapshot, i, slots[i], q.cache, q.used).1
    decreases n
  {
    hide Identity;
    if i < n - 1 {
      PassRemembers(cache, snapshot, slots, i, n - 1);
    }
  }

  /** A pass in progress leaves the cache of the slots still to come alone. */
  lemma {:induction false} PassLeavesTheRest(cache: Cache, snapshot: Snapshot, slots: seq<Slot>, i: nat, n: nat)
    requires n <= i && n <= |slots|
    ensures var p := PassUpTo(cache, snapshot, slots, n);
            && (i in p.cache.ids <==> i in cache.ids) && (i in p.cache.units <==> i in cache.units)
            && (i in cache.ids ==> p.cache.ids[i] == cache.ids[i])
    decreases n
  {
    hide Identity;
    if n > 0 {
      PassLeavesTheRest(cache, snapshot, slots, i, n - 1);
    }
  }

  lemma {:induction false} RepeatedPassAgrees(cache: Cache, snapshot: Snapshot, slots: seq<Slot>, n: nat)
    requires SnapshotIsSound(snapshot) && CacheIsSound(cache) && n <= |slots| && slots != []
    ensures var cache' := Discovered(cache, snapshot, slots).0;
            var p, q := PassUpTo(cache, snapshot, slots, n), PassUpTo(cache', snapshot, slots, n);
            p.used == q.used && p.results == q.results
    decreases n
  {
    hide Identity, SnapshotIsSound, CacheIsSound, UsedIsSound;
    if n > 0 {
      var cache' := Discovered(cache, snapshot, slots).0;
      var i := n - 1;
      RepeatedPassAgrees(cache, snapshot, slots, i);
      if IsUsable(slots[i]) {
        var p, q := PassUpTo(cache, snapshot, slots, i), PassUpTo(cache', snapshot, slots, i);
        PassRemembers(cache, snapshot, slots, i, |slots|);
        PassLeavesTheRest(cache', snapshot, slots, i, i);
        PassIsSound(cache, snapshot, slots, i);
        IdentityIsNew(snapshot, i, slots[i], p.cache, p.used);
        IdentityIsStable(snapshot, i, slots[i], p.cache, q.cache, p.used);
      }
    }
  }

  /** Repeating a pass with the same slots and the same announced services gives every slot exactly
      the identifier it had. */
  lemma RepeatingAPassKeepsEveryId(scans: seq<Scan>, next: Scan)
    requires AllAnnounced(scans) && Announced(next.snapshot)
    ensures var first := Discovered(CacheAfter(scans), next.snapshot, next.slots);
            Discovered(first.0, next.snapshot, next.slots).1 == first.1
  {
    hide PassUpTo, SnapshotIsSound, CacheAfter, Announced;
    AnnouncedScansAreSound(scans);
    AnnouncedIsSound(next.snapshot);
    CacheStaysSound(scans);
    if next.slots != [] {
      RepeatedPassAgrees(CacheAfter(scans), next.snapshot, next.slots, |next.slots|);
    }
  }
}
