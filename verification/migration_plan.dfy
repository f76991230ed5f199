// Which sectors of a slab to migrate and where to: SpacedSet of hosts/distance.go and
// sectorsToMigrate of slabs/migrations.go. Distances are an uninterpreted function of two locations,
// and maps are iterated in an arbitrary order.
module Placement {
  import opened Common

  type HostKey = nat
  type ContractID = nat
  type Root = nat

  datatype Location = Location(latitude: real, longitude: real)
  type Distance = (Location, Location) -> real

  datatype Host = Host(key: HostKey, usable: bool, blocked: bool, stuck: bool, remainingStorage: nat, location: Location) {
    predicate IsGood() {
      usable && !blocked
    }

    predicate GoodForUpload() {
      IsGood() && !stuck && remainingStorage > 0
    }
  }

  datatype Contract = Contract(id: ContractID, hostKey: HostKey)

  datatype Sector = Sector(root: Root, host: Option<HostKey>, contract: Option<ContractID>)

  // goodForAppend stands for Contract.GoodForAppend under the state's height and settings.
  datatype State = State(hosts: seq<Host>, contracts: seq<Contract>, goodForAppend: (Contract, Host) -> bool,
                         minDistanceKm: real, distance: Distance)

  // A location keeps the minimum distance to every placed one.
  predicate FarFrom(distance: Distance, minDistanceKm: real, at: Location, placed: map<HostKey, Location>) {
    minDistanceKm > 0.0 ==> forall k :: k in placed ==> distance(at, placed[k]) >= minDistanceKm
  }

  // Every two placed hosts keep the minimum distance, in one direction of measuring it.
  ghost predicate PairwiseSpaced(distance: Distance, minDistanceKm: real, placed: map<HostKey, Location>) {
    minDistanceKm > 0.0 ==>
      forall k, l :: k in placed && l in placed && k != l ==>
        distance(placed[k], placed[l]) >= minDistanceKm || distance(placed[l], placed[k]) >= minDistanceKm
  }

  class SpacedSet {
    const minDistanceKm: real
    const distance: Distance
    var selected: map<HostKey, Location>

    ghost predicate Spaced()
      reads this
    {
      PairwiseSpaced(distance, minDistanceKm, selected)
    }

    constructor (minDistanceKm: real, distance: Distance)
      ensures Spaced()
      ensures this.minDistanceKm == minDistanceKm && this.distance == distance && selected == map[]
    {
      this.minDistanceKm, this.distance, selected := minDistanceKm, distance, map[];
    }

    method CanAddHost(h: Host) returns (ok: bool)
      ensures ok <==> h.key !in selected && FarFrom(distance, minDistanceKm, h.location, selected)
    {
      if h.key in selected {
        return false;
      }
      if minDistanceKm > 0.0 {
        var rest := selected.Keys;
        while rest != {}
          invariant rest <= selected.Keys
          invariant forall k :: k in selected && k !in rest ==> distance(h.location, selected[k]) >= minDistanceKm
          decreases rest
        {
          var k :| k in rest;
          if distance(h.location, selected[k]) < minDistanceKm {
            return false;
          }
          rest := rest - {k};
        }
      }
      return true;
    }

    // The host is added exactly when it is new and far enough from every host already there.
    method Add(h: Host) returns (added: bool)
      modifies this
      ensures old(Spaced()) ==> Spaced()
      ensures added <==> old(h.key !in selected && FarFrom(distance, minDistanceKm, h.location, selected))
      ensures selected == if added then old(selected)[h.key := h.location] else old(selected)
    {
      added := CanAddHost(h);
      if added {
        selected := selected[h.key := h.location];
      }
    }
  }

  // --- what the plan means, stated on the slab and the state alone ---

  // The good hosts by key; a later entry for the same key wins.
  function GoodHosts(hosts: seq<Host>): (m: map<HostKey, Host>)
    ensures forall k :: k in m ==> m[k].key == k && m[k].IsGood() && m[k] in hosts
    ensures forall h :: h in hosts && h.IsGood() ==> h.key in m
  {
    if hosts == [] then map[]
    else
      var last := hosts[|hosts| - 1];
      var rest := GoodHosts(hosts[..|hosts| - 1]);
      assert hosts == hosts[..|hosts| - 1] + [last];
      if last.IsGood() then rest[last.key := last] else rest
  }

  ghost predicate HealthyVia(state: State, j: nat, id: ContractID)
    requires j < |state.contracts|
  {
    state.contracts[j].id == id && state.contracts[j].hostKey in GoodHosts(state.hosts)
  }

  ghost predicate HealthyAmong(state: State, n: nat, id: ContractID)
    requires n <= |state.contracts|
  {
    exists j: nat {:trigger HealthyVia(state, j, id)} :: j < n && HealthyVia(state, j, id)
  }

  // A healthy contract of a good host has this ID.
  ghost predicate Healthy(state: State, id: ContractID) {
    HealthyAmong(state, |state.contracts|, id)
  }

  ghost predicate AppendVia(state: State, j: nat, k: HostKey)
    requires j < |state.contracts|
  {
    state.contracts[j].hostKey == k && k in GoodHosts(state.hosts) && state.goodForAppend(state.contracts[j], GoodHosts(state.hosts)[k])
  }

  ghost predicate AppendableAmong(state: State, n: nat, k: HostKey)
    requires n <= |state.contracts|
  {
    exists j: nat {:trigger AppendVia(state, j, k)} :: j < n && AppendVia(state, j, k)
  }

  // The good host has a healthy contract that can be appended to.
  ghost predicate Appendable(state: State, k: HostKey) {
    AppendableAmong(state, |state.contracts|, k)
  }

  ghost function HealthyIDs(state: State, n: nat): (s: set<ContractID>)
    requires n <= |state.contracts|
    ensures forall id {:trigger HealthyAmong(state, n, id)} {:trigger id in s} :: id in s <==> HealthyAmong(state, n, id)
  {
    if n == 0 then {}
    else
      var c := state.contracts[n - 1];
      assert forall id :: HealthyAmong(state, n, id) <==> HealthyAmong(state, n - 1, id) || HealthyVia(state, n - 1, id);
      HealthyIDs(state, n - 1) + (if c.hostKey in GoodHosts(state.hosts) then {c.id} else {})
  }

  ghost function AppendableHosts(state: State, n: nat): (s: set<HostKey>)
    requires n <= |state.contracts|
    ensures forall k {:trigger AppendableAmong(state, n, k)} {:trigger k in s} :: k in s <==> AppendableAmong(state, n, k)
  {
    if n == 0 then {}
    else
      var c := state.contracts[n - 1];
      assert forall k :: AppendableAmong(state, n, k) <==> AppendableAmong(state, n - 1, k) || AppendVia(state, n - 1, k);
      AppendableHosts(state, n - 1) + (if AppendVia(state, n - 1, c.hostKey) then {c.hostKey} else {})
  }

  ghost predicate OnHost(sectors: seq<Sector>, j: nat, k: HostKey)
    requires j < |sectors|
  {
    sectors[j].host == Some(k)
  }

  // One of the first n sectors is on this host.
  ghost predicate UsedBefore(sectors: seq<Sector>, n: nat, k: HostKey)
    requires n <= |sectors|
  {
    exists j: nat {:trigger OnHost(sectors, j, k)} :: j < n && OnHost(sectors, j, k)
  }

  // The sector is on a good host that no earlier sector of the slab uses.
  ghost predicate HostOk(sectors: seq<Sector>, state: State, i: nat)
    requires i < |sectors|
  {
    sectors[i].host.Some? && sectors[i].host.value in GoodHosts(state.hosts) && !UsedBefore(sectors, i, sectors[i].host.value)
  }

  // The sector uses the contract from a usable host.
  ghost predicate UsesContract(sectors: seq<Sector>, state: State, j: nat, id: ContractID)
    requires j < |sectors|
  {
    HostOk(sectors, state, j) && sectors[j].contract == Some(id)
  }

  ghost predicate ContractUsedBefore(sectors: seq<Sector>, state: State, n: nat, id: ContractID)
    requires n <= |sectors|
  {
    exists j: nat {:trigger UsesContract(sectors, state, j, id)} :: j < n && UsesContract(sectors, state, j, id)
  }

  // Its contract, if any, is healthy and not used by an earlier sector on a usable host.
  ghost predicate ContractOk(sectors: seq<Sector>, state: State, i: nat)
    requires i < |sectors|
  {
    sectors[i].contract.Some? ==>
      Healthy(state, sectors[i].contract.value) && !ContractUsedBefore(sectors, state, i, sectors[i].contract.value)
  }

  ghost predicate NeedsMigration(sectors: seq<Sector>, state: State, i: nat)
    requires i < |sectors|
  {
    !HostOk(sectors, state, i) || !ContractOk(sectors, state, i)
  }

  ghost predicate HostsSector(sectors: seq<Sector>, k: HostKey) {
    UsedBefore(sectors, |sectors|, k)
  }

  // A host that may receive a sector of this slab as far as its own condition goes.
  ghost predicate Eligible(sectors: seq<Sector>, state: State, k: HostKey) {
    && k in GoodHosts(state.hosts) && GoodHosts(state.hosts)[k].GoodForUpload()
    && Appendable(state, k) && !HostsSector(sectors, k)
  }

  ghost predicate StrictlyIncreasing(s: seq<nat>) {
    forall i, j :: 0 <= i < j < |s| ==> s[i] < s[j]
  }

  ghost predicate Distinct<T>(s: seq<T>) {
    forall i, j :: 0 <= i < j < |s| ==> s[i] != s[j]
  }

  // --- the loops ---

  method GoodHostMap(hosts: seq<Host>) returns (hostsMap: map<HostKey, Host>)
    ensures hostsMap == GoodHosts(hosts)
  {
    hostsMap := map[];
    for i := 0 to |hosts|
      invariant hostsMap == GoodHosts(hosts[..i])
    {
      assert hosts[..i + 1][..i] == hosts[..i];
      if hosts[i].IsGood() {
        hostsMap := hostsMap[hosts[i].key := hosts[i]];
      }
    }
    assert hosts[..|hosts|] == hosts;
  }

  method ContractMaps(state: State, hostsMap: map<HostKey, Host>) returns (healthy: set<ContractID>, hasAppend: set<HostKey>)
    requires hostsMap == GoodHosts(state.hosts)
    ensures forall id :: id in healthy <==> Healthy(state, id)
    ensures forall k :: k in hasAppend <==> Appendable(state, k)
  {
    healthy, hasAppend := {}, {};
    for i := 0 to |state.contracts|
      invariant healthy == HealthyIDs(state, i)
      invariant hasAppend == AppendableHosts(state, i)
    {
      var contract := state.contracts[i];
      if contract.hostKey !in hostsMap {
        continue;
      }
      healthy := healthy + {contract.id};
      if state.goodForAppend(contract, hostsMap[contract.hostKey]) {
        hasAppend := hasAppend + {contract.hostKey};
      }
    }
  }

  // The indices below n that need migration, in order.
  ghost function BadIndices(sectors: seq<Sector>, state: State, n: nat): seq<nat>
    requires n <= |sectors|
  {
    if n == 0 then [] else BadIndices(sectors, state, n - 1) + (if NeedsMigration(sectors, state, n - 1) then [n - 1] else [])
  }

  lemma {:induction false} BadIndicesAreExact(sectors: seq<Sector>, state: State, n: nat)
    requires n <= |sectors|
    ensures StrictlyIncreasing(BadIndices(sectors, state, n))
    ensures forall i: nat :: i in BadIndices(sectors, state, n) <==> i < n && NeedsMigration(sectors, state, i)
  {
    if n > 0 {
      BadIndicesAreExact(sectors, state, n - 1);
      Extend(BadIndices(sectors, state, n - 1), n - 1);
    }
  }

  lemma Extend(s: seq<nat>, x: nat)
    requires StrictlyIncreasing(s) && forall y :: y in s ==> y < x
    ensures StrictlyIncreasing(s + [x])
    ensures forall y :: y in s + [x] <==> y in s || y == x
  {
    forall k | 0 <= k < |s| ensures s[k] < x {
      assert s[k] in s;
    }
  }

  // The sector is on this host and stays there.
  ghost predicate Keeps(sectors: seq<Sector>, state: State, j: nat, k: HostKey)
    requires j < |sectors|
  {
    OnHost(sectors, j, k) && !NeedsMigration(sectors, state, j)
  }

  ghost function UsedHosts(sectors: seq<Sector>, n: nat): (s: set<HostKey>)
    requires n <= |sectors|
    ensures forall k {:trigger UsedBefore(sectors, n, k)} {:trigger k in s} :: k in s <==> UsedBefore(sectors, n, k)
  {
    if n == 0 then {}
    else
      assert forall k :: UsedBefore(sectors, n, k) <==> UsedBefore(sectors, n - 1, k) || OnHost(sectors, n - 1, k);
      UsedHosts(sectors, n - 1) + (if sectors[n - 1].host.Some? then {sectors[n - 1].host.value} else {})
  }

  ghost function UsedContracts(sectors: seq<Sector>, state: State, n: nat): (s: set<ContractID>)
    requires n <= |sectors|
    ensures forall id {:trigger ContractUsedBefore(sectors, state, n, id)} {:trigger id in s} :: id in s <==> ContractUsedBefore(sectors, state, n, id)
  {
    if n == 0 then {}
    else
      assert forall id :: ContractUsedBefore(sectors, state, n, id) <==> ContractUsedBefore(sectors, state, n - 1, id) || UsesContract(sectors, state, n - 1, id);
      UsedContracts(sectors, state, n - 1) + (if HostOk(sectors, state, n - 1) && sectors[n - 1].contract.Some? then {sectors[n - 1].contract.value} else {})
  }

  // The hosts that keep one of the first n sectors and that the spaced set takes: in the order of the
  // sectors, each one that is far enough from those taken before it.
  ghost function KeptPlaced(sectors: seq<Sector>, state: State, n: nat): map<HostKey, Location>
    requires n <= |sectors|
  {
    if n == 0 then map[]
    else
      var before := KeptPlaced(sectors, state, n - 1);
      if NeedsMigration(sectors, state, n - 1) then before
      else
        var host := GoodHosts(state.hosts)[sectors[n - 1].host.value];
        if host.key !in before && FarFrom(state.distance, state.minDistanceKm, host.location, before)
        then before[host.key := host.location] else before
  }

  lemma {:induction false} KeptPlacedAreKept(sectors: seq<Sector>, state: State, n: nat, k: HostKey)
    requires n <= |sectors| && k in KeptPlaced(sectors, state, n)
    ensures k in GoodHosts(state.hosts) && KeptPlaced(sectors, state, n)[k] == GoodHosts(state.hosts)[k].location
    ensures exists j: nat {:trigger Keeps(sectors, state, j, k)} :: j < n && Keeps(sectors, state, j, k)
  {
    if k in KeptPlaced(sectors, state, n - 1) {
      KeptPlacedAreKept(sectors, state, n - 1, k);
    } else {
      assert Keeps(sectors, state, n - 1, k);
    }
  }

  // A host that keeps its sector is placed, unless it is too close to the ones placed before it.
  lemma {:induction false} KeptIsPlacedOrClose(sectors: seq<Sector>, state: State, n: nat, j: nat)
    requires j < n <= |sectors| && !NeedsMigration(sectors, state, j)
    ensures var k := sectors[j].host.value; var placed := KeptPlaced(sectors, state, n);
      FarFrom(state.distance, state.minDistanceKm, GoodHosts(state.hosts)[k].location, KeptPlaced(sectors, state, j)) ==>
      k in placed && placed[k] == GoodHosts(state.hosts)[k].location
  {
    if j < n - 1 {
      KeptIsPlacedOrClose(sectors, state, n - 1, j);
    } else {
      var k := sectors[j].host.value;
      if k in KeptPlaced(sectors, state, j) {
        KeptPlacedAreKept(sectors, state, j, k);
      }
    }
  }

  // The sector loop: picks the sectors to migrate and spaces the hosts that keep theirs.
  method ScanSectors(sectors: seq<Sector>, state: State, goodHosts: map<HostKey, Host>, healthy: set<ContractID>, spaced: SpacedSet)
    returns (toMigrate: seq<nat>, hostsMap: map<HostKey, Host>)
    requires goodHosts == GoodHosts(state.hosts) && (forall id :: id in healthy <==> Healthy(state, id))
    requires spaced.selected == map[] && spaced.Spaced() && spaced.minDistanceKm == state.minDistanceKm && spaced.distance == state.distance
    modifies spaced
    ensures toMigrate == BadIndices(sectors, state, |sectors|)
    ensures hostsMap == goodHosts - UsedHosts(sectors, |sectors|)
    ensures spaced.Spaced()
    ensures spaced.selected == KeptPlaced(sectors, state, |sectors|)
  {
    toMigrate, hostsMap := [], goodHosts;
    var contracts := healthy;
    for i := 0 to |sectors|
      invariant toMigrate == BadIndices(sectors, state, i)
      invariant hostsMap == goodHosts - UsedHosts(sectors, i)
      invariant contracts == healthy - UsedContracts(sectors, state, i)
      invariant spaced.Spaced()
      invariant spaced.selected == KeptPlaced(sectors, state, i)
    {
      var sector := sectors[i];
      if sector.host.None? {
        toMigrate := toMigrate + [i];
        continue;
      }
      if sector.host.value !in hostsMap {
        assert !HostOk(sectors, state, i);
        toMigrate := toMigrate + [i];
        continue;
      }
      assert HostOk(sectors, state, i);
      var host := hostsMap[sector.host.value];
      hostsMap := hostsMap - {sector.host.value};
      if sector.contract.Some? {
        if sector.contract.value !in contracts {
          assert !ContractOk(sectors, state, i);
          toMigrate := toMigrate + [i];
          continue;
        }
        contracts := contracts - {sector.contract.value};
      }
      assert !NeedsMigration(sectors, state, i);
      var _ := spaced.Add(host);
    }
  }

  // The candidate loop over the hosts that hold no sector of the slab, in arbitrary order.
  method PickCandidates(hostsMap: map<HostKey, Host>, hasAppend: set<HostKey>, spaced: SpacedSet) returns (candidates: seq<HostKey>)
    requires spaced.Spaced() && forall k :: k in hostsMap ==> hostsMap[k].key == k
    modifies spaced
    ensures spaced.Spaced() && Distinct(candidates)
    ensures forall k :: k in candidates ==> k in hostsMap && k in hasAppend && hostsMap[k].GoodForUpload()
    ensures forall k :: k in candidates ==> k in spaced.selected && spaced.selected[k] == hostsMap[k].location
    ensures forall k :: k in spaced.selected <==> k in old(spaced.selected) || k in candidates
    ensures forall k :: k in old(spaced.selected) ==> k in spaced.selected && spaced.selected[k] == old(spaced.selected)[k]
    ensures forall k :: k in hostsMap && k in hasAppend && hostsMap[k].GoodForUpload() && k !in spaced.selected ==>
              !FarFrom(spaced.distance, spaced.minDistanceKm, hostsMap[k].location, spaced.selected)
  {
    candidates := [];
    var rest := hostsMap.Keys;
    while rest != {}
      invariant rest <= hostsMap.Keys && spaced.Spaced() && Distinct(candidates)
      invariant forall k :: k in candidates ==> k in hostsMap && k in hasAppend && hostsMap[k].GoodForUpload() && k !in rest
      invariant forall k :: k in candidates ==> k in spaced.selected && spaced.selected[k] == hostsMap[k].location
      invariant forall k :: k in spaced.selected <==> k in old(spaced.selected) || k in candidates
      invariant forall k :: k in old(spaced.selected) ==> k in spaced.selected && spaced.selected[k] == old(spaced.selected)[k]
      invariant forall k :: k in hostsMap && k !in rest && k in hasAppend && hostsMap[k].GoodForUpload() && k !in spaced.selected ==>
                  !FarFrom(spaced.distance, spaced.minDistanceKm, hostsMap[k].location, spaced.selected)
      decreases rest
    {
      var k :| k in rest;
      rest := rest - {k};
      var host := hostsMap[k];
      if k !in hasAppend || !host.GoodForUpload() {
        continue;
      }
      ghost var before := spaced.selected;
      var added := spaced.Add(host);
      if added {
        CloseStaysClose(spaced.distance, spaced.minDistanceKm, before, spaced.selected);
        candidates := candidates + [k];
      }
    }
  }

  // A location too close to some placed host stays too close when more are placed.
  lemma CloseStaysClose(distance: Distance, minDistanceKm: real, before: map<HostKey, Location>, after: map<HostKey, Location>)
    requires forall k :: k in before ==> k in after && after[k] == before[k]
    ensures forall at {:trigger FarFrom(distance, minDistanceKm, at, after)} :: FarFrom(distance, minDistanceKm, at, after) ==> FarFrom(distance, minDistanceKm, at, before)
  {
  }

  // A migration plan, with the hosts that ended up in the spaced set.
  datatype Plan = Plan(indices: seq<nat>, candidates: seq<HostKey>, placed: map<HostKey, Location>)

  ghost predicate SoundPlan(sectors: seq<Sector>, state: State, plan: Plan) {
    // exactly the sectors that need it, in order
    && StrictlyIncreasing(plan.indices)
    && (forall i: nat :: i in plan.indices <==> i < |sectors| && NeedsMigration(sectors, state, i))
    // distinct eligible hosts, none of which holds a sector of the slab
    && Distinct(plan.candidates)
    && (forall k :: k in plan.candidates ==> Eligible(sectors, state, k))
    // the candidates and exactly the kept hosts that fit are spaced apart
    && PairwiseSpaced(state.distance, state.minDistanceKm, plan.placed)
    && (forall k :: k in plan.candidates ==> k in plan.placed && plan.placed[k] == GoodHosts(state.hosts)[k].location)
    && (forall k :: k in plan.placed <==> k in plan.candidates || k in KeptPlaced(sectors, state, |sectors|))
    && (forall k :: k in KeptPlaced(sectors, state, |sectors|) ==> plan.placed[k] == KeptPlaced(sectors, state, |sectors|)[k])
    // no eligible host was passed over without being too close to a placed one
    && (forall k :: Eligible(sectors, state, k) && k !in plan.candidates ==>
          !FarFrom(state.distance, state.minDistanceKm, GoodHosts(state.hosts)[k].location, plan.placed))
  }

  method SectorsToMigrate(sectors: seq<Sector>, state: State) returns (plan: Plan)
    ensures SoundPlan(sectors, state, plan)
  {
    var goodHosts := GoodHostMap(state.hosts);
    var healthy, hasAppend := ContractMaps(state, goodHosts);
    var spaced := new SpacedSet(state.minDistanceKm, state.distance);
    var indices, hostsMap := ScanSectors(sectors, state, goodHosts, healthy, spaced);
    var candidates := PickCandidates(hostsMap, hasAppend, spaced);
    plan := Plan(indices, candidates, spaced.selected);
    BadIndicesAreExact(sectors, state, |sectors|);
    forall k | Eligible(sectors, state, k) && k !in candidates
      ensures !FarFrom(state.distance, state.minDistanceKm, GoodHosts(state.hosts)[k].location, spaced.selected) {
      KeptIsUsed(sectors, state, k);
    }
  }

  lemma KeptIsUsed(sectors: seq<Sector>, state: State, k: HostKey)
    ensures k in KeptPlaced(sectors, state, |sectors|) ==> UsedBefore(sectors, |sectors|, k)
  {
    if k in KeptPlaced(sectors, state, |sectors|) {
      KeptPlacedAreKept(sectors, state, |sectors|, k);
      var j: nat :| j < |sectors| && Keeps(sectors, state, j, k);
      assert OnHost(sectors, j, k);
    }
  }

  // Every candidate keeps its distance from every host that keeps its sector, unless that host was itself
  // too close to one placed before it.
  lemma CandidatesAvoidKeptHosts(sectors: seq<Sector>, state: State, plan: Plan, c: HostKey, j: nat)
    requires SoundPlan(sectors, state, plan) && c in plan.candidates && state.minDistanceKm > 0.0
    requires j < |sectors| && !NeedsMigration(sectors, state, j)
    ensures var k := sectors[j].host.value; var at, there := GoodHosts(state.hosts)[c].location, GoodHosts(state.hosts)[k].location;
      || state.distance(at, there) >= state.minDistanceKm || state.distance(there, at) >= state.minDistanceKm
      || !FarFrom(state.distance, state.minDistanceKm, there, KeptPlaced(sectors, state, j))
  {
    var k := sectors[j].host.value;
    KeptIsPlacedOrClose(sectors, state, |sectors|, j);
    assert !HostsSector(sectors, c);
    assert OnHost(sectors, j, k);
  }

  // --- applying a result ---

  datatype Shard = Shard(root: Root, host: HostKey)

  // MigrateSector: the sector with this root now lives on the new host, pinned to no contract.
  function MigrateSector(sectors: seq<Sector>, s: Shard): (r: seq<Sector>)
    ensures |r| == |sectors|
  {
    seq(|sectors|, i requires 0 <= i < |sectors| => if sectors[i].root == s.root then Sector(s.root, Some(s.host), None) else sectors[i])
  }

  function MigrateAll(sectors: seq<Sector>, migrated: seq<Shard>): (r: seq<Sector>)
    ensures |r| == |sectors|
  {
    if migrated == [] then sectors else MigrateSector(MigrateAll(sectors, migrated[..|migrated| - 1]), migrated[|migrated| - 1])
  }

  lemma {:induction false} MigrateAllAt(sectors: seq<Sector>, migrated: seq<Shard>, i: nat)
    requires i < |sectors|
    ensures (forall s :: s in migrated ==> s.root != sectors[i].root) ==> MigrateAll(sectors, migrated)[i] == sectors[i]
    ensures (exists s :: s in migrated && s.root == sectors[i].root) ==>
              exists s :: s in migrated && s.root == sectors[i].root && MigrateAll(sectors, migrated)[i] == Sector(s.root, Some(s.host), None)
    ensures MigrateAll(sectors, migrated)[i].root == sectors[i].root
  {
    if migrated != [] {
      var init, last := migrated[..|migrated| - 1], migrated[|migrated| - 1];
      assert migrated == init + [last];
      MigrateAllAt(sectors, init, i);
    }
  }

  ghost predicate HasShard(migrated: seq<Shard>, root: Root) {
    exists s :: s in migrated && s.root == root
  }

  ghost predicate IsBadRoot(sectors: seq<Sector>, state: State, root: Root) {
    exists i: nat :: i < |sectors| && NeedsMigration(sectors, state, i) && sectors[i].root == root
  }

  // Every sector that needs migration got a shard on its own candidate, and nothing else moved.
  ghost predicate FullSuccess(sectors: seq<Sector>, state: State, migrated: seq<Shard>) {
    && (forall i: nat :: i < |sectors| && NeedsMigration(sectors, state, i) ==> HasShard(migrated, sectors[i].root))
    && (forall s :: s in migrated ==> IsBadRoot(sectors, state, s.root) && Eligible(sectors, state, s.host))
    && (forall s, u :: s in migrated && u in migrated && s != u ==> s.host != u.host && s.root != u.root)
  }

  ghost predicate DistinctRoots(sectors: seq<Sector>) {
    forall i, j :: 0 <= i < j < |sectors| ==> sectors[i].root != sectors[j].root
  }

  // The sector's place after the migration: a fresh host without contract, or unchanged.
  lemma PlaceAfter(sectors: seq<Sector>, state: State, migrated: seq<Shard>, i: nat) returns (s: Option<Shard>)
    requires DistinctRoots(sectors) && FullSuccess(sectors, state, migrated) && i < |sectors|
    ensures s.Some? <==> NeedsMigration(sectors, state, i)
    ensures s.None? ==> MigrateAll(sectors, migrated)[i] == sectors[i]
    ensures s.Some? ==> s.value in migrated && s.value.root == sectors[i].root && MigrateAll(sectors, migrated)[i] == Sector(s.value.root, Some(s.value.host), None)
  {
    MigrateAllAt(sectors, migrated, i);
    if NeedsMigration(sectors, state, i) {
      assert HasShard(migrated, sectors[i].root);
      var u :| u in migrated && u.root == sectors[i].root && MigrateAll(sectors, migrated)[i] == Sector(u.root, Some(u.host), None);
      s := Some(u);
    } else {
      s := None;
      forall u | u in migrated ensures u.root != sectors[i].root {
        assert IsBadRoot(sectors, state, u.root);
        var j: nat :| j < |sectors| && NeedsMigration(sectors, state, j) && sectors[j].root == u.root;
        assert j != i;
      }
    }
  }

  lemma HostOkAfter(sectors: seq<Sector>, state: State, migrated: seq<Shard>, i: nat)
    requires DistinctRoots(sectors) && FullSuccess(sectors, state, migrated) && i < |sectors|
    ensures HostOk(MigrateAll(sectors, migrated), state, i)
  {
    var after := MigrateAll(sectors, migrated);
    var s := PlaceAfter(sectors, state, migrated, i);
    var k := after[i].host.value;
    forall j: nat | j < i ensures !OnHost(after, j, k) {
      var u := PlaceAfter(sectors, state, migrated, j);
      assert !OnHost(sectors, j, k) by {
        if OnHost(sectors, j, k) {
          assert s.None? ==> UsedBefore(sectors, i, k);
        }
      }
      if u.Some? && u.value.host == k {
        assert s.None? ==> OnHost(sectors, i, k);
      }
    }
  }

  // Planning is a fixed point: after a full success is applied, the same state asks for nothing more.
  lemma ReplanningAsksNothing(sectors: seq<Sector>, state: State, migrated: seq<Shard>, i: nat)
    requires DistinctRoots(sectors) && FullSuccess(sectors, state, migrated) && i < |sectors|
    ensures !NeedsMigration(MigrateAll(sectors, migrated), state, i)
  {
    var after := MigrateAll(sectors, migrated);
    HostOkAfter(sectors, state, migrated, i);
    var s := PlaceAfter(sectors, state, migrated, i);
    if s.None? && sectors[i].contract.Some? {
      var id := sectors[i].contract.value;
      forall j: nat | j < i ensures !UsesContract(after, state, j, id) {
        var u := PlaceAfter(sectors, state, migrated, j);
        if u.None? {
          assert !UsesContract(sectors, state, j, id);
        }
      }
    }
  }
}
